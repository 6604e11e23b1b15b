/** src/compiler/parser/nodes/text.ts: a run of character data up to the
    next `<` or the end of input becomes a Text child of the open node. */
module TextHandler {
  import opened Contracts
  import opened Patterns
  import opened Cursor

  /** Where the text that starts at `i` ends: the first `<` at or after `i`,
      or the end of input. */
  function TextEnd(t: string, i: nat): (k: nat)
    requires i <= |t|
    ensures i <= k <= |t|
    ensures forall j :: i <= j < k ==> t[j] != '<'
    ensures k == |t| || t[k] == '<'
  {
    var k := UntilPos(t, i, Lit("<"));
    assert forall j :: i <= j < k ==> !MatchesAt(t, j, Lit("<"));
    assert k < |t| ==> MatchesAt(t, k, Lit("<"));
    assert forall j :: i <= j < |t| ==> (MatchesAt(t, j, Lit("<")) <==> t[j] == '<') by {
      forall j | i <= j < |t| ensures MatchesAt(t, j, Lit("<")) <==> t[j] == '<' {
        assert StartsWithAt(t, j, "<") <==> t[j..j + 1] == [t[j]] == "<";
      }
    }
    k
  }

  /** The text node read at `i` is empty exactly when `i` is at the end of
      input or at a `<`; otherwise it takes at least one character. */
  lemma TextEndEmpty(t: string, i: nat)
    requires i <= |t|
    ensures TextEnd(t, i) == i <==> i == |t| || t[i] == '<'
  {
  }

  /** Reading text again where it stopped reads nothing. */
  lemma TextEndIdempotent(t: string, i: nat)
    requires i <= |t|
    ensures TextEnd(t, TextEnd(t, i)) == TextEnd(t, i)
  {
    TextEndEmpty(t, TextEnd(t, i));
  }

  /** `text(parser)`: consume characters one at a time while not at `<`,
      then append `Text{start, end, raw, data: decode(raw)}` to the open
      node.  The stack, the scripts and the styles are left as they were. */
  method Text(p: Parser)
    requires p.Valid()
    modifies p
    ensures p.Valid()
    ensures p.index == TextEnd(p.template, old(p.index))
    ensures var raw := p.template[old(p.index)..p.index];
            p.nodes == AppendChild(old(p.nodes), old(p.Current()),
                                   TemplateNode.Text(old(p.index), p.index, Some(raw), p.host.decode(raw)))
    ensures p.stack == old(p.stack) && p.css == old(p.css) && p.js == old(p.js)
  {
    var start := p.index;
    var data := "";
    while p.index < |p.template| && !p.Match("<")
      invariant p.Valid()
      invariant start <= p.index <= TextEnd(p.template, start)
      invariant data == p.template[start..p.index]
      invariant p.nodes == old(p.nodes) && p.stack == old(p.stack)
      modifies p`index
      decreases |p.template| - p.index
    {
      assert p.template[p.index..p.index + 1] == [p.template[p.index]];
      var i := p.IncrementIndex();
      data := data + [p.template[i]];
    }
    assert p.index < |p.template| ==> p.template[p.index..p.index + 1] == [p.template[p.index]];
    var node := TemplateNode.Text(start, p.index, Some(data), p.host.decode(data));
    var _ := p.AppendToCurrent(node);
  }
}
