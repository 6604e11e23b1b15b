/** The `tag` state of src/compiler/parser/nodes/tag.ts: comments,
    closing tags, and opening tags with their attributes, including the
    top-level `<script>` and `<style>` blocks and the raw-text bodies of
    `<textarea>`, `<script>` and `<style>` elements. */
module TagHandler {
  import opened Contracts
  import opened Patterns
  import opened Cursor
  import opened TagNames
  import opened TagAttributes
  import opened AttributeScans
  import Scripts
  import Styles

  /** `/(\s|\/|>)/`: where a tag name stops. */
  const TagNameEnd: Pattern := OneOf(CharClass(true, "/>"))

  const CommentEndMessage: string := "Expected closing comment tag (\"-->\")."
  const InvalidTagNameMessage: string := "Expected valid tag name"
  const ExpectedGreaterMessage: string := "Expected >"

  function VoidClosingMessage(name: string): string {
    "<" + name + "> does not require a closing tag, and is therefore invalid."
  }

  function NotOpenMessage(name: string): string {
    "</" + name + "> attempted to close an element that was not open"
  }

  /** The error `eat(s, true)` raises where `s` is missing. */
  function MissingError(t: string, at: nat, message: string): ParseError {
    ParseError(if at == |t| then UnexpectedEof else UnexpectedToken, message, at)
  }

  /** `readTagName(parser)`: the text up to whitespace, `/` or `>`, which
      must match the tag-name pattern; otherwise `invalid-tag-name` at
      the start of the name. */
  method ReadTagName(p: Parser) returns (r: Result<string>)
    requires p.Valid()
    modifies p`index
    ensures p.Valid()
    ensures p.index == UntilPos(p.template, old(p.index), TagNameEnd)
    ensures var name := p.template[old(p.index)..p.index];
            && (r.Ok? <==> ValidTagName(name))
            && (r.Ok? ==> r.value == name && old(p.index) < p.index)
            && (r.Err? ==> r.error == ParseError(InvalidTagName, InvalidTagNameMessage, old(p.index)))
  {
    var start := p.index;
    var name := p.ReadUntil(TagNameEnd);
    ValidTagNameIff(name);
    if !StartsTagName(name) {
      return Err(ParseError(InvalidTagName, InvalidTagNameMessage, start));
    }
    r := Ok(name);
  }

  /** An element called `name`: what a closing tag for `name` closes. */
  predicate Named(n: TemplateNode, name: string) {
    n.Element? && n.name == name
  }

  /** A plain element with another name: a closing tag for `name` closes
      it implicitly on the way down. */
  predicate Passable(n: TemplateNode, name: string) {
    n.Element? && n.kind == PlainElement && n.name != name
  }

  /** The topmost frame a closing tag for `name` cannot pass, or -1. */
  function Unwind(ns: seq<TemplateNode>, stack: seq<NodeId>, name: string): (k: int)
    requires forall j :: 0 <= j < |stack| ==> stack[j] < |ns|
    ensures -1 <= k < |stack|
    ensures k >= 0 ==> !Passable(ns[stack[k]], name)
    decreases |stack|
  {
    if |stack| == 0 then -1
    else if Passable(ns[stack[|stack| - 1]], name) then Unwind(ns, stack[..|stack| - 1], name)
    else |stack| - 1
  }

  /** Every frame above the one unwinding stops at can be passed. */
  lemma {:induction false} UnwindPassesAbove(ns: seq<TemplateNode>, stack: seq<NodeId>, name: string)
    requires forall j :: 0 <= j < |stack| ==> stack[j] < |ns|
    ensures forall j :: Unwind(ns, stack, name) < j < |stack| ==> Passable(ns[stack[j]], name)
    decreases |stack|
  {
    if |stack| > 0 && Passable(ns[stack[|stack| - 1]], name) {
      var init := stack[..|stack| - 1];
      UnwindPassesAbove(ns, init, name);
      assert forall j :: 0 <= j < |init| ==> init[j] == stack[j];
    }
  }

  /** Unwinding stops at a frame that cannot be passed when every frame
      above it can. */
  lemma {:induction false} UnwindAt(ns: seq<TemplateNode>, stack: seq<NodeId>, name: string, m: nat)
    requires forall i :: 0 <= i < |stack| ==> stack[i] < |ns|
    requires m < |stack| && !Passable(ns[stack[m]], name)
    requires forall j :: m < j < |stack| ==> Passable(ns[stack[j]], name)
    ensures Unwind(ns, stack, name) == m
    decreases |stack|
  {
    if m < |stack| - 1 {
      var init := stack[..|stack| - 1];
      assert forall j :: 0 <= j < |init| ==> init[j] == stack[j];
      UnwindAt(ns, init, name, m);
    }
  }

  /** Under `Valid`, unwinding always stops at a frame, and when that frame
      is the one named it is not the root. */
  lemma UnwindStops(p: Parser, name: string)
    requires p.Valid()
    ensures var k := Unwind(p.nodes, p.stack, name);
            0 <= k && (Named(p.nodes[p.stack[k]], name) ==> 0 < k)
  {
    UnwindPassesAbove(p.nodes, p.stack, name);
    assert !Passable(p.nodes[p.stack[0]], name);
  }

  /** The arena after the frames from `m` up to the top of the stack
      have had their end set to `e`. */
  function EndFrames(ns: seq<TemplateNode>, st: seq<NodeId>, m: nat, e: nat): (r: seq<TemplateNode>)
    requires m <= |st| && forall j :: 0 <= j < |st| ==> st[j] < |ns|
    ensures |r| == |ns|
    decreases |st| - m
  {
    if m == |st| then ns
    else EndFrames(ns, st, m + 1, e)[st[m] := WithEnd(ns[st[m]], e)]
  }

  /** A node that is not in the frames from `m` up keeps its contents. */
  lemma {:induction false} EndFramesOutside(ns: seq<TemplateNode>, st: seq<NodeId>, m: nat, e: nat, id: NodeId)
    requires m <= |st| && forall j :: 0 <= j < |st| ==> st[j] < |ns|
    requires id < |ns| && forall j :: m <= j < |st| ==> st[j] != id
    ensures EndFrames(ns, st, m, e)[id] == ns[id]
    decreases |st| - m
  {
    if m < |st| {
      EndFramesOutside(ns, st, m + 1, e, id);
    }
  }

  /** Each frame from `m` up, all distinct, ends at `e`. */
  lemma {:induction false} EndFramesInside(ns: seq<TemplateNode>, st: seq<NodeId>, m: nat, e: nat, j: nat)
    requires m <= j < |st| && forall i :: 0 <= i < |st| ==> st[i] < |ns|
    requires forall i, i' :: 0 <= i < i' < |st| ==> st[i] < st[i']
    ensures EndFrames(ns, st, m, e)[st[j]] == WithEnd(ns[st[j]], e)
    decreases |st| - m
  {
    if m < j {
      EndFramesInside(ns, st, m + 1, e, j);
    } else {
      EndFramesOutside(ns, st, m + 1, e, st[j]);
    }
  }

  /** One step of the unwinding: the frame just below `m` is untouched
      so far, and ending it extends the ended frames down to `m - 1`. */
  lemma EndFramesStep(ns: seq<TemplateNode>, st: seq<NodeId>, m: nat, e: nat)
    requires 0 < m <= |st| && forall j :: 0 <= j < |st| ==> st[j] < |ns|
    requires forall i, i' :: 0 <= i < i' < |st| ==> st[i] < st[i']
    ensures EndFrames(ns, st, m, e)[st[m - 1]] == ns[st[m - 1]]
    ensures EndFrames(ns, st, m, e)[st[m - 1] := WithEnd(ns[st[m - 1]], e)] == EndFrames(ns, st, m - 1, e)
  {
    EndFramesOutside(ns, st, m, e, st[m - 1]);
  }

  /** Ending nodes changes neither their kind nor their children. */
  lemma {:induction false} EndFramesShape(ns: seq<TemplateNode>, st: seq<NodeId>, m: nat, e: nat, id: NodeId)
    requires m <= |st| && forall j :: 0 <= j < |st| ==> st[j] < |ns|
    requires id < |ns|
    ensures var n := EndFrames(ns, st, m, e)[id];
            && n.Fragment? == ns[id].Fragment? && n.Element? == ns[id].Element?
            && Children(n) == Children(ns[id])
    decreases |st| - m
  {
    if m < |st| {
      EndFramesShape(ns, st, m + 1, e, id);
    }
  }

  /** The open stack and the arena as a closing tag for `name` at `start`
      leaves them: the passable frames on top have ended at `start` and
      are popped, down to the element called `name`, which stays open. */
  method UnwindFrames(nodes: seq<TemplateNode>, stack: seq<NodeId>, start: nat, name: string)
    returns (r: Result<(seq<TemplateNode>, seq<NodeId>)>)
    requires 0 < |stack| && stack[0] < |nodes| && !Passable(nodes[stack[0]], name)
    requires forall j :: 0 <= j < |stack| ==> stack[j] < |nodes|
    requires forall i, j :: 0 <= i < j < |stack| ==> stack[i] < stack[j]
    ensures var k := Unwind(nodes, stack, name);
            if 0 <= k && Named(nodes[stack[k]], name) then
              r == Ok((EndFrames(nodes, stack, k + 1, start), stack[..k + 1]))
            else
              r == Err(ParseError(InvalidClosingTag, NotOpenMessage(name), start))
  {
    var ns, st := nodes, stack;
    var top := st[|st| - 1];
    EndFramesStep(nodes, stack, |st|, start);
    while !Named(ns[top], name)
      invariant 0 < |st| <= |stack| && st == stack[..|st|] && top == st[|st| - 1]
      invariant forall j :: |st| <= j < |stack| ==> Passable(nodes[stack[j]], name)
      invariant ns == EndFrames(nodes, stack, |st|, start) && ns[top] == nodes[top]
      decreases |st|
    {
      if !(ns[top].Element? && ns[top].kind == PlainElement) {
        UnwindAt(nodes, stack, name, |st| - 1);
        return Err(ParseError(InvalidClosingTag, NotOpenMessage(name), start));
      }
      ns := ns[top := WithEnd(ns[top], start)];
      st := st[..|st| - 1];
      top := st[|st| - 1];
      EndFramesStep(nodes, stack, |st|, start);
    }
    UnwindAt(nodes, stack, name, |st| - 1);
    r := Ok((ns, st));
  }

  /** The loop of the closing-tag branch, on the parser: `parent.end =
      start; stack.pop()` for each frame passed. */
  method UnwindTo(p: Parser, start: nat, name: string) returns (r: Result<()>)
    requires p.Valid()
    modifies p`nodes, p`stack
    ensures p.Valid()
    ensures r.Err? ==> p.nodes == old(p.nodes) && p.stack == old(p.stack)
    ensures var k := Unwind(old(p.nodes), old(p.stack), name);
            if 0 <= k && Named(old(p.nodes)[old(p.stack)[k]], name) then
              && r == Ok(())
              && 0 < k && p.stack == old(p.stack)[..k + 1]
              && p.nodes == EndFrames(old(p.nodes), old(p.stack), k + 1, start)
            else
              r == Err(ParseError(InvalidClosingTag, NotOpenMessage(name), start))
  {
    UnwindStops(p, name);
    var unwound :- UnwindFrames(p.nodes, p.stack, start, name);
    var nodes, stack := unwound.0, unwound.1;
    ghost var ns0 := p.nodes;
    forall id | 0 <= id < |nodes|
      ensures nodes[id].Fragment? == ns0[id].Fragment? && nodes[id].Element? == ns0[id].Element?
      ensures Children(nodes[id]) == Children(ns0[id])
    {
      EndFramesShape(ns0, p.stack, |stack|, start, id);
    }
    p.nodes, p.stack := nodes, stack;
    r := Ok(());
  }

  /** `current().end = end; stack.pop()`: the open element ends at `end`
      and is closed. */
  method CloseCurrent(p: Parser, end: nat)
    requires p.Valid() && |p.stack| > 1
    modifies p`nodes, p`stack
    ensures p.Valid()
    ensures p.stack == old(p.stack)[..|old(p.stack)| - 1]
    ensures p.nodes == old(p.nodes)[old(p.Current()) := WithEnd(old(p.nodes)[old(p.Current())], end)]
  {
    p.SetEnd(p.Current(), end);
    p.PopStack();
  }

  /** The arena `ns` and the stack `st` after the closing-tag branch of
      `tag` after its `>`, with the cursor at `e`, from the arena `ns0`
      and the stack `st0`: every frame above the element called `name`
      ends where the closing tag starts, and that element ends at `e`;
      all of them are popped.  When no such element is open,
      `invalid-closing-tag` at the start of the tag, and the tree and the
      stack are as they were. */
  ghost predicate ClosedNamed(ns0: seq<TemplateNode>, st0: seq<NodeId>, e: nat, start: nat, name: string,
                              r: Result<()>, ns: seq<TemplateNode>, st: seq<NodeId>)
    requires forall j :: 0 <= j < |st0| ==> st0[j] < |ns0|
  {
    var k := Unwind(ns0, st0, name);
    if 0 <= k && Named(ns0[st0[k]], name) then
      && r == Ok(())
      && st == st0[..k]
      && ns == EndFrames(ns0, st0, k + 1, start)[st0[k] := WithEnd(ns0[st0[k]], e)]
    else
      && r == Err(ParseError(InvalidClosingTag, NotOpenMessage(name), start))
      && ns == ns0 && st == st0
  }

  /** The closing-tag branch of `tag` after its `>`.  The element called
      `name`, when open, is never the root. */
  method CloseNamed(p: Parser, start: nat, name: string) returns (r: Result<()>)
    requires p.Valid()
    modifies p`nodes, p`stack
    ensures p.Valid() && |p.nodes| == |old(p.nodes)|
    ensures r.Ok? ==> 0 < Unwind(old(p.nodes), old(p.stack), name)
    ensures r.Err? ==> p.nodes == old(p.nodes) && p.stack == old(p.stack)
    ensures ClosedNamed(old(p.nodes), old(p.stack), p.index, start, name, r, p.nodes, p.stack)
  {
    ghost var ns0, st0 := p.nodes, p.stack;
    ghost var k := Unwind(ns0, st0, name);
    var _ :- UnwindTo(p, start, name);
    EndFramesOutside(ns0, st0, k + 1, start, st0[k]);
    assert p.Current() == st0[k] && p.nodes[st0[k]] == ns0[st0[k]];
    CloseCurrent(p, p.index);
    r := Ok(());
  }

  /** The state `s` after the end of a closing tag for `name`, starting
      at `start`, was read from the state `s0`: `>` must follow, and a
      missing one leaves the state as it was; after it the element called
      `name` is closed. */
  ghost predicate ClosingTagEnded(t: string, s0: ParserState, start: nat, name: string, r: Result<()>, s: ParserState)
  {
    && s.js == s0.js && s.css == s0.css
    && if !StartsWithAt(t, s0.index, ">") then
         && r == Err(MissingError(t, s0.index, ExpectedGreaterMessage))
         && s.index == s0.index && s.nodes == s0.nodes && s.stack == s0.stack
       else
         && s.index == s0.index + 1
         && (forall j :: 0 <= j < |s0.stack| ==> s0.stack[j] < |s0.nodes|)
         && ClosedNamed(s0.nodes, s0.stack, s.index, start, name, r, s.nodes, s.stack)
  }

  /** Lines 64 to 87 of `tag`: `>`, and then the element called `name`
      is closed. */
  method EndClosingTag(p: Parser, start: nat, name: string) returns (r: Result<()>)
    requires p.Valid()
    modifies p`index, p`nodes, p`stack
    ensures p.Valid() && old(p.index) <= p.index
    ensures ClosingTagEnded(p.template, old(p.Snapshot()), start, name, r, p.Snapshot())
  {
    var _ :- p.Eat(">", true, None);
    r := CloseNamed(p, start, name);
  }

  /** The state `s` after the closing part of a tag for `name`, starting
      at `start`, was read from the state `s0`.  A closing tag for a void
      element is `invalid-closing-tag` at the cursor, which leaves the
      state as it was; otherwise the tag is ended.  Scripts and
      stylesheets are untouched. */
  ghost predicate CloseOutcome(t: string, host: Host, s0: ParserState, start: nat, name: string,
                               r: Result<()>, s: ParserState)
  {
    if host.isVoid(name) then
      && r == Err(ParseError(InvalidClosingTag, VoidClosingMessage(name), s0.index))
      && s == s0
    else
      ClosingTagEnded(t, s0, start, name, r, s)
  }

  /** The closing-tag branch of `tag` (lines 61 to 87).  It never adds a
      node, and on an error the tree and the stack are as they were. */
  method CloseTag(p: Parser, start: nat, name: string) returns (r: Result<()>)
    requires p.Valid()
    modifies p`index, p`nodes, p`stack
    ensures p.Valid() && old(p.index) <= p.index
    ensures |p.nodes| == |old(p.nodes)|
    ensures r.Err? ==> p.nodes == old(p.nodes) && p.stack == old(p.stack)
    ensures CloseOutcome(p.template, p.host, old(p.Snapshot()), start, name, r, p.Snapshot())
  {
    if p.host.isVoid(name) {
      return Err(p.Error(InvalidClosingTag, VoidClosingMessage(name)));
    }
    r := EndClosingTag(p, start, name);
  }

  /** The arena and the open stack after the implicit close before a
      tag called `name` at `start`: when the open element's end tag may
      be omitted before this tag, that element ends at `start` and is
      popped. */
  function ImplicitlyClosed(host: Host, ns: seq<TemplateNode>, st: seq<NodeId>, start: nat, name: string)
    : (seq<TemplateNode>, seq<NodeId>)
    requires 0 < |st| && st[|st| - 1] < |ns|
  {
    var top := st[|st| - 1];
    if ns[top].Element? && host.closingTagOmitted(ns[top].name, name) then
      (ns[top := WithEnd(ns[top], start)], st[..|st| - 1])
    else
      (ns, st)
  }

  /** The implicit close of `tag`.  The root has no name and is never
      closed. */
  method ImplicitClose(p: Parser, start: nat, name: string)
    requires p.Valid()
    modifies p`nodes, p`stack
    ensures p.Valid()
    ensures (p.nodes, p.stack) == ImplicitlyClosed(p.host, old(p.nodes), old(p.stack), start, name)
    ensures p.stack != old(p.stack) ==> |old(p.stack)| > 1
  {
    var parent := p.Current();
    if p.nodes[parent].Element? && p.host.closingTagOmitted(p.nodes[parent].name, name) {
      CloseCurrent(p, start);
    }
  }

  /** An attribute and the whitespace after it: one step of
      `ScanAttributes` from the cursor. */
  method AttributeTurn(p: Parser, seen: set<string>) returns (r: Result<Option<Attr>>, seen': set<string>)
    requires p.Valid()
    modifies p`index
    ensures p.Valid() && old(p.index) <= p.index
    ensures var s := ScanAttributes(p.template, old(p.index), seen, p.host.decode);
            && (r.Err? ==> s.attrs == [] && s.stop == Err(r.error))
            && (r.Ok? && r.value.None? ==> s.attrs == [] && s.stop == Ok(()) && p.index == s.at)
            && (r.Ok? && r.value.Some? ==>
                  var rest := ScanAttributes(p.template, p.index, seen', p.host.decode);
                  && old(p.index) < p.index
                  && s == AttributeScan([r.value.value] + rest.attrs, rest.at, rest.stop))
  {
    ScanAttributesStep(p.template, p.index, seen, p.host.decode);
    r, seen' := ReadAttribute(p, seen);
    if r.Ok? && r.value.Some? {
      p.AllowWhitespace();
    }
  }

  /** The loop's ghost state: `whole`, the scan from where the loop
      started, is `attrs`, the attributes read so far, followed by `rest`,
      the scan from the cursor with their keys recorded. */
  ghost predicate Resumes(whole: AttributeScan, attrs: seq<Attr>, rest: AttributeScan) {
    whole == AttributeScan(attrs + rest.attrs, rest.at, rest.stop)
  }

  /** Moving the first attribute of the rest to those read keeps the
      state. */
  lemma ResumesStep(whole: AttributeScan, attrs: seq<Attr>, a: Attr, rest: AttributeScan)
    requires Resumes(whole, attrs, AttributeScan([a] + rest.attrs, rest.at, rest.stop))
    ensures Resumes(whole, attrs + [a], rest)
  {
    assert attrs + ([a] + rest.attrs) == attrs + [a] + rest.attrs;
  }

  /** With no attribute left, the rest is the end of `whole`. */
  lemma ResumesEnd(whole: AttributeScan, attrs: seq<Attr>, rest: AttributeScan)
    requires Resumes(whole, attrs, rest) && rest.attrs == []
    ensures whole.attrs == attrs && whole.at == rest.at && whole.stop == rest.stop
  {
    assert attrs + [] == attrs;
  }

  /** One turn of the attribute loop, keeping its ghost state. */
  method NextAttribute(p: Parser, seen: set<string>, ghost whole: AttributeScan, ghost attrs: seq<Attr>)
    returns (r: Result<Option<Attr>>, seen': set<string>)
    requires p.Valid()
    requires Resumes(whole, attrs, ScanAttributes(p.template, p.index, seen, p.host.decode))
    modifies p`index
    ensures p.Valid() && old(p.index) <= p.index
    ensures r.Err? ==> whole.attrs == attrs && whole.stop == Err(r.error)
    ensures r.Ok? && r.value.None? ==> whole.attrs == attrs && whole.stop == Ok(()) && p.index == whole.at
    ensures r.Ok? && r.value.Some? ==>
              && old(p.index) < p.index
              && Resumes(whole, attrs + [r.value.value], ScanAttributes(p.template, p.index, seen', p.host.decode))
  {
    ghost var s := ScanAttributes(p.template, p.index, seen, p.host.decode);
    r, seen' := AttributeTurn(p, seen);
    if r.Ok? && r.value.Some? {
      ResumesStep(whole, attrs, r.value.value, ScanAttributes(p.template, p.index, seen', p.host.decode));
    } else {
      ResumesEnd(whole, attrs, s);
    }
  }

  /** The attribute loop of `tag`: read attributes, each followed by
      optional whitespace, until no attribute name starts at the cursor,
      as `ScanAttributes` describes from the cursor with no key recorded;
      the cursor stops where the scan stops. */
  method ReadAttributes(p: Parser) returns (r: Result<seq<Attr>>)
    requires p.Valid()
    modifies p`index
    ensures p.Valid() && old(p.index) <= p.index
    ensures var s := ScanAttributes(p.template, old(p.index), {}, p.host.decode);
            && (s.stop.Ok? ==> r == Ok(s.attrs) && p.index == s.at)
            && (s.stop.Err? ==> r == Err(s.stop.error))
  {
    ghost var whole := ScanAttributes(p.template, p.index, {}, p.host.decode);
    var seen: set<string> := {};
    var attrs: seq<Attr> := [];
    assert attrs + whole.attrs == whole.attrs;
    while true
      invariant p.Valid() && old(p.index) <= p.index
      invariant Resumes(whole, attrs, ScanAttributes(p.template, p.index, seen, p.host.decode))
      decreases |p.template| - p.index
    {
      var a, seen' := NextAttribute(p, seen, whole, attrs);
      if a.Err? {
        return Err(a.error);
      }
      if a.value.None? {
        return Ok(attrs);
      }
      attrs := attrs + [a.value.value];
      seen := seen';
    }
  }

  /** The comment body read from `i`, for a comment starting at `start`
      under the node `parent`: the text up to the first `-->` becomes a
      `Comment` child of `parent` ending just after `-->`, where the
      cursor `idx` stops; a missing `-->` is an error at the end of the
      text, with the tree `ns` unchanged. */
  ghost predicate CommentRead(t: string, ns0: seq<TemplateNode>, parent: NodeId, i: nat, start: nat,
                              r: Result<()>, idx: nat, ns: seq<TemplateNode>)
    requires i <= |t| && parent < |ns0| && (ns0[parent].Fragment? || ns0[parent].Element?)
  {
    var k := UntilPos(t, i, Lit("-->"));
    if StartsWithAt(t, k, "-->") then
      && r == Ok(()) && idx == k + 3
      && ns == AppendChild(ns0, parent, TemplateNode.Comment(start, idx, t[i..k]))
    else
      && r == Err(MissingError(t, k, CommentEndMessage))
      && idx == k && ns == ns0
  }

  /** The `<!-- … -->` branch of `tag`: the text up to the first `-->`
      becomes a `Comment` child of the open node, spanning from the `<` to
      just after `-->`; a missing `-->` is an error at the end of the text. */
  method ReadComment(p: Parser, start: nat) returns (r: Result<()>)
    requires p.Valid()
    modifies p`index, p`nodes
    ensures p.Valid()
    ensures CommentRead(p.template, old(p.nodes), old(p.Current()), old(p.index), start, r, p.index, p.nodes)
  {
    var data := p.ReadUntil(Lit("-->"));
    var _ :- p.Eat("-->", true, Some(CommentEndMessage));
    var _ := p.AppendToCurrent(TemplateNode.Comment(start, p.index, data));
    r := Ok(());
  }

  const TextareaClosingTag: string := "</textarea>"

  /** The elements whose body is read as text rather than parsed. */
  predicate RawTextName(name: string) {
    name == "textarea" || name == "script" || name == "style"
  }

  /** The body of the element `id` read from `i` up to `closing`: the
      text before `closing` becomes the element's child, a `Text` with no
      `raw` and no decoding, and then `closing` is required.  With
      `setEnd` the element ends after `closing`; otherwise it keeps its
      end.  `r`, `ns` and `idx` are the result, the arena and the cursor
      afterwards. */
  ghost predicate RawBodyRead(t: string, ns0: seq<TemplateNode>, i: nat, id: NodeId, closing: string, setEnd: bool,
                              r: Result<()>, ns: seq<TemplateNode>, idx: nat)
  {
    && i <= |t| && id < |ns0| && ns0[id].Element?
    && var k := UntilPos(t, i, Lit(closing));
       var ns1 := AppendChild(ns0, id, TemplateNode.Text(i, k, None, t[i..k]));
       if StartsWithAt(t, k, closing) then
         && r == Ok(()) && idx == k + |closing|
         && ns == (if setEnd then ns1[id := WithEnd(ns1[id], idx)] else ns1)
       else
         && r == Err(MissingError(t, k, "Expected " + closing))
         && idx == k && ns == ns1
  }

  /** The body of a nested `<script>` or `<style>`, read up to `closing`. */
  method RawTextChild(p: Parser, id: NodeId, closing: string) returns (r: Result<()>)
    requires p.Valid() && id < |p.nodes| && p.nodes[id].Element?
    modifies p`index, p`nodes
    ensures p.Valid()
    ensures RawBodyRead(p.template, old(p.nodes), old(p.index), id, closing, false, r, p.nodes, p.index)
  {
    var start := p.index;
    var data := p.ReadUntil(Lit(closing));
    var _ := p.AppendChildOf(id, TemplateNode.Text(start, p.index, None, data));
    var _ :- p.Eat(closing, true, None);
    r := Ok(());
  }

  /** The body of the `<textarea>` `id` read from `i`: the characters up
      to `</textarea>` form its only child, a decoded chunk, unless there
      are none; the element ends after `</textarea>`.  Reaching the end of
      input first is `unexpected-eof`. */
  ghost predicate TextareaRead(t: string, decode: string -> string, ns0: seq<TemplateNode>, i: nat, id: NodeId,
                               r: Result<()>, ns: seq<TemplateNode>, idx: nat)
  {
    && i <= |t| && id < |ns0| && ns0[id].Element?
    && var k := UntilPos(t, i, Lit(TextareaClosingTag));
       var chunks := Chunk(t, i, k, decode);
       if k == |t| then
         && r == Err(ParseError(UnexpectedEof, EofMessage, k))
         && idx == k && ns == ns0
       else
         var ns1 := if chunks == [] then ns0 else AppendChild(ns0, id, chunks[0]);
         && r == Ok(())
         && idx == k + |TextareaClosingTag|
         && ns == ns1[id := WithEnd(ns1[id], idx)]
  }

  /** The body of a `<textarea>`. */
  method Textarea(p: Parser, id: NodeId) returns (r: Result<()>)
    requires p.Valid() && id < |p.nodes| && p.nodes[id].Element?
    modifies p`index, p`nodes
    ensures p.Valid()
    ensures TextareaRead(p.template, p.host.decode, old(p.nodes), old(p.index), id, r, p.nodes, p.index)
  {
    var chunks :- ReadSequence(p, Lit(TextareaClosingTag));
    if |chunks| == 1 {
      var _ := p.AppendChildOf(id, chunks[0]);
    }
    var _ := p.Read(Lit(TextareaClosingTag));
    p.SetEnd(id, p.index);
    r := Ok(());
  }

  /** The arena `ns` is `ns0` after the body of the element `id`, the
      last node of `ns0`, was read: earlier nodes are untouched, the
      element keeps what it is, and its children are at most one `Text`. */
  ghost predicate BodyRead(ns0: seq<TemplateNode>, ns: seq<TemplateNode>, id: NodeId) {
    && |ns0| == id + 1 && ns0[id].Element?
    && id < |ns| <= id + 2 && ns[..id] == ns0[..id]
    && ns[id].Element? && ns[id].kind == ns0[id].kind && ns[id].start == ns0[id].start
    && ns[id].name == ns0[id].name && ns[id].attributes == ns0[id].attributes
    && ns[id].children == (if |ns| == id + 1 then [] else [id + 1])
    && (|ns| == id + 2 ==> ns[id + 1].Text?)
  }

  /** The body of a `<textarea>`, whose end follows `</textarea>`. */
  method TextareaBody(p: Parser, id: NodeId) returns (r: Result<()>)
    requires p.Valid() && id == |p.nodes| - 1 && p.nodes[id].Element? && p.nodes[id].children == []
    modifies p`index, p`nodes
    ensures p.Valid() && old(p.index) <= p.index
    ensures BodyRead(old(p.nodes), p.nodes, id)
    ensures r.Ok? ==> p.nodes[id].end == p.index
    ensures TextareaRead(p.template, p.host.decode, old(p.nodes), old(p.index), id, r, p.nodes, p.index)
  {
    var n0 := p.nodes[id];
    r := Textarea(p, id);
    if r.Ok? {
      WithEndKeeps(if |p.nodes| == id + 1 then n0 else n0.(children := [id + 1]), p.index);
    }
  }

  /** The body of a nested `<script>`, whose end follows `</script>`. */
  method ScriptBody(p: Parser, id: NodeId) returns (r: Result<()>)
    requires p.Valid() && id == |p.nodes| - 1 && p.nodes[id].Element? && p.nodes[id].children == []
    modifies p`index, p`nodes
    ensures p.Valid() && old(p.index) <= p.index
    ensures BodyRead(old(p.nodes), p.nodes, id) && |p.nodes| == id + 2
    ensures r.Ok? ==> p.nodes[id].end == p.index
    ensures RawBodyRead(p.template, old(p.nodes), old(p.index), id, Scripts.ScriptClosingTag, true, r, p.nodes, p.index)
  {
    r := RawTextChild(p, id, Scripts.ScriptClosingTag);
    if r.Ok? {
      WithEndKeeps(p.nodes[id], p.index);
      p.SetEnd(id, p.index);
    }
  }

  /** The body of a nested `<style>`; the element keeps the end it was
      created with. */
  method StyleBody(p: Parser, id: NodeId) returns (r: Result<()>)
    requires p.Valid() && id == |p.nodes| - 1 && p.nodes[id].Element? && p.nodes[id].children == []
    modifies p`index, p`nodes
    ensures p.Valid() && old(p.index) <= p.index
    ensures BodyRead(old(p.nodes), p.nodes, id) && |p.nodes| == id + 2
    ensures p.nodes[id].end == old(p.nodes)[id].end
    ensures RawBodyRead(p.template, old(p.nodes), old(p.index), id, Styles.StyleClosingTag, false, r, p.nodes, p.index)
  {
    r := RawTextChild(p, id, Styles.StyleClosingTag);
  }

  /** The body of the raw-text element `id`, called `name`, read from
      `i`: a `<textarea>` ends after `</textarea>`, a nested `<script>`
      after `</script>`, and a nested `<style>` keeps its end. */
  ghost predicate BodyOutcome(t: string, decode: string -> string, ns0: seq<TemplateNode>, i: nat, id: NodeId,
                              name: string, r: Result<()>, ns: seq<TemplateNode>, idx: nat)
  {
    if name == "textarea" then TextareaRead(t, decode, ns0, i, id, r, ns, idx)
    else if name == "script" then RawBodyRead(t, ns0, i, id, Scripts.ScriptClosingTag, true, r, ns, idx)
    else RawBodyRead(t, ns0, i, id, Styles.StyleClosingTag, false, r, ns, idx)
  }

  /** What follows the `>` of an element placed in the tree: a
      self-closing or void element ends there; a `<textarea>`, `<script>`
      or `<style>` reads its body; any other element is opened. */
  method FinishElement(p: Parser, id: NodeId, name: string, selfClosing: bool) returns (r: Result<()>)
    requires p.Valid() && id == |p.nodes| - 1 && p.nodes[id].Element? && p.nodes[id].children == []
    requires forall k :: 0 <= k < |p.stack| ==> p.stack[k] < id
    modifies p`index, p`nodes, p`stack
    ensures p.Valid() && old(p.index) <= p.index
    ensures id < |p.nodes| && p.nodes[..id] == old(p.nodes)[..id]
    ensures var n, n0 := p.nodes[id], old(p.nodes)[id];
            && n.Element? && n.kind == n0.kind && n.start == n0.start && n.name == n0.name
            && n.attributes == n0.attributes
    ensures selfClosing ==>
              && r == Ok(()) && p.index == old(p.index) && p.stack == old(p.stack)
              && p.nodes == old(p.nodes)[id := WithEnd(old(p.nodes)[id], p.index)]
    ensures !selfClosing && !RawTextName(name) ==>
              && r == Ok(()) && p.index == old(p.index) && p.nodes == old(p.nodes)
              && p.stack == old(p.stack) + [id]
    ensures !selfClosing && RawTextName(name) ==>
              && p.stack == old(p.stack) && BodyRead(old(p.nodes), p.nodes, id)
              && (name == "style" ==> p.nodes[id].end == old(p.nodes)[id].end)
              && (name != "style" && r.Ok? ==> p.nodes[id].end == p.index)
              && BodyOutcome(p.template, p.host.decode, old(p.nodes), old(p.index), id, name, r, p.nodes, p.index)
  {
    if selfClosing {
      WithEndKeeps(p.nodes[id], p.index);
      p.SetEnd(id, p.index);
      r := Ok(());
    } else if name == "textarea" {
      r := TextareaBody(p, id);
    } else if name == "script" {
      r := ScriptBody(p, id);
    } else if name == "style" {
      r := StyleBody(p, id);
    } else {
      p.PushStack(id);
      r := Ok(());
    }
  }

  /** The state `s` after the start tag of the element `id`, just added
      to the arena of `s0`, was closed: `/` may follow, and `>` must; a
      self-closing or void element ends after `>`, a `<textarea>`,
      `<script>` or `<style>` reads its body, and any other element is
      opened. */
  ghost predicate StartTagClosed(t: string, host: Host, s0: ParserState, id: NodeId, name: string,
                                 r: Result<()>, s: ParserState)
  {
    && id < |s0.nodes| && s.js == s0.js && s.css == s0.css
    && var slash := StartsWithAt(t, s0.index, "/");
       var j := if slash then s0.index + 1 else s0.index;
       if !StartsWithAt(t, j, ">") then
         && r == Err(MissingError(t, j, ExpectedGreaterMessage))
         && s.index == j && s.nodes == s0.nodes && s.stack == s0.stack
       else if slash || host.isVoid(name) then
         && r == Ok(()) && s.index == j + 1 && s.stack == s0.stack
         && s.nodes == s0.nodes[id := WithEnd(s0.nodes[id], j + 1)]
       else if RawTextName(name) then
         && s.stack == s0.stack
         && BodyOutcome(t, host.decode, s0.nodes, j + 1, id, name, r, s.nodes, s.index)
       else
         && r == Ok(()) && s.index == j + 1 && s.stack == s0.stack + [id]
         && s.nodes == s0.nodes
  }

  /** The state `s` after the element called `name`, starting at `start`,
      was placed from the state `s0`: it joins the children of the open
      node with end 0, and then its start tag is closed. */
  ghost predicate Placed(t: string, host: Host, s0: ParserState, start: nat, kind: ElementKind, name: string,
                         attrs: seq<Attr>, r: Result<()>, s: ParserState)
  {
    && 0 < |s0.stack| && s0.stack[|s0.stack| - 1] < |s0.nodes|
    && var top := s0.stack[|s0.stack| - 1];
       && (s0.nodes[top].Fragment? || s0.nodes[top].Element?)
       && var ns1 := AppendChild(s0.nodes, top, Element(kind, start, 0, name, attrs, []));
          StartTagClosed(t, host, s0.(nodes := ns1), |s0.nodes|, name, r, s)
  }

  /** Lines 118 to 149 of `tag`, for the element `id` just added: `/>`
      or a void name makes it self-closing; `>` is required; then its
      body, if any, is read. */
  method CloseStartTag(p: Parser, id: NodeId, name: string) returns (r: Result<()>)
    requires p.Valid() && id == |p.nodes| - 1 && p.nodes[id].Element? && p.nodes[id].children == []
    requires forall k :: 0 <= k < |p.stack| ==> p.stack[k] < id
    modifies p`index, p`nodes, p`stack
    ensures p.Valid() && old(p.index) <= p.index
    ensures id < |p.nodes| && p.nodes[..id] == old(p.nodes)[..id]
    ensures var n, n0 := p.nodes[id], old(p.nodes)[id];
            && n.Element? && n.kind == n0.kind && n.start == n0.start && n.name == n0.name
            && n.attributes == n0.attributes
    ensures StartTagClosed(p.template, p.host, old(p.Snapshot()), id, name, r, p.Snapshot())
  {
    var slash := p.Eat("/", false, None);
    var selfClosing := slash == Ok(true) || p.host.isVoid(name);
    var _ :- p.Eat(">", true, None);
    r := FinishElement(p, id, name, selfClosing);
  }

  /** Lines 116 to 149 of `tag`: the element joins the children of the
      open node, and then its start tag is closed. */
  method PlaceElement(p: Parser, start: nat, kind: ElementKind, name: string, attrs: seq<Attr>)
    returns (r: Result<()>)
    requires p.Valid()
    modifies p`index, p`nodes, p`stack
    ensures p.Valid() && old(p.index) <= p.index
    ensures var id := |old(p.nodes)|;
            && id < |p.nodes| && p.nodes[..id] == AppendChild(old(p.nodes), old(p.Current()), p.nodes[id])[..id]
            && p.nodes[id].Element? && p.nodes[id].kind == kind && p.nodes[id].start == start
            && p.nodes[id].name == name && p.nodes[id].attributes == attrs
    ensures Placed(p.template, p.host, old(p.Snapshot()), start, kind, name, attrs, r, p.Snapshot())
  {
    var parent := p.Current();
    var id := p.AppendToCurrent(Element(kind, start, 0, name, attrs, []));
    ghost var ns := p.nodes;
    r := CloseStartTag(p, id, name);
    assert p.nodes[..id] == ns[..id];
  }

  /** What a recording step produced, read off the list it appends to:
      the appended item on success, the error otherwise. */
  function Recorded<T>(r: Result<()>, before: seq<T>, after: seq<T>): Result<T>
    requires r.Ok? ==> |before| < |after|
  {
    if r.Ok? then Ok(after[|before|]) else Err(r.error)
  }

  /** A top-level `<script>`: its content, parsed, is added to the
      template's scripts. */
  method RecordScript(p: Parser, start: nat, attrs: seq<Attr>) returns (r: Result<()>)
    requires p.Valid()
    modifies p`index, p`js
    ensures p.Valid() && old(p.index) <= p.index
    ensures r.Err? ==> p.js == old(p.js)
    ensures r.Ok? ==> |p.js| == |old(p.js)| + 1 && p.js[..|old(p.js)|] == old(p.js)
    ensures (Recorded(r, old(p.js), p.js), p.index) == Scripts.ScriptOutcome(p.template, p.host, old(p.index), start)
  {
    var script :- Scripts.ParseScript(p, start, attrs);
    p.PushJs(script);
    r := Ok(());
  }

  /** A top-level `<style>`: its content, parsed, is added to the
      template's stylesheets. */
  method RecordStyle(p: Parser, start: nat, attrs: seq<Attr>) returns (r: Result<()>)
    requires p.Valid()
    modifies p`index, p`css
    ensures p.Valid() && old(p.index) <= p.index
    ensures r.Err? ==> p.css == old(p.css)
    ensures r.Ok? ==> |p.css| == |old(p.css)| + 1 && p.css[..|old(p.css)|] == old(p.css)
    ensures (Recorded(r, old(p.css), p.css), p.index) == Styles.StyleOutcome(p.template, p.host, old(p.index), start, attrs)
  {
    var style :- Styles.ParseStyle(p, start, attrs);
    p.PushCss(style);
    r := Ok(());
  }

  /** The state `s` after a top-level `<script>` or `<style>` starting
      at `start`, with its attributes read, from the state `s0`: `>` is
      required; the tree and the stack are untouched; after `>` the
      content is parsed as `ScriptOutcome` or `StyleOutcome` gives, and
      the script or stylesheet it gives is recorded, or its error is the
      tag's with nothing recorded. */
  ghost predicate SpecialRead(t: string, host: Host, s0: ParserState, start: nat, name: string, attrs: seq<Attr>,
                              r: Result<()>, s: ParserState)
  {
    && s.nodes == s0.nodes && s.stack == s0.stack && s0.index <= s.index
    && (!StartsWithAt(t, s0.index, ">") ==>
          && r == Err(MissingError(t, s0.index, ExpectedGreaterMessage))
          && s.index == s0.index && s.js == s0.js && s.css == s0.css)
    && (name == "script" ==>
          && s.css == s0.css
          && (r.Err? ==> s.js == s0.js)
          && (r.Ok? ==> |s.js| == |s0.js| + 1 && s.js[..|s0.js|] == s0.js)
          && (StartsWithAt(t, s0.index, ">") ==>
                (Recorded(r, s0.js, s.js), s.index) == Scripts.ScriptOutcome(t, host, s0.index + 1, start)))
    && (name == "style" ==>
          && s.js == s0.js
          && (r.Err? ==> s.css == s0.css)
          && (r.Ok? ==> |s.css| == |s0.css| + 1 && s.css[..|s0.css|] == s0.css)
          && (StartsWithAt(t, s0.index, ">") ==>
                (Recorded(r, s0.css, s.css), s.index) == Styles.StyleOutcome(t, host, s0.index + 1, start, attrs)))
  }

  /** Lines 101 to 114 of `tag`: a `<script>` or `<style>` at the top
      level is not a node of the tree.  After a required `>` its content
      is parsed and recorded as the template's script or stylesheet. */
  method ReadSpecial(p: Parser, start: nat, name: string, attrs: seq<Attr>) returns (r: Result<()>)
    requires p.Valid() && (name == "script" || name == "style")
    modifies p`index, p`js, p`css
    ensures p.Valid()
    ensures SpecialRead(p.template, p.host, old(p.Snapshot()), start, name, attrs, r, p.Snapshot())
  {
    var _ :- p.Eat(">", true, None);
    if name == "script" {
      r := RecordScript(p, start, attrs);
    } else {
      r := RecordStyle(p, start, attrs);
    }
  }

  /** A top-level `<script>` or `<style>`: one of those names with only
      the root open. */
  predicate Special(name: string, stack: seq<NodeId>) {
    (name == "script" || name == "style") && |stack| == 1
  }

  /** The state `s` after the attributes and the rest of the opening
      part of a tag called `name`, of kind `kind`, starting at `start`,
      were read from the state `s0`: an error in the attributes is the
      tag's; then comes a top-level `<script>` or `<style>`, or an
      element placed in the tree. */
  ghost predicate OpeningRead(t: string, host: Host, s0: ParserState, start: nat, kind: ElementKind, name: string,
                              r: Result<()>, s: ParserState)
  {
    && s0.index <= |t|
    && var scan := ScanAttributes(t, s0.index, {}, host.decode);
       if scan.stop.Err? then
         && r == Err(scan.stop.error)
         && s.nodes == s0.nodes && s.stack == s0.stack && s.js == s0.js && s.css == s0.css
       else
         var s1 := s0.(index := scan.at);
         if Special(name, s0.stack) then SpecialRead(t, host, s1, start, name, scan.attrs, r, s)
         else Placed(t, host, s1, start, kind, name, scan.attrs, r, s)
  }

  /** The state `s` after the opening part of a tag, from the state `s0`:
      the implicit close, and then the attributes and the rest. */
  ghost predicate OpenOutcome(t: string, host: Host, s0: ParserState, start: nat, kind: ElementKind, name: string,
                              r: Result<()>, s: ParserState)
  {
    && 0 < |s0.stack| && s0.stack[|s0.stack| - 1] < |s0.nodes|
    && var closed := ImplicitlyClosed(host, s0.nodes, s0.stack, start, name);
       OpeningRead(t, host, s0.(nodes := closed.0, stack := closed.1), start, kind, name, r, s)
  }

  /** Lines 101 to 149 of `tag`, once the attributes are read. */
  method AfterAttributes(p: Parser, start: nat, kind: ElementKind, name: string, attrs: seq<Attr>)
    returns (r: Result<()>)
    requires p.Valid()
    modifies p`index, p`nodes, p`stack, p`js, p`css
    ensures p.Valid() && old(p.index) <= p.index
    ensures old(p.js) <= p.js && old(p.css) <= p.css && |old(p.nodes)| <= |p.nodes|
    ensures |p.js| + |p.css| <= |old(p.js)| + |old(p.css)| + 1
    ensures |p.js| + |p.css| > |old(p.js)| + |old(p.css)| ==>
              r.Ok? && |p.nodes| == |old(p.nodes)| && |p.stack| == 1 && (name == "script" || name == "style")
    ensures |p.nodes| > |old(p.nodes)| ==>
              var n := p.nodes[|old(p.nodes)|];
              n.Element? && n.kind == kind && n.start == start && n.name == name && n.attributes == attrs
    ensures Special(name, old(p.stack)) ==>
              SpecialRead(p.template, p.host, old(p.Snapshot()), start, name, attrs, r, p.Snapshot())
    ensures !Special(name, old(p.stack)) ==>
              Placed(p.template, p.host, old(p.Snapshot()), start, kind, name, attrs, r, p.Snapshot())
  {
    if Special(name, p.stack) {
      r := ReadSpecial(p, start, name, attrs);
    } else {
      r := PlaceElement(p, start, kind, name, attrs);
    }
  }

  /** Lines 93 to 149 of `tag`: the attributes, and then the rest.  A
      new node has attributes whose keys are all distinct. */
  method ReadOpening(p: Parser, start: nat, kind: ElementKind, name: string) returns (r: Result<()>)
    requires p.Valid()
    modifies p`index, p`nodes, p`stack, p`js, p`css
    ensures p.Valid() && old(p.index) <= p.index
    ensures old(p.js) <= p.js && old(p.css) <= p.css && |old(p.nodes)| <= |p.nodes|
    ensures |p.js| + |p.css| <= |old(p.js)| + |old(p.css)| + 1
    ensures |p.js| + |p.css| > |old(p.js)| + |old(p.css)| ==>
              r.Ok? && |p.nodes| == |old(p.nodes)| && |p.stack| == 1 && (name == "script" || name == "style")
    ensures |p.nodes| > |old(p.nodes)| ==>
              var n := p.nodes[|old(p.nodes)|];
              && n.Element? && n.kind == kind && n.start == start && n.name == name
              && UniqueKeys(n.attributes)
    ensures OpeningRead(p.template, p.host, old(p.Snapshot()), start, kind, name, r, p.Snapshot())
  {
    var attrs :- ReadAttributes(p);
    ScanAttributesKeys(p.template, old(p.index), {}, p.host.decode);
    r := AfterAttributes(p, start, kind, name, attrs);
  }

  /** The opening-tag part of `tag` (lines 88 to 149): the implicit close,
      the attributes, and then either a top-level `<script>` or `<style>`
      or an element placed in the tree.  At most one script or
      stylesheet is recorded, and only for those two names; a new node is
      the element itself, with attributes whose keys are all distinct. */
  method OpenTag(p: Parser, start: nat, kind: ElementKind, name: string) returns (r: Result<()>)
    requires p.Valid()
    modifies p`index, p`nodes, p`stack, p`js, p`css
    ensures p.Valid() && old(p.index) <= p.index
    ensures old(p.js) <= p.js && old(p.css) <= p.css && |old(p.nodes)| <= |p.nodes|
    ensures |p.js| + |p.css| <= |old(p.js)| + |old(p.css)| + 1
    ensures |p.js| + |p.css| > |old(p.js)| + |old(p.css)| ==>
              r.Ok? && |p.nodes| == |old(p.nodes)| && |p.stack| == 1 && (name == "script" || name == "style")
    ensures |p.nodes| > |old(p.nodes)| ==>
              var n := p.nodes[|old(p.nodes)|];
              && n.Element? && n.kind == kind && n.start == start && n.name == name
              && UniqueKeys(n.attributes)
    ensures OpenOutcome(p.template, p.host, old(p.Snapshot()), start, kind, name, r, p.Snapshot())
  {
    ImplicitClose(p, start, name);
    r := ReadOpening(p, start, kind, name);
  }

  /** The state `s` after the rest of a tag called `name`, starting at
      `start`, once its name is read, from the state `s0`: whitespace,
      and then the closing part, or the opening part of an element whose
      kind the name decides. */
  ghost predicate AfterNameOutcome(t: string, host: Host, customElement: bool, s0: ParserState, start: nat,
                                   name: string, closing: bool, r: Result<()>, s: ParserState)
  {
    && s0.index <= |t|
    && var s1 := s0.(index := SkipSpaces(t, s0.index));
       if closing then CloseOutcome(t, host, s1, start, name, r, s)
       else OpenOutcome(t, host, s1, start, TagKind(name, customElement), name, r, s)
  }

  /** The rest of a tag once its name is read. */
  method TagAfterName(p: Parser, start: nat, name: string, closing: bool) returns (r: Result<()>)
    requires p.Valid()
    modifies p`index, p`nodes, p`stack, p`js, p`css
    ensures p.Valid() && old(p.index) <= p.index
    ensures old(p.js) <= p.js && old(p.css) <= p.css && |old(p.nodes)| <= |p.nodes|
    ensures closing ==> p.js == old(p.js) && p.css == old(p.css) && |p.nodes| == |old(p.nodes)|
    ensures AfterNameOutcome(p.template, p.host, p.customElement, old(p.Snapshot()), start, name, closing,
                             r, p.Snapshot())
  {
    var kind := TagKind(name, p.customElement);
    p.AllowWhitespace();
    ghost var js0, css0, n0 := p.js, p.css, |p.nodes|;
    if closing {
      r := CloseTag(p, start, name);
      assert p.js == js0 && p.css == css0 && |p.nodes| == n0;
    } else {
      r := OpenTag(p, start, kind, name);
      assert js0 <= p.js && css0 <= p.css && n0 <= |p.nodes|;
    }
  }

  /** The state `s` after a tag starting at `start` that is not a
      comment, read after its `<` from the state `s0`: an optional `/`;
      the name, up to whitespace, `/` or `>`, which must be a valid tag
      name, or else `invalid-tag-name` at its start; and then the rest. */
  ghost predicate NamedOutcome(t: string, host: Host, customElement: bool, s0: ParserState, start: nat,
                               r: Result<()>, s: ParserState)
  {
    && s0.index <= |t|
    && var slash := StartsWithAt(t, s0.index, "/");
       var n0 := if slash then s0.index + 1 else s0.index;
       var m := UntilPos(t, n0, TagNameEnd);
       var name := t[n0..m];
       if !ValidTagName(name) then
         && r == Err(ParseError(InvalidTagName, InvalidTagNameMessage, n0))
         && s == s0.(index := m)
       else
         AfterNameOutcome(t, host, customElement, s0.(index := m), start, name, slash, r, s)
  }

  /** A tag after its `<`, when it is not a comment.  A closing tag adds
      no node and records no script or stylesheet. */
  method NamedTag(p: Parser, start: nat) returns (r: Result<()>)
    requires p.Valid()
    modifies p`index, p`nodes, p`stack, p`js, p`css
    ensures p.Valid() && old(p.index) <= p.index
    ensures old(p.js) <= p.js && old(p.css) <= p.css && |old(p.nodes)| <= |p.nodes|
    ensures StartsWithAt(p.template, old(p.index), "/") ==>
              p.js == old(p.js) && p.css == old(p.css) && |p.nodes| == |old(p.nodes)|
    ensures NamedOutcome(p.template, p.host, p.customElement, old(p.Snapshot()), start, r, p.Snapshot())
  {
    var slash := p.Eat("/", false, None);
    var name :- ReadTagName(p);
    r := TagAfterName(p, start, name, slash == Ok(true));
  }

  /** `tag(parser)`, entered at a `<`: a comment, a closing tag or an
      opening tag.  It always consumes input, keeps the parser's
      invariant, only adds to the script and stylesheet lists and never
      removes nodes.  A comment becomes a `Comment` child of the open
      node holding the text between `<!--` and the first `-->`, and a
      missing `-->` is an error at the end of the text; a closing tag
      adds no node and records no script or stylesheet; any other tag is
      read as a named tag after its `<`. */
  method Tag(p: Parser) returns (r: Result<()>)
    requires p.Valid() && p.index < |p.template|
    modifies p`index, p`nodes, p`stack, p`js, p`css
    ensures p.Valid() && old(p.index) < p.index
    ensures old(p.js) <= p.js && old(p.css) <= p.css && |old(p.nodes)| <= |p.nodes|
    ensures StartsWithAt(p.template, old(p.index) + 1, "!--") ==>
              && p.stack == old(p.stack) && p.js == old(p.js) && p.css == old(p.css)
              && CommentRead(p.template, old(p.nodes), old(p.Current()), old(p.index) + 4, old(p.index),
                             r, p.index, p.nodes)
    ensures !StartsWithAt(p.template, old(p.index) + 1, "!--") && StartsWithAt(p.template, old(p.index) + 1, "/") ==>
              p.js == old(p.js) && p.css == old(p.css) && |p.nodes| == |old(p.nodes)|
    ensures !StartsWithAt(p.template, old(p.index) + 1, "!--") ==>
              NamedOutcome(p.template, p.host, p.customElement, old(p.Snapshot()).(index := old(p.index) + 1),
                           old(p.index), r, p.Snapshot())
  {
    var start := p.IncrementIndex();
    var comment := p.Eat("!--", false, None);
    if comment == Ok(true) {
      r := ReadComment(p, start);
      return;
    }
    r := NamedTag(p, start);
  }
}
