/** src/compiler/parser/nodes/fragment.ts: the state function of the parse
    loop, which picks the handler for the input at the cursor. */
module FragmentDispatch {
  import opened Patterns
  import opened Cursor
  import TextHandler

  /** The two handlers `fragment` can return: `tag` and `text`. */
  datatype Handler = TagState | TextState

  /** `fragment(parser)`: `tag` when a `<` is at the cursor, else `text`. */
  function Fragment(p: Parser): (h: Handler)
    reads p
    requires p.Valid()
    ensures h == TagState <==> p.index < |p.template| && p.template[p.index] == '<'
  {
    assert p.Match("<") <==> p.index < |p.template| && p.template[p.index] == '<' by {
      if p.index < |p.template| {
        assert p.template[p.index..p.index + 1] == [p.template[p.index]];
      }
    }
    if p.Match("<") then TagState else TextState
  }

  /** Away from the end of input, the handler chosen always consumes
      input: the text handler is chosen only where at least one character
      of text is waiting, and the tag handler only where the `<` it starts
      from is. */
  lemma DispatchProgress(p: Parser)
    requires p.Valid() && p.index < |p.template|
    ensures Fragment(p) == TextState ==> TextHandler.TextEnd(p.template, p.index) > p.index
    ensures Fragment(p) == TagState ==> p.template[p.index] == '<'
  {
    if Fragment(p) == TextState {
      TextHandler.TextEndEmpty(p.template, p.index);
    }
  }
}
