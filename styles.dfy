/** The glue of src/compiler/parser/parse/styles.ts around the stylesheet
    parser: the body of a top-level `<style>` runs to the first
    `</style>`; the stylesheet parser's failures become diagnostics; the
    closing tag is required. */
module Styles {
  import opened Contracts
  import opened Patterns
  import opened Cursor

  const StyleClosingTag: string := "</style>"

  /** The outcome of `parseStyle` entered with the cursor at `i`: its
      result, and the cursor after it.  The body runs from `i` to the
      first `</style>` or the end of input.  A CSS syntax error is
      `css-syntax-error` at the offset the stylesheet parser gives, an
      empty declaration `invalid-declaration` at the body's end, both with
      the cursor there.  Otherwise the closing tag must follow: the Style
      spans `start` to just past it, or its absence is `unexpected-eof` at
      the end of input. */
  function StyleOutcome(t: string, host: Host, i: nat, start: nat, attributes: seq<Attr>): (o: (Result<Style>, nat))
    requires i <= |t|
    ensures i <= o.1 <= |t|
    ensures o.0.Ok? ==> o.0.value.start == start && o.0.value.end == o.1 && o.0.value.attributes == attributes
  {
    var contentEnd := UntilPos(t, i, Lit(StyleClosingTag));
    var styles := t[i..contentEnd];
    match host.parseStylesheet(styles, i)
    case CssFailed(message, offset) => (Err(ParseError(CssSyntaxError, message, offset)), contentEnd)
    case EmptyDeclaration =>
      (Err(ParseError(InvalidDeclaration, "Declaration cannot be empty", contentEnd)), contentEnd)
    case ParsedStylesheet(children) =>
      if contentEnd < |t| then
        var idx := contentEnd + |StyleClosingTag|;
        (Ok(Style(start, idx, attributes, children, StyleContent(i, contentEnd, styles))), idx)
      else
        (Err(ParseError(UnexpectedEof, "Expected " + StyleClosingTag, |t|)), |t|)
  }

  /** `parseStyle(parser, start, attributes)`.  The body is the text from
      the cursor to the first `</style>` (or the end of input).  A CSS
      syntax error is reported at the offset the stylesheet parser gives.
      An empty declaration is reported at the end of the body: the walk
      reads the declaration's `start` before it sets it, so `error` falls
      back to the cursor.  Otherwise the closing tag must follow the body;
      when it is missing the body ran to the end of input, so the error is
      `unexpected-eof` there.  The Style node spans `start` to just past
      the closing tag and records where the body lies. */
  method ParseStyle(p: Parser, start: nat, attributes: seq<Attr>) returns (r: Result<Style>)
    requires p.Valid()
    modifies p`index
    ensures p.Valid()
    ensures (r, p.index) == StyleOutcome(p.template, p.host, old(p.index), start, attributes)
    ensures old(p.index) <= p.index
    ensures r.Ok? ==> && r.value.start == start && r.value.end == p.index && r.value.attributes == attributes
                      && p.template[r.value.content.end..p.index] == StyleClosingTag
  {
    var contentStart := p.index;
    var styles := p.ReadUntil(Lit(StyleClosingTag));
    var contentEnd := p.index;
    match p.host.parseStylesheet(styles, contentStart)
    case CssFailed(message, offset) =>
      r := Err(ParseError(CssSyntaxError, message, offset));
    case EmptyDeclaration =>
      r := Err(p.Error(InvalidDeclaration, "Declaration cannot be empty"));
    case ParsedStylesheet(children) =>
      var _ :- p.Eat(StyleClosingTag, true, None);
      r := Ok(Style(start, p.index, attributes, children, StyleContent(contentStart, contentEnd, styles)));
  }
}
