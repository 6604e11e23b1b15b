/** src/compiler/parser/parse/scripts.ts: the body of a top-level
    `<script>` is handed to the script parser, padded with spaces so that
    the offsets the script parser reports are offsets into the template. */
module Scripts {
  import opened Contracts
  import opened Patterns
  import opened Cursor

  const ScriptClosingTag: string := "</script>"

  /** `' '.repeat(start) + template.slice(start, end)`. */
  function PaddedSource(t: string, start: nat, end: nat): (src: string)
    requires start <= end <= |t|
    ensures |src| == end
    ensures forall k :: 0 <= k < start ==> src[k] == ' '
    ensures forall k :: start <= k < end ==> src[k] == t[k]
  {
    seq(start, _ => ' ') + t[start..end]
  }

  /** The padding keeps every offset: the padded source of the whole
      script body is the template up to the closing tag with everything
      before the body blanked out, so it agrees with the template on the
      body and is blank before it. */
  lemma PaddedSourceBlanksPrefix(t: string, start: nat, end: nat)
    requires start <= end <= |t|
    ensures PaddedSource(t, start, end)[start..] == t[start..end]
    ensures PaddedSource(t, start, end)[..start] == seq(start, _ => ' ')
  {
  }

  /** The outcome of `parseScript` entered with the cursor at `i`: its
      result, and the cursor after it.  With no `</script>` at or after
      `i`, `unclosed-script` at `i` and the cursor unmoved.  Otherwise the
      cursor is just past the first `</script>`, and the padded body is
      given to the script parser: its failure is a `parse-error` at the
      position it reports, its program a Script from `start` to the
      cursor, in the default context, whose program starts where the body
      does. */
  function ScriptOutcome(t: string, host: Host, i: nat, start: nat): (o: (Result<Script>, nat))
    requires i <= |t|
    ensures i <= o.1 <= |t|
    ensures o.0.Ok? ==> o.0.value.start == start && o.0.value.end == o.1
  {
    match Exec(t, i, Lit(ScriptClosingTag))
    case None =>
      (Err(ParseError(UnclosedScript, "Expected closing '" + ScriptClosingTag + "' tag.", i)), i)
    case Some(close) =>
      var idx := close + |ScriptClosingTag|;
      match host.parseProgram(PaddedSource(t, i, close))
      case ProgramFailed(err) => (Err(ParseError(ParseErrorCode, StripLocation(err.message), err.pos)), idx)
      case ParsedProgram(ast) => (Ok(Script(start, idx, "default", ast.(start := i))), idx)
  }

  /** `parseScript(parser, start, attributes)`: find the first
      `</script>` at or after the cursor.  With none, `unclosed-script` at
      the cursor.  Otherwise move the cursor past it and parse the padded
      body; a script parser error becomes an internal parser error (the
      cursor has already moved), and a program becomes a Script node
      spanning `start` to the new cursor whose program starts where the
      body does. */
  method ParseScript(p: Parser, start: nat, attributes: seq<Attr>) returns (r: Result<Script>)
    requires p.Valid()
    modifies p`index
    ensures p.Valid()
    ensures (r, p.index) == ScriptOutcome(p.template, p.host, old(p.index), start)
    ensures old(p.index) <= p.index
    ensures r.Ok? ==> r.value.start == start
    ensures r.Ok? ==> && old(p.index) + |ScriptClosingTag| <= p.index == r.value.end
                      && p.template[p.index - |ScriptClosingTag|..p.index] == ScriptClosingTag
                      && forall j :: old(p.index) <= j < p.index - |ScriptClosingTag| ==>
                           !StartsWithAt(p.template, j, ScriptClosingTag)
  {
    var scriptStart := p.index;
    var scriptEnd := Exec(p.template, scriptStart, Lit(ScriptClosingTag));
    if scriptEnd.None? {
      return Err(p.Error(UnclosedScript, "Expected closing '" + ScriptClosingTag + "' tag."));
    }
    forall j | scriptStart <= j < scriptEnd.value
      ensures !StartsWithAt(p.template, j, ScriptClosingTag)
    {
      assert !MatchesAt(p.template, j, Lit(ScriptClosingTag));
    }
    var source := PaddedSource(p.template, scriptStart, scriptEnd.value);
    p.SetIndex(scriptEnd.value + |ScriptClosingTag|);
    match p.host.parseProgram(source)
    case ProgramFailed(err) =>
      r := Err(p.InternalParserError(err));
    case ParsedProgram(ast) =>
      r := Ok(Script(start, p.index, "default", ast.(start := scriptStart)));
  }
}
