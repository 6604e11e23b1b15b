/** The attribute readers of src/compiler/parser/nodes/tag.ts:
    `readSequence`, `readAttributeValue` and `readAttribute`. */
module TagAttributes {
  import opened Contracts
  import opened Patterns
  import opened Cursor
  import opened TagNames

  const EofMessage: string := "Unexpected end of file"
  const ExpectedEqualsMessage: string := "Expected '='"
  const DuplicateMessage: string := "Attributes defined on an element need to be unique"
  const DirectiveValueMessage: string := "Directive value must be a JavaScript expression enclosed in curly braces"

  /** `/[\s=\/>"']/`: where an attribute name stops. */
  const AttributeNameEnd: Pattern := OneOf(CharClass(true, "=/>\"'"))

  /** `/["']/` */
  const QuoteMark: Pattern := OneOf(CharClass(false, "\"'"))

  /** `/(\/>|[\s"'=<>`])/`: where an unquoted value stops. */
  const UnquotedValueEnd: Pattern := Alt(Lit("/>"), OneOf(CharClass(true, "\"'=<>`")))

  /** The chunk list `readSequence` returns for the text between `i` and
      `k`: nothing when it is empty, else one Text node holding the raw
      slice and its decoding. */
  function Chunk(t: string, i: nat, k: nat, decode: string -> string): (chunks: seq<TemplateNode>)
    requires i <= k <= |t|
    ensures |chunks| <= 1
    ensures |chunks| == 1 <==> i < k
    ensures forall v :: v in chunks ==> IsChunkOf(t, v, decode)
  {
    if i == k then [] else [TemplateNode.Text(i, k, Some(t[i..k]), decode(t[i..k]))]
  }

  /** A chunk is a decoded slice of the template lying where it was read. */
  ghost predicate IsChunkOf(t: string, v: TemplateNode, decode: string -> string) {
    && v.Text? && v.start < v.end <= |t| && v.raw == Some(t[v.start..v.end])
    && v.data == decode(v.raw.value)
  }

  /** `readSequence(parser, done)`: consume characters until `done` holds
      at the cursor.  The characters read so far form at most one chunk.
      Reaching the end of input first is `unexpected-eof`. */
  method ReadSequence(p: Parser, done: Pattern) returns (r: Result<seq<TemplateNode>>)
    requires p.Valid()
    modifies p`index
    ensures p.Valid()
    ensures var k := UntilPos(p.template, old(p.index), done);
            && (k < |p.template| ==> p.index == k && r == Ok(Chunk(p.template, old(p.index), k, p.host.decode)))
            && (k == |p.template| ==>
                  p.index == k && r == Err(ParseError(UnexpectedEof, EofMessage, k)))
  {
    var start := p.index;
    var raw := "";
    while p.index < |p.template|
      invariant p.Valid()
      invariant start <= p.index <= UntilPos(p.template, start, done)
      invariant raw == p.template[start..p.index]
      modifies p`index
      decreases |p.template| - p.index
    {
      if p.MatchRegex(done).Some? {
        if raw != "" {
          return Ok([TemplateNode.Text(start, p.index, Some(raw), p.host.decode(raw))]);
        }
        return Ok([]);
      }
      var i := p.IncrementIndex();
      raw := raw + [p.template[i]];
    }
    r := Err(p.Error(UnexpectedEof, EofMessage));
  }

  /** The quote that opens a value at `i`: `'` first, then `"`, else none. */
  function OpeningQuote(t: string, i: nat): (q: string)
    ensures q == "'" || q == "\"" || q == ""
    ensures q != "" ==> StartsWithAt(t, i, q)
  {
    if StartsWithAt(t, i, "'") then "'" else if StartsWithAt(t, i, "\"") then "\"" else ""
  }

  /** What ends a value opened by `q`: the same quote, or for an unquoted
      value `/>`, whitespace or one of the characters `"'=<>` and backtick. */
  function ValueEnd(q: string): Pattern {
    if q == "'" then Lit("'") else if q == "\"" then Lit("\"") else UnquotedValueEnd
  }

  /** `parser.eat("'") ? "'" : parser.eat('"') ? '"' : null`: step over
      an opening quote, if any, and say which. */
  method EatQuote(p: Parser) returns (q: string)
    requires p.Valid()
    modifies p`index
    ensures p.Valid()
    ensures q == OpeningQuote(p.template, old(p.index)) && p.index == old(p.index) + |q|
  {
    var single := p.Eat("'", false, None);
    if single == Ok(true) {
      return "'";
    }
    var double := p.Eat("\"", false, None);
    q := if double == Ok(true) then "\"" else "";
  }

  /** What `readAttributeValue` reads at `i`: the offset just past the
      value and past its closing quote, if it has one, with the value's
      chunks; or `unexpected-eof`. */
  function ValueAt(t: string, i: nat, decode: string -> string): (r: Result<(nat, seq<TemplateNode>)>)
    requires i <= |t|
    ensures r.Ok? ==> i <= r.value.0 <= |t|
  {
    var q := OpeningQuote(t, i);
    var from := i + |q|;
    var k := UntilPos(t, from, ValueEnd(q));
    if k == |t| then Err(ParseError(UnexpectedEof, EofMessage, k))
    else Ok((k + |q|, Chunk(t, from, k, decode)))
  }

  /** A value opened by a quote runs to the same quote, which is stepped
      over; an unquoted one runs to `/>`, whitespace or one of `"'=<>` and
      backtick.  The value is at most one chunk, holding no character that
      ends it.  Reaching the end of input before the value ends is
      `unexpected-eof` there. */
  lemma ValueAtShape(t: string, i: nat, decode: string -> string)
    requires i <= |t|
    ensures var r, q := ValueAt(t, i, decode), OpeningQuote(t, i);
            && (r.Ok? ==>
                  && i + |q| <= r.value.0 <= |t| && |r.value.1| <= 1
                  && (q != "" ==> t[r.value.0 - 1] == q[0])
                  && forall v :: v in r.value.1 ==>
                       && IsChunkOf(t, v, decode) && v.start == i + |q| && v.end == r.value.0 - |q|
                       && forall j :: v.start <= j < v.end ==> !MatchesAt(t, j, ValueEnd(q)))
            && (r.Err? ==> r.error == ParseError(UnexpectedEof, EofMessage, |t|))
  {
    var q := OpeningQuote(t, i);
    var from := i + |q|;
    var k := UntilPos(t, from, ValueEnd(q));
    if k < |t| {
      var chunks := Chunk(t, from, k, decode);
      assert ValueAt(t, i, decode) == Ok((k + |q|, chunks));
      if q != "" {
        assert MatchesAt(t, k, Lit(q));
      }
      forall v | v in chunks
        ensures v.start == from && v.end == k
      {
        assert chunks == [TemplateNode.Text(from, k, Some(t[from..k]), decode(t[from..k]))];
      }
    }
  }

  /** `readAttributeValue(parser)`: skip an opening quote, read the chunks
      up to what ends the value and step over a closing quote, as
      `ValueAt` describes. */
  method ReadAttributeValue(p: Parser) returns (r: Result<seq<TemplateNode>>)
    requires p.Valid()
    modifies p`index
    ensures p.Valid() && old(p.index) <= p.index
    ensures var v := ValueAt(p.template, old(p.index), p.host.decode);
            && (v.Ok? ==> r == Ok(v.value.1) && p.index == v.value.0)
            && (v.Err? ==> r == Err(v.error))
  {
    ghost var t, i := p.template, p.index;
    var q := EatQuote(p);
    ghost var k := UntilPos(t, i + |q|, ValueEnd(q));
    assert ValueAt(t, i, p.host.decode)
        == if k == |t| then Err(ParseError(UnexpectedEof, EofMessage, k))
           else Ok((k + |q|, Chunk(t, i + |q|, k, p.host.decode)));
    var value :- ReadSequence(p, ValueEnd(q));
    if q != "" {
      var _ := p.IncrementIndex();
    }
    r := Ok(value);
  }

  /** `checkUnique(key)`: a key seen before is `duplicate-attribute` at the
      attribute's start; otherwise it is recorded. */
  function CheckUnique(seen: set<string>, key: string, start: nat): (r: Result<set<string>>)
    ensures r.Err? <==> key in seen
    ensures r.Err? ==> r.error == ParseError(DuplicateAttribute, DuplicateMessage, start)
    ensures r.Ok? ==> r.value == seen + {key}
  {
    if key in seen then Err(ParseError(DuplicateAttribute, DuplicateMessage, start))
    else Ok(seen + {key})
  }

  /** The keys `seen` after recording `key`, if any. */
  function Record(seen: set<string>, key: Option<string>): set<string> {
    match key
    case Some(k) => seen + {k}
    case None => seen
  }

  /** What the cursor part of `readAttribute` reads: the name, where the
      attribute ends and its value chunks. */
  datatype RawAttribute = RawAttribute(name: string, end: nat, value: seq<TemplateNode>)

  /** What the cursor part of `readAttribute` reads once a name ends at
      `n`: whitespace; then, after `=` and more whitespace, the value, with
      which the attribute ends.  Otherwise the attribute ends with its
      name, and a quote where `=` should be is `unexpected-token` at the
      quote.  The cursor stops where the attribute ends, or after the
      whitespace when it has no value. */
  function AfterName(t: string, i: nat, n: nat, decode: string -> string): (r: Result<Option<(RawAttribute, nat)>>)
    requires i <= n <= |t|
    ensures r.Ok? ==> r.value.Some? && r.value.value.1 <= |t|
  {
    var w := SkipSpaces(t, n);
    if StartsWithAt(t, w, "=") then
      var v := ValueAt(t, SkipSpaces(t, w + 1), decode);
      if v.Err? then Err(v.error)
      else Ok(Some((RawAttribute(t[i..n], v.value.0, v.value.1), v.value.0)))
    else if MatchesAt(t, w, QuoteMark) then
      Err(ParseError(UnexpectedToken, ExpectedEqualsMessage, w))
    else
      Ok(Some((RawAttribute(t[i..n], n, []), w)))
  }

  /** What the cursor part of `readAttribute` reads at `i`: the name up to
      whitespace, `=`, `/`, `>` or a quote, and what follows it.  An
      empty name reads nothing. */
  function NameValue(t: string, i: nat, decode: string -> string): (r: Result<Option<(RawAttribute, nat)>>)
    requires i <= |t|
    ensures r.Ok? && r.value.Some? ==> r.value.value.1 <= |t|
  {
    var n := UntilPos(t, i, AttributeNameEnd);
    if n == i then Ok(None) else AfterName(t, i, n, decode)
  }

  /** Once a name ends at `n`, the attribute is named by the text from
      `i` to `n`, ends no earlier than `n` and no later than the cursor,
      which only whitespace separates from the end; its value is at most
      one chunk.  The only errors are `unexpected-token` and
      `unexpected-eof`. */
  lemma AfterNameShape(t: string, i: nat, n: nat, decode: string -> string)
    requires i < n <= |t|
    ensures var r := AfterName(t, i, n, decode);
            && (r.Ok? ==>
                  var (ra, cursor) := r.value.value;
                  && ra.name == t[i..n] && n <= ra.end <= cursor <= |t|
                  && SkipSpaces(t, cursor) == SkipSpaces(t, ra.end)
                  && |ra.value| <= 1 && forall v :: v in ra.value ==> IsChunkOf(t, v, decode))
            && (r.Err? ==> r.error.code == UnexpectedToken || r.error.code == UnexpectedEof)
  {
    var w := SkipSpaces(t, n);
    if StartsWithAt(t, w, "=") {
      var j := SkipSpaces(t, w + 1);
      ValueAtShape(t, j, decode);
    } else {
      SkipSpacesIdempotent(t, n);
    }
  }

  /** No attribute exactly when no name starts at `i`.  An attribute is
      named by the text up to where names stop, ends after it and no later
      than the cursor, which only whitespace separates from the end; its
      value is at most one chunk.  The only errors are `unexpected-token`
      and `unexpected-eof`. */
  lemma NameValueShape(t: string, i: nat, decode: string -> string)
    requires i <= |t|
    ensures var r, n := NameValue(t, i, decode), UntilPos(t, i, AttributeNameEnd);
            && (r.Ok? && r.value.None? <==> n == i)
            && (r.Ok? && r.value.Some? ==>
                  var (ra, cursor) := r.value.value;
                  && ra.name == t[i..n] && i < n <= ra.end <= cursor <= |t|
                  && SkipSpaces(t, cursor) == SkipSpaces(t, ra.end)
                  && |ra.value| <= 1 && forall v :: v in ra.value ==> IsChunkOf(t, v, decode))
            && (r.Err? ==> r.error.code == UnexpectedToken || r.error.code == UnexpectedEof)
  {
    var n := UntilPos(t, i, AttributeNameEnd);
    if n > i {
      AfterNameShape(t, i, n, decode);
    }
  }

  /** The value branch of `readAttribute`, after its `=`: whitespace,
      then the value `ValueAt` describes, with which the attribute called
      `name` ends. */
  method ReadValueAfterEquals(p: Parser, name: string) returns (r: Result<Option<(RawAttribute, nat)>>)
    requires p.Valid()
    modifies p`index
    ensures p.Valid() && old(p.index) <= p.index
    ensures var v := ValueAt(p.template, SkipSpaces(p.template, old(p.index)), p.host.decode);
            && (v.Err? ==> r == Err(v.error))
            && (v.Ok? ==> r == Ok(Some((RawAttribute(name, v.value.0, v.value.1), v.value.0))) && p.index == v.value.0)
  {
    p.AllowWhitespace();
    var value :- ReadAttributeValue(p);
    r := Ok(Some((RawAttribute(name, p.index, value), p.index)));
  }

  /** `parser.allowWhitespace(); parser.eat('=')`: skip whitespace, then
      step over an `=` if one follows it. */
  method SkipToEquals(p: Parser) returns (eq: bool)
    requires p.Valid()
    modifies p`index
    ensures p.Valid()
    ensures var w := SkipSpaces(p.template, old(p.index));
            && eq == StartsWithAt(p.template, w, "=")
            && p.index == if eq then w + 1 else w
  {
    p.AllowWhitespace();
    var r := p.Eat("=", false, None);
    eq := r == Ok(true);
  }

  /** The part of `readAttribute` after a name that ends at the cursor,
      which reads what `AfterName` describes. */
  method ReadAfterName(p: Parser, i: nat, name: string) returns (r: Result<Option<(RawAttribute, nat)>>)
    requires p.Valid() && i <= p.index && name == p.template[i..p.index]
    modifies p`index
    ensures p.Valid() && old(p.index) <= p.index
    ensures var t, n := p.template, old(p.index);
            var w := SkipSpaces(t, n);
            && (StartsWithAt(t, w, "=") ==>
                  var v := ValueAt(t, SkipSpaces(t, w + 1), p.host.decode);
                  && (v.Err? ==> r == Err(v.error))
                  && (v.Ok? ==> r == Ok(Some((RawAttribute(name, v.value.0, v.value.1), v.value.0))) && p.index == v.value.0))
            && (!StartsWithAt(t, w, "=") && MatchesAt(t, w, QuoteMark) ==>
                  r == Err(ParseError(UnexpectedToken, ExpectedEqualsMessage, w)))
            && (!StartsWithAt(t, w, "=") && !MatchesAt(t, w, QuoteMark) ==>
                  r == Ok(Some((RawAttribute(name, n, []), w))) && p.index == w)
  {
    var end := p.index;
    var eq := SkipToEquals(p);
    if eq {
      r := ReadValueAfterEquals(p, name);
    } else if p.MatchRegex(QuoteMark).Some? {
      r := Err(p.Error(UnexpectedToken, ExpectedEqualsMessage));
    } else {
      r := Ok(Some((RawAttribute(name, end, []), p.index)));
    }
  }

  /** The cursor part of `readAttribute`, which reads what `NameValue`
      describes. */
  method ReadNameValue(p: Parser) returns (r: Result<Option<RawAttribute>>)
    requires p.Valid()
    modifies p`index
    ensures p.Valid() && old(p.index) <= p.index
    ensures var h := NameValue(p.template, old(p.index), p.host.decode);
            && (h.Ok? && h.value.None? ==> r == Ok(None) && p.index == old(p.index))
            && (h.Ok? && h.value.Some? ==> r == Ok(Some(h.value.value.0)) && p.index == h.value.value.1)
            && (h.Err? ==> r == Err(h.error))
  {
    var start := p.index;
    var name := p.ReadUntil(AttributeNameEnd);
    if name == "" {
      return Ok(None);
    }
    assert NameValue(p.template, start, p.host.decode) == AfterName(p.template, start, p.index, p.host.decode);
    var head := ReadAfterName(p, start, name);
    if head.Err? {
      return Err(head.error);
    }
    r := Ok(Some(head.value.value.0));
  }

  /** The directive branch of `readAttribute`: the key is checked first,
      then any value is `invalid-directive-value` at its start; `bind:`
      and `class:` get an identifier naming their target, starting just
      after the colon. */
  function BuildDirective(name: string, d: DirectiveType, target: string, modifiers: seq<string>,
                          start: nat, end: nat, value: seq<TemplateNode>, seen: set<string>)
    : (r: Result<(Attr, set<string>)>)
    requires name == Spell(d, target, modifiers)
    ensures var key := DirectiveKey(d, target, name);
            && (key.Some? && key.value in seen ==> r == Err(ParseError(DuplicateAttribute, DuplicateMessage, start)))
            && (r.Err? && r.error.code != DuplicateAttribute ==>
                  value != [] && r.error == ParseError(InvalidDirectiveValue, DirectiveValueMessage, value[0].start))
            && (r.Ok? ==>
                  && value == []
                  && (key.Some? ==> key.value !in seen)
                  && r.value.1 == Record(seen, key)
                  && var a := r.value.0;
                     && a.Directive? && a.start == start && a.end == end
                     && a.dtype == d && a.name == target && a.modifiers == modifiers
                     && AttrKey(a) == key
                     && a.expression == (if d == Binding || d.Class?
                                         then Some(Identifier(start + |DirectivePrefix(d)| + 1, end, target))
                                         else None))
  {
    var seen' :-
      if d == Binding && target != "this" then CheckUnique(seen, target, start)
      else if d != EventHandler then CheckUnique(seen, name, start)
      else Ok(seen);
    if |value| > 0 then
      Err(ParseError(InvalidDirectiveValue, DirectiveValueMessage, value[0].start))
    else
      var expression :=
        if d == Binding || d.Class? then Some(Identifier(start + |DirectivePrefix(d)| + 1, end, target)) else None;
      Ok((Directive(start, end, d, target, modifiers, expression), seen'))
  }

  /** The rest of `readAttribute`, once the name, end and value are known.
      A name with a directive prefix becomes a directive: its key is
      checked first, then any value is `invalid-directive-value` at the
      value's start, and `bind:` and `class:` get an identifier naming
      their target that starts just after the colon.  Any other name
      becomes a plain attribute keyed by the whole name.  A key seen
      before is `duplicate-attribute`; the key is recorded. */
  function BuildAttribute(name: string, start: nat, end: nat, value: seq<TemplateNode>, seen: set<string>)
    : (r: Result<(Attr, set<string>)>)
    requires forall v :: v in value ==> v.Text?
    ensures r.Ok? ==>
              var (a, seen') := r.value;
              && a.start == start && a.end == end
              && RawName(a) == name
              && (a.Directive? <==> Classify(name).DirectiveName?)
              && AttrKey(a) == UniqueKey(name)
              && seen' == Record(seen, AttrKey(a))
              && (AttrKey(a).Some? ==> AttrKey(a).value !in seen)
              && (a.Attribute? ==> a.value == value)
              && (a.Directive? ==>
                    && value == []
                    && a.expression == (if a.dtype == Binding || a.dtype.Class?
                                        then Some(Identifier(start + |DirectivePrefix(a.dtype)| + 1, end, a.name))
                                        else None))
    ensures UniqueKey(name).Some? && UniqueKey(name).value in seen ==>
              r == Err(ParseError(DuplicateAttribute, DuplicateMessage, start))
    ensures r.Err? && r.error.code != DuplicateAttribute ==>
              && Classify(name).DirectiveName? && value != []
              && r.error == ParseError(InvalidDirectiveValue,
                                       DirectiveValueMessage,
                                       value[0].start)
  {
    ClassifyDirective(name);
    match Classify(name)
    case DirectiveName(d, colon, target, modifiers) =>
      BuildDirective(name, d, target, modifiers, start, end, value, seen)
    case PlainName =>
      var seen' :- CheckUnique(seen, name, start);
      Ok((Attribute(start, end, name, value), seen'))
  }

  /** What `readAttribute` reads at `i` when the keys `seen` are already
      recorded: no attribute when no name starts there; otherwise the
      attribute `BuildAttribute` makes of the name and value `NameValue`
      reads, the keys recorded after it, and where the cursor stops. */
  function AttributeAt(t: string, i: nat, seen: set<string>, decode: string -> string)
    : (r: Result<Option<(Attr, set<string>, nat)>>)
    requires i <= |t|
    ensures r.Ok? && r.value.Some? ==> i < r.value.value.2 <= |t|
  {
    NameValueShape(t, i, decode);
    var head :- NameValue(t, i, decode);
    if head.None? then Ok(None)
    else
      var (ra, cursor) := head.value;
      var built :- BuildAttribute(ra.name, i, ra.end, ra.value, seen);
      Ok(Some((built.0, built.1, cursor)))
  }

  /** The attribute read at `i` starts there, is named by the text up to
      where names stop, and is keyed as that name is; its key was not seen
      and is now recorded. */
  lemma AttributeAtShape(t: string, i: nat, seen: set<string>, decode: string -> string)
    requires i <= |t|
    ensures var r, n := AttributeAt(t, i, seen, decode), UntilPos(t, i, AttributeNameEnd);
            var name := t[i..n];
            && (r.Ok? && r.value.None? <==> n == i)
            && (r.Ok? && r.value.Some? ==>
                  var (a, seen', cursor) := r.value.value;
                  && a.start == i && i < n <= a.end <= cursor <= |t|
                  && SkipSpaces(t, cursor) == SkipSpaces(t, a.end)
                  && RawName(a) == name && AttrKey(a) == UniqueKey(name)
                  && (a.Directive? <==> Classify(name).DirectiveName?)
                  && (AttrKey(a).Some? ==> AttrKey(a).value !in seen)
                  && seen' == Record(seen, AttrKey(a))
                  && (a.Attribute? ==> |a.value| <= 1 && forall v :: v in a.value ==> IsChunkOf(t, v, decode)))
  {
    var h := NameValue(t, i, decode);
    NameValueShape(t, i, decode);
    if h.Ok? && h.value.Some? {
      var (ra, cursor) := h.value.value;
      var b := BuildAttribute(ra.name, i, ra.end, ra.value, seen);
      assert AttributeAt(t, i, seen, decode) == if b.Err? then Err(b.error) else Ok(Some((b.value.0, b.value.1, cursor)));
    }
  }

  /** A name whose key was seen is `duplicate-attribute` at `i`, and that
      error means nothing else. */
  lemma AttributeAtDuplicate(t: string, i: nat, seen: set<string>, decode: string -> string)
    requires i <= |t|
    ensures var r, n := AttributeAt(t, i, seen, decode), UntilPos(t, i, AttributeNameEnd);
            var key := UniqueKey(t[i..n]);
            && (n > i && NameValue(t, i, decode).Ok? && key.Some? && key.value in seen ==>
                  r == Err(ParseError(DuplicateAttribute, DuplicateMessage, i)))
            && (r.Err? && r.error.code == DuplicateAttribute ==>
                  n > i && key.Some? && key.value in seen && r.error.start == i)
  {
    NameValueShape(t, i, decode);
  }

  /** `readAttribute(parser, uniqueNames)`, which reads what `AttributeAt`
      describes. */
  method ReadAttribute(p: Parser, seen: set<string>) returns (r: Result<Option<Attr>>, seen': set<string>)
    requires p.Valid()
    modifies p`index
    ensures p.Valid() && old(p.index) <= p.index
    ensures var at := AttributeAt(p.template, old(p.index), seen, p.host.decode);
            && (at.Ok? && at.value.None? ==> r == Ok(None) && seen' == seen && p.index == old(p.index))
            && (at.Ok? && at.value.Some? ==>
                  r == Ok(Some(at.value.value.0)) && seen' == at.value.value.1 && p.index == at.value.value.2)
            && (at.Err? ==> r == Err(at.error))
  {
    seen' := seen;
    var start := p.index;
    var head :- ReadNameValue(p);
    if head.None? {
      return Ok(None), seen;
    }
    var built :- BuildAttribute(head.value.name, start, head.value.end, head.value.value, seen);
    r, seen' := Ok(Some(built.0)), built.1;
  }
}
