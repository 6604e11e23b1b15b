/** The regular expressions of the parser, replaced by the three shapes they
    take: a literal, a one-character bracket class, and an alternation of
    the two.  `Exec` is `RegExp.prototype.exec` on `template.slice(from)`:
    it finds the leftmost offset at which the pattern matches. */
module Patterns {
  import opened Contracts

  /** JavaScript's `\s`: the ECMAScript WhiteSpace and LineTerminator characters. */
  predicate IsJsSpace(c: char) {
    || c == ' ' || c == '\t' || c == '\n' || c == '\U{000B}' || c == '\U{000C}' || c == '\r'
    || c == '\U{00A0}' || c == '\U{1680}' || ('\U{2000}' <= c <= '\U{200A}')
    || c == '\U{2028}' || c == '\U{2029}' || c == '\U{202F}' || c == '\U{205F}'
    || c == '\U{3000}' || c == '\U{FEFF}'
  }

  /** The class `[ \t\r\n]` that allow_whitespace and require_whitespace test. */
  predicate IsHtmlSpace(c: char) {
    c == ' ' || c == '\t' || c == '\r' || c == '\n'
  }

  predicate IsAsciiLetter(c: char) {
    'a' <= c <= 'z' || 'A' <= c <= 'Z'
  }

  predicate IsAsciiUpper(c: char) {
    'A' <= c <= 'Z'
  }

  predicate IsAsciiDigit(c: char) {
    '0' <= c <= '9'
  }

  /** A bracket class: `\s` when `space` holds, plus the listed characters. */
  datatype CharClass = CharClass(space: bool, chars: string)

  predicate InClass(c: char, cls: CharClass) {
    (cls.space && IsJsSpace(c)) || c in cls.chars
  }

  datatype Pattern =
    | Lit(text: string)
    | OneOf(cls: CharClass)
    | Alt(left: Pattern, right: Pattern)

  /** Whether `s` occurs in `t` at offset `i`. */
  predicate StartsWithAt(t: string, i: nat, s: string) {
    i + |s| <= |t| && t[i..i + |s|] == s
  }

  /** The length of the match of `p` that starts exactly at `i`, trying the
      alternatives of an `Alt` from left to right as a backtracking matcher
      does. */
  function MatchLength(t: string, i: nat, p: Pattern): (r: Option<nat>)
    requires i <= |t|
    ensures r.Some? ==> i + r.value <= |t|
    ensures p.Lit? ==> (r.Some? <==> StartsWithAt(t, i, p.text))
    ensures p.OneOf? ==> (r.Some? <==> i < |t| && InClass(t[i], p.cls))
  {
    match p
    case Lit(s) => if StartsWithAt(t, i, s) then Some(|s|) else None
    case OneOf(cls) => if i < |t| && InClass(t[i], cls) then Some(1) else None
    case Alt(l, r) =>
      var m := MatchLength(t, i, l);
      if m.Some? then m else MatchLength(t, i, r)
  }

  predicate MatchesAt(t: string, i: nat, p: Pattern)
    requires i <= |t|
  {
    MatchLength(t, i, p).Some?
  }

  /** The leftmost offset at or after `from` where `p` matches, or `None`. */
  function Exec(t: string, from: nat, p: Pattern): (r: Option<nat>)
    requires from <= |t|
    ensures r.Some? ==> from <= r.value <= |t| && MatchesAt(t, r.value, p)
    ensures forall j :: from <= j <= |t| && (r.None? || j < r.value) ==> !MatchesAt(t, j, p)
    decreases |t| - from
  {
    if MatchesAt(t, from, p) then Some(from)
    else if from == |t| then None
    else Exec(t, from + 1, p)
  }

  /** Where a `readUntil(p)` that starts at `from` stops: the leftmost
      match of `p`, or the end of input when there is none. */
  function UntilPos(t: string, from: nat, p: Pattern): (k: nat)
    requires from <= |t|
    ensures from <= k <= |t|
    ensures k < |t| ==> MatchesAt(t, k, p)
    ensures forall j :: from <= j < k ==> !MatchesAt(t, j, p)
  {
    match Exec(t, from, p)
    case Some(k) => k
    case None => |t|
  }

  /** The end of the maximal run of `[ \t\r\n]` that starts at `i`. */
  function SkipSpaces(t: string, i: nat): (k: nat)
    requires i <= |t|
    ensures i <= k <= |t|
    ensures forall j :: i <= j < k ==> IsHtmlSpace(t[j])
    ensures k == |t| || !IsHtmlSpace(t[k])
    decreases |t| - i
  {
    if i < |t| && IsHtmlSpace(t[i]) then SkipSpaces(t, i + 1) else i
  }

  /** Skipping whitespace a second time consumes nothing. */
  lemma SkipSpacesIdempotent(t: string, i: nat)
    requires i <= |t|
    ensures SkipSpaces(t, SkipSpaces(t, i)) == SkipSpaces(t, i)
  {
  }

  /** The maximal run is the only end that has whitespace before it and none after it. */
  lemma {:induction false} SkipSpacesUnique(t: string, i: nat, k: nat)
    requires i <= k <= |t|
    requires forall j :: i <= j < k ==> IsHtmlSpace(t[j])
    requires k == |t| || !IsHtmlSpace(t[k])
    ensures SkipSpaces(t, i) == k
    decreases k - i
  {
    if i < k {
      SkipSpacesUnique(t, i + 1, k);
    }
  }
}
