/** The attribute loop of `tag` in src/compiler/parser/nodes/tag.ts,
    as a function of the text: `readAttribute` again and again, each
    attribute followed by optional whitespace, until no name starts. */
module AttributeScans {
  import opened Contracts
  import opened Patterns
  import opened TagNames
  import opened TagAttributes

  /** What the loop reads: the attributes in order, the offset `at` where
      it stopped (where no name starts, or where the attribute that failed
      starts), and whether it stopped there normally or on an error. */
  datatype AttributeScan = AttributeScan(attrs: seq<Attr>, at: nat, stop: Result<()>)

  /** The loop from `i`, with the keys `seen` already recorded. */
  function ScanAttributes(t: string, i: nat, seen: set<string>, decode: string -> string): (s: AttributeScan)
    requires i <= |t|
    ensures i <= s.at <= |t|
    decreases |t| - i
  {
    match AttributeAt(t, i, seen, decode)
    case Err(e) => AttributeScan([], i, Err(e))
    case Ok(None) => AttributeScan([], i, Ok(()))
    case Ok(Some((a, seen', cursor))) =>
      var rest := ScanAttributes(t, SkipSpaces(t, cursor), seen', decode);
      AttributeScan([a] + rest.attrs, rest.at, rest.stop)
  }

  /** One step of the scan: what `AttributeAt` reads decides it. */
  lemma ScanAttributesStep(t: string, i: nat, seen: set<string>, decode: string -> string)
    requires i <= |t|
    ensures var at, s := AttributeAt(t, i, seen, decode), ScanAttributes(t, i, seen, decode);
            && (at.Err? ==> s == AttributeScan([], i, Err(at.error)))
            && (at.Ok? && at.value.None? ==> s == AttributeScan([], i, Ok(())))
            && (at.Ok? && at.value.Some? ==>
                  var (a, seen', cursor) := at.value.value;
                  var rest := ScanAttributes(t, SkipSpaces(t, cursor), seen', decode);
                  s == AttributeScan([a] + rest.attrs, rest.at, rest.stop))
  {
  }

  /** The keys of `[a] + rest` are the key of `a` and those of `rest`. */
  lemma {:induction false} KeysOfPrepend(a: Attr, rest: seq<Attr>)
    ensures KeysOf([a] + rest) == Record(KeysOf(rest), AttrKey(a))
    decreases |rest|
  {
    if |rest| > 0 {
      var init := rest[..|rest| - 1];
      KeysOfPrepend(a, init);
      assert ([a] + rest)[..|rest|] == [a] + init;
    }
  }

  /** Recording a key on either side of a union is the same. */
  lemma RecordUnion(seen: set<string>, keys: set<string>, key: Option<string>)
    ensures seen + Record(keys, key) == Record(seen, key) + keys
  {
  }

  /** Every attribute lies between `i` and where the scan stops. */
  ghost predicate Within(t: string, i: nat, s: AttributeScan) {
    && s.at <= |t|
    && forall k :: 0 <= k < |s.attrs| ==> i <= s.attrs[k].start < s.attrs[k].end <= s.at
  }

  /** Every attribute is named by the text from its start up to where
      names stop. */
  ghost predicate NamedByText(t: string, s: AttributeScan) {
    forall k :: 0 <= k < |s.attrs| && s.attrs[k].start <= |t| ==>
      RawName(s.attrs[k]) == t[s.attrs[k].start..UntilPos(t, s.attrs[k].start, AttributeNameEnd)]
  }

  /** The attributes are chained through the text: the first starts at
      `i`, each next one where the whitespace after the previous one ends,
      and the scan stops where the whitespace after the last one ends. */
  ghost predicate Chained(t: string, i: nat, s: AttributeScan)
    requires Within(t, i, s)
  {
    && (|s.attrs| == 0 ==> s.at == i)
    && (|s.attrs| > 0 ==>
          && s.attrs[0].start == i
          && s.at == SkipSpaces(t, s.attrs[|s.attrs| - 1].end))
    && forall k :: 0 < k < |s.attrs| ==> s.attrs[k].start == SkipSpaces(t, s.attrs[k - 1].end)
  }

  /** No two attributes share a key, and none has a key in `seen`. */
  ghost predicate FreshKeys(s: AttributeScan, seen: set<string>) {
    && UniqueKeys(s.attrs)
    && forall k :: 0 <= k < |s.attrs| && AttrKey(s.attrs[k]).Some? ==> AttrKey(s.attrs[k]).value !in seen
  }

  /** The scan's attributes lie between where it starts and where it
      stops. */
  lemma {:induction false} ScanAttributesWithin(t: string, i: nat, seen: set<string>, decode: string -> string)
    requires i <= |t|
    ensures Within(t, i, ScanAttributes(t, i, seen, decode))
    decreases |t| - i
  {
    match AttributeAt(t, i, seen, decode)
    case Err(_) =>
    case Ok(None) =>
    case Ok(Some((a, seen', cursor))) =>
      AttributeAtShape(t, i, seen, decode);
      var j := SkipSpaces(t, cursor);
      var rest := ScanAttributes(t, j, seen', decode);
      ScanAttributesWithin(t, j, seen', decode);
      var s := AttributeScan([a] + rest.attrs, rest.at, rest.stop);
      assert ScanAttributes(t, i, seen, decode) == s;
      forall k | 0 <= k < |s.attrs|
        ensures i <= s.attrs[k].start < s.attrs[k].end <= s.at
      {
        if k > 0 {
          assert s.attrs[k] == rest.attrs[k - 1];
        }
      }
  }

  /** Each of the scan's attributes is named by the text at its start. */
  lemma {:induction false} ScanAttributesNamed(t: string, i: nat, seen: set<string>, decode: string -> string)
    requires i <= |t|
    ensures NamedByText(t, ScanAttributes(t, i, seen, decode))
    decreases |t| - i
  {
    match AttributeAt(t, i, seen, decode)
    case Err(_) =>
    case Ok(None) =>
    case Ok(Some((a, seen', cursor))) =>
      AttributeAtShape(t, i, seen, decode);
      var j := SkipSpaces(t, cursor);
      var rest := ScanAttributes(t, j, seen', decode);
      ScanAttributesNamed(t, j, seen', decode);
      var s := AttributeScan([a] + rest.attrs, rest.at, rest.stop);
      assert ScanAttributes(t, i, seen, decode) == s;
      forall k | 0 < k < |s.attrs|
        ensures s.attrs[k] == rest.attrs[k - 1]
      {
      }
  }

  /** The scan's attributes are chained through the text from where it
      starts to where it stops. */
  lemma {:induction false} ScanAttributesChain(t: string, i: nat, seen: set<string>, decode: string -> string)
    requires i <= |t|
    ensures Within(t, i, ScanAttributes(t, i, seen, decode))
    ensures Chained(t, i, ScanAttributes(t, i, seen, decode))
    decreases |t| - i
  {
    ScanAttributesWithin(t, i, seen, decode);
    match AttributeAt(t, i, seen, decode)
    case Err(_) =>
    case Ok(None) =>
    case Ok(Some((a, seen', cursor))) =>
      AttributeAtShape(t, i, seen, decode);
      var j := SkipSpaces(t, cursor);
      var rest := ScanAttributes(t, j, seen', decode);
      ScanAttributesChain(t, j, seen', decode);
      var s := AttributeScan([a] + rest.attrs, rest.at, rest.stop);
      assert ScanAttributes(t, i, seen, decode) == s;
      forall k | 0 < k < |s.attrs|
        ensures s.attrs[k] == rest.attrs[k - 1]
        ensures s.attrs[k].start == SkipSpaces(t, s.attrs[k - 1].end)
      {
        if k > 1 {
          assert s.attrs[k - 1] == rest.attrs[k - 2];
        }
      }
  }

  /** No two of the scan's attributes share a key, and none has a key
      recorded before the scan started. */
  lemma {:induction false} ScanAttributesKeys(t: string, i: nat, seen: set<string>, decode: string -> string)
    requires i <= |t|
    ensures FreshKeys(ScanAttributes(t, i, seen, decode), seen)
    decreases |t| - i
  {
    match AttributeAt(t, i, seen, decode)
    case Err(_) =>
    case Ok(None) =>
    case Ok(Some((a, seen', cursor))) =>
      AttributeAtShape(t, i, seen, decode);
      var j := SkipSpaces(t, cursor);
      var rest := ScanAttributes(t, j, seen', decode);
      ScanAttributesKeys(t, j, seen', decode);
      var all := [a] + rest.attrs;
      assert ScanAttributes(t, i, seen, decode) == AttributeScan(all, rest.at, rest.stop);
      forall k | 0 < k < |all|
        ensures all[k] == rest.attrs[k - 1]
      {
      }
      forall k, m | 0 <= k < m < |all| && AttrKey(all[k]).Some?
        ensures AttrKey(all[k]) != AttrKey(all[m])
      {
        if k == 0 && AttrKey(all[m]).Some? {
          assert AttrKey(all[m]).value !in seen';
        }
      }
  }

  /** Where the loop stops, reading one more attribute with every key
      recorded so far gives what stopped it: no name, or the error. */
  lemma {:induction false} ScanAttributesStop(t: string, i: nat, seen: set<string>, decode: string -> string)
    requires i <= |t|
    ensures var s := ScanAttributes(t, i, seen, decode);
            AttributeAt(t, s.at, seen + KeysOf(s.attrs), decode)
              == if s.stop.Ok? then Ok(None) else Err(s.stop.error)
    decreases |t| - i
  {
    match AttributeAt(t, i, seen, decode)
    case Err(_) =>
      assert seen + KeysOf([]) == seen;
    case Ok(None) =>
      assert seen + KeysOf([]) == seen;
    case Ok(Some((a, seen', cursor))) =>
      AttributeAtShape(t, i, seen, decode);
      var j := SkipSpaces(t, cursor);
      ScanAttributesStop(t, j, seen', decode);
      var rest := ScanAttributes(t, j, seen', decode);
      KeysOfPrepend(a, rest.attrs);
      RecordUnion(seen, KeysOf(rest.attrs), AttrKey(a));
      assert ScanAttributes(t, i, seen, decode) == AttributeScan([a] + rest.attrs, rest.at, rest.stop);
  }

  /** The loop stops normally exactly where no name starts.  It stops on
      `duplicate-attribute` exactly when the name where it stopped has a
      key recorded before the loop or by an attribute it read, and then
      the error falls at that name's start. */
  lemma ScanAttributesDuplicate(t: string, i: nat, seen: set<string>, decode: string -> string)
    requires i <= |t|
    ensures var s := ScanAttributes(t, i, seen, decode);
            var n := UntilPos(t, s.at, AttributeNameEnd);
            var key := UniqueKey(t[s.at..n]);
            && (s.stop.Ok? <==> n == s.at)
            && (n > s.at && NameValue(t, s.at, decode).Ok? && key.Some? && key.value in seen + KeysOf(s.attrs) ==>
                  s.stop == Err(ParseError(DuplicateAttribute, DuplicateMessage, s.at)))
            && (s.stop.Err? && s.stop.error.code == DuplicateAttribute ==>
                  && s.stop.error.start == s.at
                  && key.Some? && key.value in seen + KeysOf(s.attrs))
  {
    var s := ScanAttributes(t, i, seen, decode);
    ScanAttributesStop(t, i, seen, decode);
    AttributeAtShape(t, s.at, seen + KeysOf(s.attrs), decode);
    AttributeAtDuplicate(t, s.at, seen + KeysOf(s.attrs), decode);
  }
}
