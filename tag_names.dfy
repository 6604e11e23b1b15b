/** The pure decisions of src/compiler/parser/nodes/tag.ts: which tag
    names are valid, which node type a name opens, how an attribute name
    splits into a directive, and the key under which an attribute is
    checked for uniqueness. */
module TagNames {
  import opened Contracts
  import Patterns
  import opened Strings

  /** `[a-zA-Z0-9\-]` */
  predicate IsNameChar(c: char) {
    Patterns.IsAsciiLetter(c) || Patterns.IsAsciiDigit(c) || c == '-'
  }

  predicate LettersBetween(s: string, i: nat, j: nat)
    requires i <= j <= |s|
  {
    forall k :: i <= k < j ==> Patterns.IsAsciiLetter(s[k])
  }

  predicate NameCharsFrom(s: string, i: nat)
    requires i <= |s|
  {
    forall k :: i <= k < |s| ==> IsNameChar(s[k])
  }

  /** `s` splits as `!?` (the first `i` characters), `[a-zA-Z]{1,}` (up
      to `j`), then `:?[a-zA-Z0-9\-]*` (the rest). */
  ghost predicate TagNameSplit(s: string, i: nat, j: nat) {
    && i <= 1 && i < j <= |s|
    && (i == 1 ==> s[0] == '!')
    && LettersBetween(s, i, j)
    && (NameCharsFrom(s, j) || (j < |s| && s[j] == ':' && NameCharsFrom(s, j + 1)))
  }

  /** `s` is in the language of `\!?[a-zA-Z]{1,}:?[a-zA-Z0-9\-]*`. */
  ghost predicate InTagNameLanguage(s: string) {
    exists i: nat, j: nat :: TagNameSplit(s, i, j)
  }

  /** `valid_tag_name.test(name)`: the pattern is anchored only at the
      start, so it holds when some prefix of the name is in the language. */
  ghost predicate ValidTagName(name: string) {
    exists k :: 0 <= k <= |name| && InTagNameLanguage(name[..k])
  }

  /** The test the tag handler performs: a letter first, or `!` and then a letter. */
  predicate StartsTagName(name: string) {
    || (|name| > 0 && Patterns.IsAsciiLetter(name[0]))
    || (|name| > 1 && name[0] == '!' && Patterns.IsAsciiLetter(name[1]))
  }

  /** Because nothing anchors the end of the pattern, a name is valid
      exactly when it starts like one; whatever follows is not checked. */
  lemma ValidTagNameIff(name: string)
    ensures ValidTagName(name) <==> StartsTagName(name)
  {
    if StartsTagName(name) {
      var i := if Patterns.IsAsciiLetter(name[0]) then 0 else 1;
      var s := name[..i + 1];
      assert TagNameSplit(s, i, i + 1);
      assert InTagNameLanguage(s);
    }
    if ValidTagName(name) {
      var k :| 0 <= k <= |name| && InTagNameLanguage(name[..k]);
      var s := name[..k];
      var i: nat, j: nat :| TagNameSplit(s, i, j);
      assert Patterns.IsAsciiLetter(s[i]);
      assert s[i] == name[i];
    }
  }

  /** The node type a name opens: a component when it starts with an
      ASCII capital, a slot for `slot` outside a custom element, else an
      element. */
  function TagKind(name: string, customElement: bool): (k: ElementKind)
    ensures k == InlineComponent <==> |name| > 0 && Patterns.IsAsciiUpper(name[0])
    ensures k == Slot <==> !(|name| > 0 && Patterns.IsAsciiUpper(name[0])) && name == "slot" && !customElement
    ensures k == PlainElement <==> !(|name| > 0 && Patterns.IsAsciiUpper(name[0])) && (name != "slot" || customElement)
  {
    if |name| > 0 && Patterns.IsAsciiUpper(name[0]) then InlineComponent
    else if name == "slot" && !customElement then Slot
    else PlainElement
  }

  /** The prefix that introduces each directive type. */
  function DirectivePrefix(d: DirectiveType): string {
    match d
    case Action => "use"
    case Binding => "bind"
    case Class => "class"
    case EventHandler => "on"
    case Let => "let"
  }

  /** `getDirectiveType(prefix)`. */
  function DirectiveTypeOf(prefix: string): (d: Option<DirectiveType>) {
    if prefix == "use" then Some(Action)
    else if prefix == "bind" then Some(Binding)
    else if prefix == "class" then Some(Class)
    else if prefix == "on" then Some(EventHandler)
    else if prefix == "let" then Some(Let)
    else None
  }

  /** The five prefixes and the five directive types correspond one to one. */
  lemma DirectiveTypeOfIff(prefix: string, d: DirectiveType)
    ensures DirectiveTypeOf(prefix) == Some(d) <==> prefix == DirectivePrefix(d)
  {
  }

  lemma NoColonInPrefix(d: DirectiveType)
    ensures ':' !in DirectivePrefix(d) && '|' !in DirectivePrefix(d)
  {
  }

  /** How the attribute reader sees a name: plain, or `prefix:target|m1|m2…`
      with the offset of the first colon. */
  datatype NameHead =
    | PlainName
    | DirectiveName(dtype: DirectiveType, colon: nat, target: string, modifiers: seq<string>)

  /** The directive name as written: `prefix:target|m1|…`. */
  function Spell(d: DirectiveType, target: string, modifiers: seq<string>): string {
    DirectivePrefix(d) + ":" + Join([target] + modifiers, '|')
  }

  /** `name` starts with `prefix:` for the directive type `d`. */
  predicate HasPrefix(name: string, d: DirectiveType) {
    |DirectivePrefix(d)| < |name| && name[..|DirectivePrefix(d)| + 1] == DirectivePrefix(d) + ":"
  }

  /** The prefix contains no colon, so its colon is the first one in the name. */
  lemma PrefixDetermined(name: string, d: DirectiveType)
    ensures HasPrefix(name, d) ==>
              IndexOf(name, ':') == |DirectivePrefix(d)| && name[..|DirectivePrefix(d)|] == DirectivePrefix(d)
  {
    var pre := DirectivePrefix(d);
    if HasPrefix(name, d) {
      assert name[..|pre|] == name[..|pre| + 1][..|pre|] == pre;
      assert name[|pre|] == name[..|pre| + 1][|pre|] == ':';
      NoColonInPrefix(d);
    }
  }

  /** `name.indexOf(':')`, `getDirectiveType(name.slice(0, colon))` and
      `name.slice(colon + 1).split('|')`. */
  function Classify(name: string): NameHead {
    var c := IndexOf(name, ':');
    if c == -1 then
      PlainName
    else
      match DirectiveTypeOf(name[..c])
      case None => PlainName
      case Some(d) =>
        var parts := Split(name[c + 1..], '|');
        DirectiveName(d, c, parts[0], parts[1..])
  }

  /** A name classified as a directive is spelled back exactly from its
      parts, none of which contains the separator. */
  lemma ClassifyDirective(name: string)
    ensures var h := Classify(name);
            h.DirectiveName? ==>
              && h.colon == |DirectivePrefix(h.dtype)|
              && name == Spell(h.dtype, h.target, h.modifiers)
              && '|' !in h.target
              && (forall k :: 0 <= k < |h.modifiers| ==> '|' !in h.modifiers[k])
  {
    var c := IndexOf(name, ':');
    if c != -1 && DirectiveTypeOf(name[..c]).Some? {
      var d := DirectiveTypeOf(name[..c]).value;
      var rest := name[c + 1..];
      var parts := Split(rest, '|');
      DirectiveTypeOfIff(name[..c], d);
      JoinSplit(rest, '|');
      assert [parts[0]] + parts[1..] == parts;
      assert Spell(d, parts[0], parts[1..]) == name[..c] + ":" + rest;
      Around(name, c);
      forall k | 0 <= k < |parts[1..]|
        ensures '|' !in parts[1..][k]
      {
        assert parts[1..][k] == parts[k + 1];
      }
    }
  }

  /** A name classified as plain does not start with any directive prefix and colon. */
  lemma ClassifyPlain(name: string)
    ensures Classify(name).PlainName? ==> forall d: DirectiveType :: !HasPrefix(name, d)
  {
    forall d: DirectiveType
      ensures HasPrefix(name, d) ==> IndexOf(name, ':') == |DirectivePrefix(d)| && name[..|DirectivePrefix(d)|] == DirectivePrefix(d)
    {
      PrefixDetermined(name, d);
    }
    forall d: DirectiveType ensures HasPrefix(name, d) ==> DirectiveTypeOf(DirectivePrefix(d)) == Some(d) {
      DirectiveTypeOfIff(DirectivePrefix(d), d);
    }
  }

  /** Spelling a directive and classifying it again gives back its parts. */
  lemma ClassifySpell(d: DirectiveType, target: string, modifiers: seq<string>)
    requires '|' !in target && forall k :: 0 <= k < |modifiers| ==> '|' !in modifiers[k]
    ensures Classify(Spell(d, target, modifiers)) == DirectiveName(d, |DirectivePrefix(d)|, target, modifiers)
  {
    var pre := DirectivePrefix(d);
    var parts := [target] + modifiers;
    forall k | 0 <= k < |parts| ensures '|' !in parts[k] {
      if k > 0 { assert parts[k] == modifiers[k - 1]; }
    }
    NoColonInPrefix(d);
    IndexOfJoined(pre, ':', Join(parts, '|'));
    DirectiveTypeOfIff(pre, d);
    SplitJoin(parts, '|');
    assert parts[1..] == modifiers;
  }

  /** The name a directive or attribute was read from. */
  function RawName(a: Attr): string {
    match a
    case Attribute(_, _, name, _) => name
    case Directive(_, _, d, target, modifiers, _) => Spell(d, target, modifiers)
  }

  /** The key of a directive: its target for a binding other than
      `bind:this`, nothing for an event handler, its whole name otherwise. */
  function DirectiveKey(d: DirectiveType, target: string, name: string): Option<string> {
    if d == Binding && target != "this" then Some(target)
    else if d != EventHandler then Some(name)
    else None
  }

  /** The key `checkUnique` records for a name: a plain name is its own key. */
  function UniqueKey(name: string): Option<string> {
    match Classify(name)
    case PlainName => Some(name)
    case DirectiveName(d, _, target, _) => DirectiveKey(d, target, name)
  }

  /** The key an attribute was recorded under. */
  function AttrKey(a: Attr): Option<string> {
    match a
    case Attribute(_, _, name, _) => Some(name)
    case Directive(_, _, d, target, modifiers, _) => DirectiveKey(d, target, Spell(d, target, modifiers))
  }

  /** The key of a directive is the key of the name it is spelled from. */
  lemma DirectiveKeyOfName(a: Attr)
    requires a.Directive?
    requires '|' !in a.name && forall k :: 0 <= k < |a.modifiers| ==> '|' !in a.modifiers[k]
    ensures AttrKey(a) == UniqueKey(RawName(a))
  {
    ClassifySpell(a.dtype, a.name, a.modifiers);
  }

  /** A binding is keyed by its target whatever its modifiers, so
      `bind:value` collides with a plain `value` attribute and with
      another `bind:value|m`. */
  lemma BindingKey(target: string, modifiers: seq<string>)
    requires '|' !in target && target != "this"
    requires forall k :: 0 <= k < |modifiers| ==> '|' !in modifiers[k]
    ensures UniqueKey(Spell(Binding, target, modifiers)) == Some(target)
    ensures ':' !in target ==> UniqueKey(target) == Some(target)
  {
    ClassifySpell(Binding, target, modifiers);
    if ':' !in target {
      assert IndexOf(target, ':') == -1;
    }
  }

  /** Event handlers are never recorded, so any number of `on:` directives may repeat. */
  lemma EventHandlerUnkeyed(target: string, modifiers: seq<string>)
    requires '|' !in target && forall k :: 0 <= k < |modifiers| ==> '|' !in modifiers[k]
    ensures UniqueKey(Spell(EventHandler, target, modifiers)) == None
  {
    ClassifySpell(EventHandler, target, modifiers);
  }

  /** The keys recorded for a list of attributes. */
  function KeysOf(attrs: seq<Attr>): set<string> {
    if |attrs| == 0 then {}
    else
      var rest := KeysOf(attrs[..|attrs| - 1]);
      match AttrKey(attrs[|attrs| - 1])
      case Some(k) => rest + {k}
      case None => rest
  }

  /** Every key of a listed attribute is recorded, and nothing else is. */
  lemma {:induction false} KeysOfMember(attrs: seq<Attr>, key: string)
    ensures key in KeysOf(attrs) <==> exists i :: 0 <= i < |attrs| && AttrKey(attrs[i]) == Some(key)
    decreases |attrs|
  {
    if |attrs| > 0 {
      var init := attrs[..|attrs| - 1];
      KeysOfMember(init, key);
      assert forall i :: 0 <= i < |init| ==> init[i] == attrs[i];
      if key in KeysOf(attrs) && AttrKey(attrs[|attrs| - 1]) != Some(key) {
        var i :| 0 <= i < |init| && AttrKey(init[i]) == Some(key);
        assert AttrKey(attrs[i]) == Some(key);
      }
    }
  }

  /** No two attributes of one element share a key. */
  ghost predicate UniqueKeys(attrs: seq<Attr>) {
    forall i, j :: 0 <= i < j < |attrs| && AttrKey(attrs[i]).Some? ==> AttrKey(attrs[i]) != AttrKey(attrs[j])
  }

  /** Adding an attribute whose key is not yet recorded keeps the keys
      unique and records its key. */
  lemma UniqueKeysExtend(attrs: seq<Attr>, a: Attr)
    requires UniqueKeys(attrs)
    requires AttrKey(a).Some? ==> AttrKey(a).value !in KeysOf(attrs)
    ensures UniqueKeys(attrs + [a])
    ensures KeysOf(attrs + [a]) == (match AttrKey(a) case Some(k) => KeysOf(attrs) + {k} case None => KeysOf(attrs))
  {
    var all := attrs + [a];
    assert all[..|attrs|] == attrs;
    forall i | 0 <= i < |attrs| && AttrKey(attrs[i]).Some?
      ensures AttrKey(attrs[i]) != AttrKey(a)
    {
      KeysOfMember(attrs, AttrKey(attrs[i]).value);
    }
    assert forall i :: 0 <= i < |attrs| ==> all[i] == attrs[i];
  }
}
