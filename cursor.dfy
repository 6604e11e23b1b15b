/** src/compiler/parser/index.ts: the `Parser` cursor.  It holds the
    template, the scan index, the arena of template nodes, the stack of open
    nodes (arena ids, the root Fragment at the bottom) and the top-level
    script and style nodes.  The cursor operations the handlers call but the
    class does not define (`eat`, `readUntil`, `incrementIndex`, `setIndex`,
    `popStack`, `pushJs`, `pushCss`) are given the behaviour their call
    sites rely on; the camel-case names `matchRegex`, `allowWhitespace` and
    `internalParserError` are the snake-case methods of the class. */
module Cursor {
  import opened Contracts
  import opened Patterns

  /** An error raised by the foreign script parser: its message and offset. */
  datatype ForeignError = ForeignError(message: string, pos: int)

  datatype ProgramParse = ParsedProgram(ast: Program) | ProgramFailed(err: ForeignError)

  /** What the foreign stylesheet parser and the walk over its tree report. */
  datatype StylesheetParse =
    | ParsedStylesheet(children: seq<CssNode>)
    | CssFailed(message: string, offset: int)
    | EmptyDeclaration

  /** The collaborators the parser calls whose code is not part of this model:
      `decodeCharacterReferences`, `isVoid` and `closingTagOmitted` from the
      name and entity tables, the script parser, and the stylesheet parser
      together with the walk that rejects empty declarations. */
  datatype Host = Host(
    decode: string -> string,
    isVoid: string -> bool,
    closingTagOmitted: (string, string) -> bool,
    parseProgram: string -> ProgramParse,
    parseStylesheet: (string, nat) -> StylesheetParse)

  /** The arena after adding `child` as a new node, linked as the last child of `parent`. */
  function AppendChild(ns: seq<TemplateNode>, parent: NodeId, child: TemplateNode): (r: seq<TemplateNode>)
    requires parent < |ns| && (ns[parent].Fragment? || ns[parent].Element?)
    ensures |r| == |ns| + 1 && r[|ns|] == child
    ensures r[parent] == ns[parent].(children := ns[parent].children + [|ns|])
    ensures forall id :: 0 <= id < |ns| && id != parent ==> r[id] == ns[id]
  {
    ns[parent := ns[parent].(children := ns[parent].children + [|ns|])] + [child]
  }

  predicate AllDigits(s: string) {
    forall k :: 0 <= k < |s| ==> IsAsciiDigit(s[k])
  }

  /** `\d+:\d+` */
  predicate IsLineColumn(m: string) {
    exists c :: 0 < c < |m| - 1 && m[c] == ':' && AllDigits(m[..c]) && AllDigits(m[c + 1..])
  }

  /** Whether ` (\d+:\d+)` matches at offset `k` and runs to the end of `msg`. */
  predicate LocationSuffixAt(msg: string, k: nat)
    requires k <= |msg|
  {
    |msg| - k >= 6 && msg[k] == ' ' && msg[k + 1] == '(' && msg[|msg| - 1] == ')'
    && IsLineColumn(msg[k + 2..|msg| - 1])
  }

  /** The leftmost offset at or after `k` where the location suffix starts. */
  function FindLocationSuffix(msg: string, k: nat): (r: Option<nat>)
    requires k <= |msg|
    ensures r.Some? ==> k <= r.value <= |msg| && LocationSuffixAt(msg, r.value)
    ensures forall j :: k <= j <= |msg| && (r.None? || j < r.value) ==> !LocationSuffixAt(msg, j)
    decreases |msg| - k
  {
    if LocationSuffixAt(msg, k) then Some(k)
    else if k == |msg| then None
    else FindLocationSuffix(msg, k + 1)
  }

  /** `message.replace(/ \(\d+:\d+\)$/, '')`: drop one trailing `(line:column)`. */
  function StripLocation(msg: string): (r: string)
    ensures r <= msg
    ensures (forall k :: 0 <= k <= |msg| ==> !LocationSuffixAt(msg, k)) ==> r == msg
  {
    match FindLocationSuffix(msg, 0)
    case Some(k) => msg[..k]
    case None => msg
  }

  /** A message that ends in ` (line:column)` loses exactly that suffix. */
  lemma StripAppendedLocation(m: string, line: string, col: string)
    requires |line| > 0 && |col| > 0 && AllDigits(line) && AllDigits(col)
    ensures StripLocation(m + " (" + line + ":" + col + ")") == m
  {
    var msg := m + " (" + line + ":" + col + ")";
    AppendedSuffix(m, line, col);
    forall j | 0 <= j < |m|
      ensures !LocationSuffixAt(msg, j)
    {
      var w := msg[j + 2..|msg| - 1];
      assert w[|m| - j - 1] == msg[|m| + 1];
      NoParenInLineColumn(w, |m| - j - 1);
    }
    StripFirstSuffix(msg, |m|);
    assert msg[..|m|] == m;
  }

  /** The appended ` (line:column)` is a location suffix, and its `(`
      sits just after the space. */
  lemma AppendedSuffix(m: string, line: string, col: string)
    requires |line| > 0 && |col| > 0 && AllDigits(line) && AllDigits(col)
    ensures var msg := m + " (" + line + ":" + col + ")";
            LocationSuffixAt(msg, |m|) && msg[|m| + 1] == '('
  {
    var lc := line + ":" + col;
    var msg := m + " (" + line + ":" + col + ")";
    assert msg == m + " (" + lc + ")";
    assert msg[|m| + 2..|msg| - 1] == lc;
    assert lc[..|line|] == line && lc[|line| + 1..] == col;
    assert IsLineColumn(lc);
  }

  /** Stripping cuts at the first place the suffix matches. */
  lemma StripFirstSuffix(msg: string, k: nat)
    requires k <= |msg| && LocationSuffixAt(msg, k)
    requires forall j :: 0 <= j < k ==> !LocationSuffixAt(msg, j)
    ensures StripLocation(msg) == msg[..k]
  {
    assert FindLocationSuffix(msg, 0) == Some(k);
  }

  /** A `(` never occurs inside `\d+:\d+`. */
  lemma NoParenInLineColumn(m: string, q: int)
    requires 0 <= q < |m| && m[q] == '('
    ensures !IsLineColumn(m)
  {
    forall c | 0 < c < |m| - 1 && m[c] == ':'
      ensures !(AllDigits(m[..c]) && AllDigits(m[c + 1..]))
    {
      if q < c {
        assert m[..c][q] == '(';
      } else {
        assert m[c + 1..][q - c - 1] == '(';
      }
    }
  }

  /** The children of a node that can have them. */
  function Children(n: TemplateNode): seq<NodeId> {
    if n.Fragment? || n.Element? then n.children else []
  }

  /** Every child id refers to a node created after its parent, so the
      parent links of the arena form a forest rooted at creation order. */
  ghost predicate ChildrenForward(ns: seq<TemplateNode>) {
    forall id, j :: 0 <= id < |ns| && 0 <= j < |Children(ns[id])| ==>
      id < Children(ns[id])[j] < |ns|
  }

  /** Appending a child keeps children pointing forward. */
  lemma AppendChildForward(ns: seq<TemplateNode>, parent: NodeId, child: TemplateNode)
    requires parent < |ns| && (ns[parent].Fragment? || ns[parent].Element?)
    requires ChildrenForward(ns) && Children(child) == []
    ensures ChildrenForward(AppendChild(ns, parent, child))
  {
    var r := AppendChild(ns, parent, child);
    forall id, j | 0 <= id < |r| && 0 <= j < |Children(r[id])|
      ensures id < Children(r[id])[j] < |r|
    {
      if id == parent {
        if j < |Children(ns[id])| {
          assert Children(r[id])[j] == Children(ns[id])[j];
        }
      } else if id < |ns| {
        assert Children(r[id]) == Children(ns[id]);
      }
    }
  }

  /** What the parser changes as it goes: the cursor, the arena, the
      open stack, and the stylesheets and scripts found so far. */
  datatype ParserState = ParserState(index: nat, nodes: seq<TemplateNode>, stack: seq<NodeId>,
                                     css: seq<Style>, js: seq<Script>)

  class Parser {
    const template: string
    const filename: Option<string>
    const customElement: bool
    const host: Host

    var index: nat
    /** The arena; node 0 is the root Fragment (`html`). */
    var nodes: seq<TemplateNode>
    var stack: seq<NodeId>
    var css: seq<Style>
    var js: seq<Script>

    /** The cursor stays within the template; the root Fragment stays at
        the bottom of the stack and every other open node is an element;
        open ids grow from bottom to top; children are created after
        their parent. */
    ghost predicate Valid()
      reads this
    {
      && index <= |template|
      && 0 < |nodes| && nodes[0].Fragment?
      && 0 < |stack| && stack[0] == 0
      && (forall k :: 0 <= k < |stack| ==> stack[k] < |nodes|)
      && (forall k :: 0 < k < |stack| ==> nodes[stack[k]].Element?)
      && (forall i, j :: 0 <= i < j < |stack| ==> stack[i] < stack[j])
      && ChildrenForward(nodes)
    }

    /** The root Fragment spans [0, 0) with no children and is the only open node. */
    constructor (template: string, options: ParserOptions, host: Host)
      ensures Valid()
      ensures this.template == template && this.host == host
      ensures filename == options.filename && customElement == options.customElement
      ensures index == 0 && nodes == [Fragment(0, 0, [])] && stack == [0]
      ensures css == [] && js == []
      ensures Current() == 0
    {
      this.template := template;
      this.filename := options.filename;
      this.customElement := options.customElement;
      this.host := host;
      index := 0;
      nodes := [Fragment(0, 0, [])];
      stack := [0];
      css := [];
      js := [];
    }

    /** The parser's changing state at this moment. */
    ghost function Snapshot(): ParserState
      reads this
    {
      ParserState(index, nodes, stack, css, js)
    }

    /** `current()`: the open node on top of the stack, which can always take children. */
    function Current(): (id: NodeId)
      reads this
      requires Valid()
      ensures id < |nodes| && (nodes[id].Fragment? || nodes[id].Element?)
      ensures id == 0 <==> |stack| == 1
    {
      stack[|stack| - 1]
    }

    /** `match(s)`: the slice of `|s|` characters at the cursor, clamped at
        the end of input, equals `s`. */
    function Match(s: string): (r: bool)
      reads this
      requires index <= |template|
      ensures r <==> StartsWithAt(template, index, s)
    {
      var stop := if index + |s| <= |template| then index + |s| else |template|;
      template[index..stop] == s
    }

    /** `match_regex(p)`: the matched text when the leftmost match in the
        rest of the input starts at the cursor, else null. */
    function MatchRegex(p: Pattern): (r: Option<string>)
      reads this
      requires index <= |template|
      ensures r.Some? <==> MatchesAt(template, index, p)
      ensures r.Some? ==> r.value <= template[index..]
      ensures r.Some? ==> r.value == template[index..index + MatchLength(template, index, p).value]
    {
      match Exec(template, index, p)
      case Some(k) =>
        if k == index then Some(template[index..index + MatchLength(template, index, p).value])
        else None
      case None => None
    }

    /** `error(e)`: a diagnostic at the current index; callers that pass
        an explicit index build `ParseError(code, message, at)` directly. */
    function Error(code: ErrorCode, message: string): (e: ParseError)
      reads this
      ensures e.start == index && e.code == code && e.message == message
    {
      ParseError(code, message, index)
    }

    /** `internal_parser_error(err)`: a `parse-error` at the foreign error's
        position, its message stripped of a trailing `(line:column)`. */
    function InternalParserError(err: ForeignError): (e: ParseError)
      ensures e.code == ParseErrorCode && e.start == err.pos
      ensures e.message <= err.message
      ensures e.message == StripLocation(err.message)
    {
      ParseError(ParseErrorCode, StripLocation(err.message), err.pos)
    }

    /** `allow_whitespace()`: skip the maximal run of `[ \t\r\n]`. */
    method AllowWhitespace()
      requires Valid()
      modifies this`index
      ensures Valid()
      ensures index == SkipSpaces(template, old(index))
    {
      while index < |template| && IsHtmlSpace(template[index])
        invariant old(index) <= index <= |template|
        invariant SkipSpaces(template, index) == SkipSpaces(template, old(index))
        decreases |template| - index
      {
        index := index + 1;
      }
    }

    /** `require_whitespace()`: `missing-whitespace` at the end of input or
        at a non-whitespace character; otherwise skip at least one. */
    method RequireWhitespace() returns (r: Result<()>)
      requires Valid()
      modifies this`index
      ensures Valid()
      ensures r.Err? <==> old(index) == |template| || !IsHtmlSpace(template[old(index)])
      ensures r.Err? ==> r.error == ParseError(MissingWhitespace, "Expected whitespace", old(index))
                         && index == old(index)
      ensures r.Ok? ==> old(index) < index == SkipSpaces(template, old(index))
    {
      if index == |template| || !IsHtmlSpace(template[index]) {
        return Err(Error(MissingWhitespace, "Expected whitespace"));
      }
      AllowWhitespace();
      r := Ok(());
    }

    /** `read(p)`: advance over a non-empty match at the cursor. */
    method Read(p: Pattern) returns (result: Option<string>)
      requires Valid()
      modifies this`index
      ensures Valid()
      ensures result == old(MatchRegex(p))
      ensures result.Some? <==> MatchesAt(template, old(index), p)
      ensures index == old(index) + (if result.Some? then |result.value| else 0)
    {
      result := MatchRegex(p);
      if result.Some? && result.value != "" {
        index := index + |result.value|;
      }
    }

    /** `eat(s, required, message)`: advance over `s` when it is at the
        cursor; when it is not and `required` is set, fail with
        `unexpected-eof` at the end of input and `unexpected-token`
        elsewhere, with `message` or "Expected <s>". */
    method Eat(s: string, required: bool, message: Option<string>) returns (r: Result<bool>)
      requires Valid()
      modifies this`index
      ensures Valid()
      ensures old(Match(s)) ==> r == Ok(true) && index == old(index) + |s|
      ensures !old(Match(s)) ==> index == old(index)
      ensures !old(Match(s)) && !required ==> r == Ok(false)
      ensures !old(Match(s)) && required ==>
                r == Err(ParseError(if index == |template| then UnexpectedEof else UnexpectedToken,
                                    message.GetOr("Expected " + s), index))
    {
      if Match(s) {
        index := index + |s|;
        return Ok(true);
      }
      if required {
        var code := if index == |template| then UnexpectedEof else UnexpectedToken;
        return Err(Error(code, message.GetOr("Expected " + s)));
      }
      r := Ok(false);
    }

    /** `readUntil(p)`: the text up to the leftmost match of `p`, or to the
        end of input; the cursor stops there. */
    method ReadUntil(p: Pattern) returns (s: string)
      requires Valid()
      modifies this`index
      ensures Valid()
      ensures index == UntilPos(template, old(index), p)
      ensures s == template[old(index)..index]
    {
      var start := index;
      index := UntilPos(template, index, p);
      s := template[start..index];
    }

    /** `incrementIndex()`: the index before advancing by one. */
    method IncrementIndex() returns (i: nat)
      requires Valid() && index < |template|
      modifies this`index
      ensures Valid()
      ensures i == old(index) && index == i + 1
    {
      i := index;
      index := index + 1;
    }

    /** `setIndex(i)`. */
    method SetIndex(i: nat)
      requires Valid() && i <= |template|
      modifies this`index
      ensures Valid() && index == i
    {
      index := i;
    }

    /** `popStack()`: close the top frame; the root is never popped. */
    method PopStack()
      requires Valid() && |stack| > 1
      modifies this`stack
      ensures Valid()
      ensures stack == old(stack)[..|old(stack)| - 1]
    {
      stack := stack[..|stack| - 1];
    }

    /** `node.end = end` on a node that is already in the tree. */
    method SetEnd(id: NodeId, end: nat)
      requires Valid() && id < |nodes|
      modifies this`nodes
      ensures Valid()
      ensures nodes == old(nodes)[id := WithEnd(old(nodes)[id], end)]
    {
      nodes := nodes[id := WithEnd(nodes[id], end)];
      assert forall n :: 0 <= n < |nodes| ==> Children(nodes[n]) == Children(old(nodes)[n]);
    }

    /** `node.children.push(child)` on an element that need not be open. */
    method AppendChildOf(parent: NodeId, child: TemplateNode) returns (id: NodeId)
      requires Valid() && parent < |nodes| && (nodes[parent].Fragment? || nodes[parent].Element?)
      requires Children(child) == []
      modifies this`nodes
      ensures Valid()
      ensures id == |old(nodes)|
      ensures nodes == AppendChild(old(nodes), parent, child)
    {
      AppendChildForward(nodes, parent, child);
      id := |nodes|;
      nodes := AppendChild(nodes, parent, child);
    }

    /** `current().children.push(node)`: add `node` to the arena as the last child of the top. */
    method AppendToCurrent(node: TemplateNode) returns (id: NodeId)
      requires Valid() && Children(node) == []
      modifies this`nodes
      ensures Valid()
      ensures id == |old(nodes)|
      ensures nodes == AppendChild(old(nodes), old(Current()), node)
    {
      id := AppendChildOf(Current(), node);
    }

    /** `getStack().push(element)`: open the element created last. */
    method PushStack(id: NodeId)
      requires Valid() && id == |nodes| - 1 && nodes[id].Element?
      requires forall k :: 0 <= k < |stack| ==> stack[k] < id
      modifies this`stack
      ensures Valid()
      ensures stack == old(stack) + [id]
      ensures Current() == id
    {
      stack := stack + [id];
    }

    /** `pushJs(s)`. */
    method PushJs(s: Script)
      modifies this`js
      ensures js == old(js) + [s]
    {
      js := js + [s];
    }

    /** `pushCss(s)`. */
    method PushCss(s: Style)
      modifies this`css
      ensures css == old(css) + [s]
    {
      css := css + [s];
    }
  }
}
