/** The shapes of src/compiler/contracts.ts as closed variants.
    Template nodes live in an arena (a sequence addressed by `NodeId`), so a
    node that is already linked into its parent's `children` can still be
    updated, as the tag handler does. */
module Contracts {

  /** Index of a node in the parser's arena. */
  type NodeId = nat

  /** The three element-like node types the tag handler creates. */
  datatype ElementKind = PlainElement | InlineComponent | Slot

  datatype DirectiveType = Action | Binding | Class | EventHandler | Let

  /** The implicit expression synthesised for `bind:x` and `class:x`. */
  datatype Identifier = Identifier(start: nat, end: nat, name: string)

  /** A template node. `Element` covers the types 'Element',
      'InlineComponent' and 'Slot'; `raw` of a `Text` is absent for the
      single text child of a nested `<script>` or `<style>`. */
  datatype TemplateNode =
    | Fragment(start: nat, end: nat, children: seq<NodeId>)
    | Element(kind: ElementKind, start: nat, end: nat, name: string,
              attributes: seq<Attr>, children: seq<NodeId>)
    | Text(start: nat, end: nat, raw: Option<string>, data: string)
    | Comment(start: nat, end: nat, data: string)

  /** The node with its end offset replaced. */
  function WithEnd(n: TemplateNode, end: nat): (r: TemplateNode)
    ensures r.start == n.start && r.end == end
    ensures r.Fragment? == n.Fragment? && r.Element? == n.Element?
    ensures r.Text? == n.Text? && r.Comment? == n.Comment?
  {
    match n
    case Fragment(start, _, children) => Fragment(start, end, children)
    case Element(kind, start, _, name, attributes, children) => Element(kind, start, end, name, attributes, children)
    case Text(start, _, raw, data) => Text(start, end, raw, data)
    case Comment(start, _, data) => Comment(start, end, data)
  }

  /** Ending an element keeps what it is: its kind, start, name,
      attributes and children. */
  lemma WithEndKeeps(n: TemplateNode, end: nat)
    requires n.Element?
    ensures var r := WithEnd(n, end);
            && r.Element? && r.kind == n.kind && r.start == n.start && r.name == n.name
            && r.attributes == n.attributes && r.children == n.children
  {
  }

  /** A plain attribute or a directive, as built by readAttribute. */
  datatype Attr =
    | Attribute(start: nat, end: nat, name: string, value: seq<TemplateNode>)
    | Directive(start: nat, end: nat, dtype: DirectiveType, name: string,
                modifiers: seq<string>, expression: Option<Identifier>)

  /** The foreign program node; only its span is visible here. */
  datatype Program = Program(start: int, end: int)

  datatype Script = Script(start: nat, end: nat, context: string, content: Program)

  /** A stylesheet node produced by the foreign CSS parser; only its span is visible. */
  datatype CssNode = CssNode(start: int, end: int)

  datatype StyleContent = StyleContent(start: nat, end: nat, styles: string)

  datatype Style = Style(start: nat, end: nat, attributes: seq<Attr>,
                         children: seq<CssNode>, content: StyleContent)

  datatype ParserOptions = ParserOptions(filename: Option<string>, customElement: bool)

  datatype Option<+T> = None | Some(value: T) {
    function GetOr(default: T): T {
      match this
      case Some(v) => v
      case None => default
    }
  }

  /** The error codes this core raises (the `code` of a ParseError). */
  datatype ErrorCode =
    | MissingWhitespace | UnexpectedEof | UnexpectedToken | ParseErrorCode
    | InvalidClosingTag | InvalidTagName | DuplicateAttribute
    | InvalidDirectiveValue | UnclosedScript | CssSyntaxError | InvalidDeclaration
  {
    /** The code as the source spells it. */
    function Spelling(): string {
      match this
      case MissingWhitespace => "missing-whitespace"
      case UnexpectedEof => "unexpected-eof"
      case UnexpectedToken => "unexpected-token"
      case ParseErrorCode => "parse-error"
      case InvalidClosingTag => "invalid-closing-tag"
      case InvalidTagName => "invalid-tag-name"
      case DuplicateAttribute => "duplicate-attribute"
      case InvalidDirectiveValue => "invalid-directive-value"
      case UnclosedScript => "unclosed-script"
      case CssSyntaxError => "css-syntax-error"
      case InvalidDeclaration => "invalid-declaration"
    }
  }

  /** A diagnostic: its code, its message and the offset it points at. */
  datatype ParseError = ParseError(code: ErrorCode, message: string, start: int)

  /** The outcome of a parsing step: a value, or the first error raised. */
  datatype Result<+T> = Ok(value: T) | Err(error: ParseError) {
    predicate IsFailure() { Err? }

    function PropagateFailure<U>(): Result<U>
      requires Err?
    {
      Err(error)
    }

    function Extract(): T
      requires Ok?
    {
      value
    }
  }
}
