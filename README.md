# pandajs template parser, modelled in Dafny

This project models the forward-only template parser of pandajs, a compiler for
component templates, in Dafny. The parser turns a markup template into
a tree of template nodes. It is built from four parts.

- **The cursor** (`Parser` in `src/compiler/parser/index.ts`) holds the
  template, the scan index, the stack of open nodes and the top-level script
  and style nodes.
- **Two parser states.** `fragment` dispatches on the next character. `text`
  reads character data up to the next `<`.
- **The `tag` state and its helpers.** These cover comments, closing tags with
  their unwinding of the open stack, the implicit close, attributes and
  directives with their uniqueness rule, void and self-closing elements, the
  raw-text bodies of `<textarea>`, `<script>` and `<style>`, and the top-level
  `<script>` and `<style>` blocks.
- **Boundary glue.** This covers the script parser (`parseScript`), the
  stylesheet parser (`parseStyle`) and the surrogate-pair decoder
  `fullCharCodeAt`.

The model keeps the source's form.

- The cursor is a Dafny `class`. Its fields are `index`, `nodes`, `stack`, `js`
  and `css`, and every operation that moves the cursor or edits the tree is a
  method with `modifies` clauses.
- Template nodes live in an arena: `nodes` is a sequence addressed by node id.
  The root `Fragment` is id 0. `stack` holds the ids of the open nodes. In the
  source, `tag` updates an element after linking it into its parent's
  `children`, and it sets the `end` of parents it pops. The arena keeps those
  updates visible to the parent.
- Failure is a `Result`. An `Err` carries the error code, the message and the
  offset that `parser.error` would have raised.
- `Parser.Valid()` is the cursor's invariant, kept by every method:
  - the index lies within the template;
  - the root Fragment sits at the bottom of the stack;
  - every other open node is an element;
  - open ids increase from the bottom of the stack to the top;
  - every child is created after its parent.
- Each loop of the source is a `while` loop with its invariants: `allow_whitespace`,
  `text`, `readSequence`, the attribute loop of `tag`, and the closing-tag
  unwinding. Each is proved against a specification function:
  - `SkipSpaces` for `allow_whitespace`;
  - `TextEnd` for `text`;
  - `UntilPos` and `Chunk` for `readSequence`;
  - `ScanAttributes` for the attribute loop;
  - `Unwind` and `EndFrames` for the unwinding.

  The properties of those functions are proved as lemmas.

Regular expressions are modelled by a small pattern language in `Patterns`.
A pattern is a literal, a one-character class, or an alternation of the two.
`Exec` finds the leftmost match, as `RegExp.prototype.exec` does on the rest of
the template. Every regular expression the core uses has this shape except
two, which are modelled on their own. The tag-name pattern
(`src/compiler/parser/nodes/tag.ts:25`) is the predicate
`TagNames.ValidTagName`, and the lemma `ValidTagNameIff` says what it accepts.
The location suffix `/ \(\d+:\d+\)$/` (`src/compiler/parser/index.ts:82`)
is found by `Cursor.FindLocationSuffix` and removed by `Cursor.StripLocation`.

Several collaborators are not part of this model:

- `decodeCharacterReferences`, `isVoid` and `closingTagOmitted` (from
  `utils/html` and `utils/names`);
- the acorn script parser;
- the css-tree stylesheet parser, together with the walk that rejects empty
  declarations.

They are the fields of a `Host` value, which the parser is given when it is
constructed. Their results are whatever the host says.

Some cursor methods are called by the handlers but not defined by the class:
`eat`, `readUntil`, `incrementIndex`, `setIndex`, `popStack`, `pushJs` and
`pushCss`. The model defines them as follows. For `incrementIndex`,
`setIndex`, `popStack`, `pushJs` and `pushCss` the call sites fix the
behaviour. For `eat` and `readUntil` the model makes two assumptions that no
call site decides: `eat`'s choice of error code, and `readUntil` stopping at
the end of input instead of failing.

- `incrementIndex` returns the old index, then advances.
- `eat(s, required, message)` advances by `|s|` exactly when `s` is at the
  cursor. When `required` is set and `s` is absent, it fails, and its message
  is `message` or `Expected <s>`. The error code is assumed:
  `unexpected-eof` at the end of input and `unexpected-token` elsewhere.
- `readUntil(p)` returns the text up to the leftmost match of `p`. With no
  match it is assumed to return the rest of the input and not to fail.

The methods `matchRegex`, `allowWhitespace` and `internalParserError` are the
class's snake-case `match_regex`, `allow_whitespace` and
`internal_parser_error`.

Four behaviours are easy to miss. The first and last are the code's own. The
middle two follow from the assumed `eat` and `readUntil` above.

- **A nested `<style>` element keeps the `end` it was created with (0).** The
  code reads its body and its closing tag but never sets `element.end`
  (`src/compiler/parser/nodes/tag.ts:140-146`). A nested `<script>` does get
  its end set (`src/compiler/parser/nodes/tag.ts:138-139`).
  `TagHandler.StyleBody` states this.
- **In the model, a top-level `<style>` whose `</style>` is missing fails
  `unexpected-eof`.** Under the assumed `readUntil`, the body runs to the end
  of input (`src/compiler/parser/parse/styles.ts:12`). Under the assumed
  `eat`, `eat('</style>', true)` then fails with `unexpected-eof` there
  (`src/compiler/parser/parse/styles.ts:52`). The code has no
  `unclosed-script`-like check of its own for styles.
- **In the model, only `readSequence` raises `unexpected-eof` while
  scanning.** Its loop stops at the end of input and raises it
  (`src/compiler/parser/nodes/tag.ts:297-309`). The `readUntil` calls
  (`src/compiler/parser/nodes/tag.ts:154`,
  `src/compiler/parser/parse/styles.ts:12`) cannot fail, because the assumed
  `readUntil` does not.
- **There is no parse loop.** `parseTemplate`
  (`src/compiler/parser/index.ts:34-36`) only declares its start state, and
  `parse` (`src/compiler/parser/index.ts:97-104`) returns a stub. So nothing
  checks unclosed elements, trims the Fragment span or counts scripts and
  styles.

## Model

| member | source | states |
|---|---|---|
| CharCodes.ToInt32 | src/compiler/utils/full_char_code_at.ts:6 | the result is a signed 32-bit integer congruent to the input modulo 2^32, and equal to it when the input is already in range |
| CharCodes.FullCharCodeAt | src/compiler/utils/full_char_code_at.ts:1-7 | no code (`None`, the source's NaN) exactly when the offset is past the end, or when a unit in 0xD800..0xDFFF is the last one, so the next unit is missing. Otherwise a unit outside that range is returned unchanged. Any unit inside that range, a lone low surrogate included, is combined with the next unit as 0x10000 + (hi-0xD800)*0x400 + (lo-0xDC00), with no validation. A valid pair decodes into 0x10000..0x10FFFF |
| CharCodes.EncodeSurrogatePair | src/compiler/utils/full_char_code_at.ts:5-6 | the reference encoding of a supplementary code point (section 2.1 of RFC 2781) is a high surrogate followed by a low surrogate |
| CharCodes.DecodeEncoded | src/compiler/utils/full_char_code_at.ts:5-6 | decoding the encoding of any supplementary code point gives that code point back |
| CharCodes.EncodeDecoded | src/compiler/utils/full_char_code_at.ts:5-6 | every valid surrogate pair is the encoding of the code point it decodes to |
| Patterns.MatchLength | src/compiler/parser/index.ts:46-51 | a match of a literal exists exactly when the literal is at the offset, and a match of a class exactly when the character there is in the class. The match stays within the template |
| Patterns.Exec | src/compiler/parser/index.ts:46-51 | the leftmost offset at or after the start where the pattern matches; no offset before it matches |
| Patterns.UntilPos | src/compiler/parser/nodes/tag.ts:154 | where `readUntil` stops: a match of the pattern, or the end of input, with no match before it |
| Patterns.SkipSpaces | src/compiler/parser/index.ts:53-60 | the end of the maximal run of space, tab, CR and LF at the offset: every character skipped is one of them, and the one after it is not |
| Patterns.SkipSpacesIdempotent | src/compiler/parser/index.ts:53-60 | skipping whitespace a second time does not move |
| Patterns.SkipSpacesUnique | src/compiler/parser/index.ts:53-60 | any offset that ends a run of whitespace with no whitespace after it is the one SkipSpaces finds |
| Strings.IndexOf | src/compiler/parser/nodes/tag.ts:190 | -1 exactly when the character is absent; otherwise an offset holding it with no earlier occurrence |
| Strings.Split | src/compiler/parser/nodes/tag.ts:206 | at least one piece, and no piece contains the separator |
| Strings.JoinSplit | src/compiler/parser/nodes/tag.ts:206 | joining the pieces of a split with the separator gives the string back |
| Strings.SplitJoin | src/compiler/parser/nodes/tag.ts:206 | splitting the join of a non-empty list of separator-free pieces gives the list back |
| Contracts.WithEnd | src/compiler/parser/nodes/tag.ts:78 | setting `end` keeps the node's variant and start and sets its end |
| Contracts.WithEndKeeps | src/compiler/parser/nodes/tag.ts:84 | setting an element's `end` keeps its kind, name, attributes and children |
| Cursor.AppendChild | src/compiler/parser/nodes/tag.ts:116 | pushing a child appends the new node at the next id and adds that id to the end of the parent's children; every other node is unchanged |
| Cursor.AppendChildForward | src/compiler/parser/nodes/tag.ts:116 | linking a new childless node keeps every child created after its parent |
| Cursor.FindLocationSuffix | src/compiler/parser/index.ts:82 | the first offset from which the rest of the message is ` (digits:digits)`, and no earlier offset where it is |
| Cursor.StripLocation | src/compiler/parser/index.ts:82 | the result is a prefix of the message, and the message is unchanged when it has no ` (line:column)` suffix |
| Cursor.StripAppendedLocation | src/compiler/parser/index.ts:82 | removing the location from a message with ` (line:column)` appended gives back the message |
| Cursor.Parser.constructor | src/compiler/parser/index.ts:18-32 | the new cursor is at 0 with only the root Fragment `{0, 0, []}` open, no scripts or styles, and the options' filename and custom-element flag |
| Cursor.Parser.Current | src/compiler/parser/index.ts:38-40 | the top of the stack is a Fragment or an element, and it is the root exactly when the stack holds one node |
| Cursor.Parser.Match | src/compiler/parser/index.ts:42-44 | true exactly when the string occurs at the cursor, so false when fewer characters remain |
| Cursor.Parser.MatchRegex | src/compiler/parser/index.ts:46-51 | a result exactly when the leftmost match starts at the cursor. The result is the matched text: the characters at the cursor, as many as the match is long |
| Cursor.Parser.AllowWhitespace | src/compiler/parser/index.ts:53-60 | the cursor moves to the end of the whitespace run at it |
| Cursor.Parser.RequireWhitespace | src/compiler/parser/index.ts:62-71 | `missing-whitespace` at the cursor exactly when the input ends there or a non-whitespace character is there; otherwise at least one character is consumed, up to the end of the run |
| Cursor.Parser.Read | src/compiler/parser/index.ts:73-77 | a result exactly when the pattern matches at the cursor, and the cursor advances by the length of the result |
| Cursor.Parser.InternalParserError | src/compiler/parser/index.ts:79-84 | `parse-error` at the foreign error's position. Its message is the foreign message with a trailing ` (line:column)` removed, as `StripLocation` finds it |
| Cursor.Parser.Error | src/compiler/parser/index.ts:86-94 | the error carries the code and message given, at the cursor |
| Cursor.Parser.Eat | src/compiler/parser/nodes/tag.ts:31-33 | it advances by the length of the string exactly when the string is at the cursor. A required string that is missing fails at the cursor, as `unexpected-eof` at the end of input and `unexpected-token` elsewhere |
| Cursor.Parser.ReadUntil | src/compiler/parser/nodes/tag.ts:154 | the cursor stops at the leftmost match or at the end of input, and the result is the text passed over |
| Cursor.Parser.IncrementIndex | src/compiler/parser/nodes/text.ts:14 | returns the old index and advances by one |
| Cursor.Parser.SetIndex | src/compiler/parser/parse/scripts.ts:19 | the cursor is moved to the given offset |
| Cursor.Parser.PopStack | src/compiler/parser/nodes/tag.ts:78-79 | the top of the stack is removed |
| Cursor.Parser.SetEnd | src/compiler/parser/nodes/tag.ts:84 | only the given node changes, and only its end |
| Cursor.Parser.AppendChildOf | src/compiler/parser/nodes/tag.ts:131 | the node becomes the last child of the given element |
| Cursor.Parser.AppendToCurrent | src/compiler/parser/nodes/text.ts:25 | the node becomes the last child of the open node |
| Cursor.Parser.PushStack | src/compiler/parser/nodes/tag.ts:148 | the element is pushed and becomes the open node |
| Cursor.Parser.PushJs | src/compiler/parser/nodes/tag.ts:108-109 | the script is appended to the scripts |
| Cursor.Parser.PushCss | src/compiler/parser/nodes/tag.ts:110-111 | the stylesheet is appended to the stylesheets |
| TextHandler.TextEnd | src/compiler/parser/nodes/text.ts:9-13 | where text stops: no `<` before it, and a `<` or the end of input at it. `{` is not a boundary |
| TextHandler.TextEndEmpty | src/compiler/parser/nodes/text.ts:9-13 | text is empty exactly at the end of input or at a `<` |
| TextHandler.TextEndIdempotent | src/compiler/parser/nodes/text.ts:9-13 | reading text again where it stopped reads nothing |
| TextHandler.Text | src/compiler/parser/nodes/text.ts:4-26 | the cursor moves to the text end, and exactly one `Text{start, end, raw, decode(raw)}` node is appended to the open node, with `raw` the consumed slice. The stack, the scripts and the stylesheets are unchanged |
| FragmentDispatch.Fragment | src/compiler/parser/nodes/fragment.ts:5-10 | the tag state exactly when a `<` is at the cursor, otherwise the text state, including at the end of input. Nothing is consumed |
| FragmentDispatch.DispatchProgress | src/compiler/parser/nodes/fragment.ts:6-9 | away from the end of input, the text state is chosen only where it consumes at least one character, and the tag state only at a `<` |
| Scripts.PaddedSource | src/compiler/parser/parse/scripts.ts:18 | the source given to the script parser is as long as the offset of the closing tag, is blank before the body and agrees with the template on the body |
| Scripts.PaddedSourceBlanksPrefix | src/compiler/parser/parse/scripts.ts:18 | the padded source, cut at the body start, is the body and a blank prefix |
| Scripts.ScriptOutcome | src/compiler/parser/parse/scripts.ts:8-39 | the outcome stays within the text, and a Script it gives spans from the tag start to the cursor after it |
| Scripts.ParseScript | src/compiler/parser/parse/scripts.ts:8-39 | its result and cursor are `ScriptOutcome`'s. With no `</script>` at or after the cursor, `unclosed-script` at the cursor. Otherwise the cursor moves just past the first `</script>`. A parse failure becomes `parse-error`; a program gives `Script{start, end: cursor, "default", content.start: body start}` |
| Styles.StyleOutcome | src/compiler/parser/parse/styles.ts:10-67 | the outcome stays within the text, and a Style it gives spans from the tag start to the cursor after it and carries the tag's attributes |
| Styles.ParseStyle | src/compiler/parser/parse/styles.ts:10-67 | its result and cursor are `StyleOutcome`'s. The body runs to the first `</style>`, and the stylesheet parser is given it with the body's offset. A CSS syntax error is `css-syntax-error` at the offset the parser reports. An empty declaration is `invalid-declaration` at the end of the body: its `start` is not yet set when it is checked, so the error falls at the cursor. A missing `</style>` is `unexpected-eof` at the end of input. Otherwise the `Style` spans the tag start to just past `</style>` and records the body's span and text |
| TagNames.ValidTagNameIff | src/compiler/parser/nodes/tag.ts:25 | since the pattern has no end anchor, a name is valid exactly when it starts with a letter, or with `!` and a letter |
| TagNames.TagKind | src/compiler/parser/nodes/tag.ts:47-48 | InlineComponent exactly when the name starts with A-Z; Slot exactly for `slot` outside custom-element mode; Element otherwise |
| TagNames.DirectiveTypeOfIff | src/compiler/parser/nodes/tag.ts:255-261 | `use`, `bind`, `class`, `on` and `let` and the five directive types correspond one to one; every other prefix has no type |
| TagNames.PrefixDetermined | src/compiler/parser/nodes/tag.ts:190-191 | in a name that starts with a directive prefix and a colon, that colon is the first one |
| TagNames.ClassifyDirective | src/compiler/parser/nodes/tag.ts:190-206 | a name read as a directive is its prefix, a colon, and its target and modifiers joined by vertical bars, with the colon at the first `:` |
| TagNames.ClassifyPlain | src/compiler/parser/nodes/tag.ts:190-191 | a name read as a plain attribute starts with no directive prefix followed by a colon |
| TagNames.ClassifySpell | src/compiler/parser/nodes/tag.ts:190-206 | reading a spelled directive gives back its type, target and modifiers |
| TagNames.DirectiveKeyOfName | src/compiler/parser/nodes/tag.ts:208-212 | a directive is recorded under the key of the name it was read from |
| TagNames.BindingKey | src/compiler/parser/nodes/tag.ts:208-209 | `bind:x` with any modifiers is keyed by `x`, so it collides with a plain attribute `x` |
| TagNames.EventHandlerUnkeyed | src/compiler/parser/nodes/tag.ts:210 | `on:` directives are never recorded |
| TagNames.KeysOfMember | src/compiler/parser/nodes/tag.ts:171-180 | the recorded keys are exactly the keys of the attributes read |
| TagNames.UniqueKeysExtend | src/compiler/parser/nodes/tag.ts:171-180 | adding an attribute whose key is new keeps the keys distinct, and the key is recorded |
| TagAttributes.Chunk | src/compiler/parser/nodes/tag.ts:287-293 | at most one chunk, present exactly when text was read; it is the decoded raw slice lying where it was read |
| TagAttributes.ReadSequence | src/compiler/parser/nodes/tag.ts:278-310 | it stops where `done` first holds and returns the chunk of the text passed over. Reaching the end of input first is `unexpected-eof` there |
| TagAttributes.OpeningQuote | src/compiler/parser/nodes/tag.ts:264 | the opening quote is `'`, `"` or none |
| TagAttributes.EatQuote | src/compiler/parser/nodes/tag.ts:264 | the quote at the cursor is stepped over: `'` first, then `"` |
| TagAttributes.ValueAtShape | src/compiler/parser/nodes/tag.ts:263-276 | a value opened by a quote runs to the same quote, which is stepped over. An unquoted value runs to `/>`, whitespace, a quote, `=`, `<`, `>` or a backtick. The value is at most one decoded chunk, from just after the opening quote to the end, with no end inside it. The end of input first is `unexpected-eof` there |
| TagAttributes.ReadAttributeValue | src/compiler/parser/nodes/tag.ts:263-276 | it reads exactly what `ValueAt` describes. On success the result is the value's chunks and the cursor is past the closing quote; otherwise it is `ValueAt`'s `unexpected-eof` |
| TagAttributes.CheckUnique | src/compiler/parser/nodes/tag.ts:171-180 | a seen key is `duplicate-attribute` at the attribute's start; otherwise the key is recorded |
| TagAttributes.AfterNameShape | src/compiler/parser/nodes/tag.ts:187-203 | once the name ends, the attribute is named by the text of the name and ends at the name or after its value. Only whitespace lies between its end and the cursor. Its value is at most one decoded chunk. The only errors are `unexpected-token` and `unexpected-eof` |
| TagAttributes.NameValueShape | src/compiler/parser/nodes/tag.ts:182-203 | no attribute exactly when no name starts at the offset. Otherwise the attribute is named by the text up to where names stop, and the rest is as `AfterNameShape` states |
| TagAttributes.ReadValueAfterEquals | src/compiler/parser/nodes/tag.ts:194-197 | after `=` and whitespace, the value `ValueAt` reads there, or its error. The attribute ends after the value, and so does the cursor |
| TagAttributes.SkipToEquals | src/compiler/parser/nodes/tag.ts:188-194 | whitespace is skipped, then `=` is stepped over exactly when it follows |
| TagAttributes.ReadAfterName | src/compiler/parser/nodes/tag.ts:187-203 | with `=` after the whitespace, the value `ValueAt` reads after more whitespace, or its error. Otherwise a quote is `unexpected-token` at the quote. Otherwise the attribute has no value and ends with its name, and the cursor stops after the whitespace |
| TagAttributes.ReadNameValue | src/compiler/parser/nodes/tag.ts:182-203 | it reads exactly what `NameValue` describes: nothing, with the cursor unmoved, when no name starts; otherwise the name and what follows it as `ReadAfterName` states, or its error |
| TagAttributes.BuildDirective | src/compiler/parser/nodes/tag.ts:205-242 | the key is checked first: `bind:` other than `bind:this` by its target, `on:` not at all, others by the full name. Then any value is `invalid-directive-value` at its start. `bind:` and `class:` get an `Identifier` naming the target, from just after the colon to the end |
| TagAttributes.BuildAttribute | src/compiler/parser/nodes/tag.ts:205-252 | a directive exactly when the name has a directive prefix; otherwise an `Attribute` keeping the full name and value. A duplicate key fails `duplicate-attribute`; the key is recorded |
| TagAttributes.AttributeAt | src/compiler/parser/nodes/tag.ts:168-253 | reading an attribute moves the cursor forward, and not past the end of the text |
| TagAttributes.AttributeAtShape | src/compiler/parser/nodes/tag.ts:168-253 | no attribute exactly when no name starts at the offset. Otherwise the attribute starts there and is named by the text up to where names stop. It is keyed as that name is, is a directive exactly when the name has a directive prefix, and its key was not seen and is now recorded. Only whitespace lies between its end and the cursor |
| TagAttributes.AttributeAtDuplicate | src/compiler/parser/nodes/tag.ts:171-180 | a name whose key was seen is `duplicate-attribute` at the attribute's start, and that error arises in no other case |
| TagAttributes.ReadAttribute | src/compiler/parser/nodes/tag.ts:168-253 | it reads exactly what `AttributeAt` describes. That is nothing, with the cursor unmoved; or the attribute, the keys recorded after it and the cursor where it stops; or its error |
| AttributeScans.ScanAttributes | src/compiler/parser/nodes/tag.ts:93-99 | the attribute loop stops within the text, no earlier than where it starts |
| AttributeScans.KeysOfPrepend | src/compiler/parser/nodes/tag.ts:171-180 | the keys of a list with one more attribute in front are the rest's keys with that attribute's key recorded |
| AttributeScans.ScanAttributesWithin | src/compiler/parser/nodes/tag.ts:93-99 | every attribute read lies between where the loop starts and where it stops |
| AttributeScans.ScanAttributesNamed | src/compiler/parser/nodes/tag.ts:93-99 | each attribute read is named by the text from its start to where names stop |
| AttributeScans.ScanAttributesChain | src/compiler/parser/nodes/tag.ts:93-99 | the first attribute starts where the loop starts. Each next one starts where the whitespace after the previous one ends, and the loop stops where the whitespace after the last one ends, or where it started if it read none |
| AttributeScans.ScanAttributesKeys | src/compiler/parser/nodes/tag.ts:93-99 | the keys of the attributes read are distinct, and none of them was recorded before the loop |
| AttributeScans.ScanAttributesStop | src/compiler/parser/nodes/tag.ts:93-99 | where the loop stops, reading one more attribute with every key recorded so far gives no attribute, or the error that stopped the loop |
| AttributeScans.ScanAttributesDuplicate | src/compiler/parser/nodes/tag.ts:93-99 | the loop stops normally exactly where no name starts. It stops on `duplicate-attribute` exactly when that name's key was recorded before the loop or by an attribute it read, and the error falls at that name's start |
| TagHandler.ReadTagName | src/compiler/parser/nodes/tag.ts:152-166 | the name runs to whitespace, `/` or `>`. A name failing the tag-name pattern is `invalid-tag-name` at its start |
| TagHandler.Unwind | src/compiler/parser/nodes/tag.ts:70-81 | the topmost open frame a closing tag cannot pop past, or -1 |
| TagHandler.UnwindPassesAbove | src/compiler/parser/nodes/tag.ts:70-81 | every frame above that one is an element with another name |
| TagHandler.UnwindAt | src/compiler/parser/nodes/tag.ts:70-81 | a frame that stops the unwinding, with only passable frames above it, is the one `Unwind` finds |
| TagHandler.UnwindStops | src/compiler/parser/nodes/tag.ts:71-75 | the unwinding always stops at a frame, and never pops the root Fragment |
| TagHandler.EndFrames | src/compiler/parser/nodes/tag.ts:77-78 | ending frames keeps the number of nodes |
| TagHandler.EndFramesOutside | src/compiler/parser/nodes/tag.ts:77-78 | a node that is not among the frames passed is unchanged |
| TagHandler.EndFramesInside | src/compiler/parser/nodes/tag.ts:77-78 | each frame passed ends at the start of the closing tag |
| TagHandler.EndFramesShape | src/compiler/parser/nodes/tag.ts:77-78 | ending frames changes neither a node's variant nor its children |
| TagHandler.UnwindFrames | src/compiler/parser/nodes/tag.ts:70-81 | the loop pops exactly the frames above the named element and ends each at the start of the closing tag. When a non-passable frame with another name comes first, it fails `invalid-closing-tag` at the tag's start |
| TagHandler.UnwindTo | src/compiler/parser/nodes/tag.ts:70-81 | on the parser, the stack is cut just above the named element and the frames passed are ended; on failure, nothing changes |
| TagHandler.CloseCurrent | src/compiler/parser/nodes/tag.ts:84-85 | the open element ends at the given offset and is popped |
| TagHandler.CloseNamed | src/compiler/parser/nodes/tag.ts:70-85 | as `ClosedNamed` states: the element the closing tag names ends after `>`, the frames above it end at the tag's start, and all of them are popped. When no such element is open, `invalid-closing-tag` at the tag's start, with the tree and the stack unchanged. The named element is never the root |
| TagHandler.EndClosingTag | src/compiler/parser/nodes/tag.ts:69-85 | as `ClosingTagEnded` states: `>` is required, and a missing one fails at the cursor with nothing changed. After it the named element is closed as `CloseNamed` states |
| TagHandler.CloseTag | src/compiler/parser/nodes/tag.ts:61-87 | as `CloseOutcome` states: a closing tag for a void element is `invalid-closing-tag` at the cursor with nothing changed; any other is ended as `EndClosingTag` states. No node is added, and an error changes neither the tree nor the stack |
| TagHandler.ImplicitClose | src/compiler/parser/nodes/tag.ts:88-91 | the tree and the stack become what `ImplicitlyClosed` gives: when `closingTagOmitted(parent, name)` holds for an open element, it ends at the new tag's start and is popped; otherwise nothing changes. The root is never popped |
| TagHandler.AttributeTurn | src/compiler/parser/nodes/tag.ts:96-98 | one step of `ScanAttributes` from the cursor. An error, or no attribute with the cursor unmoved, ends the scan there. Otherwise the cursor moves forward, and the scan is the attribute read followed by the scan from the new cursor with the new keys |
| TagHandler.NextAttribute | src/compiler/parser/nodes/tag.ts:96-98 | the loop invariant `Resumes` is kept: the attributes read so far followed by the scan from the cursor make up the whole scan. When the loop ends, the attributes read are the whole scan's, and the cursor is where it stops |
| TagHandler.ReadAttributes | src/compiler/parser/nodes/tag.ts:93-99 | it returns exactly the attributes `ScanAttributes` reads from the cursor and leaves the cursor where the scan stops; or it fails with the scan's error. The `ScanAttributes` lemmas give their positions, names, distinct keys and the duplicate rule |
| TagHandler.ReadComment | src/compiler/parser/nodes/tag.ts:32-42 | as `CommentRead` states: the text up to the first `-->` becomes a `Comment` child of the open node, from the `<` to just past `-->`. A missing `-->` is an error at the end of the text, with the tree unchanged |
| TagHandler.RawTextChild | src/compiler/parser/nodes/tag.ts:132-146 | as `RawBodyRead` states: the text up to the literal closer becomes a `Text` child, without `raw` and undecoded. Then the closer is required; a missing one is `unexpected-eof` at the end of input, after the child is added |
| TagHandler.Textarea | src/compiler/parser/nodes/tag.ts:124-131 | as `TextareaRead` states: the text up to `</textarea>` becomes the only child, as a decoded chunk, unless it is empty. The element ends after `</textarea>`. The end of input first is `unexpected-eof`, with no child added |
| TagHandler.TextareaBody | src/compiler/parser/nodes/tag.ts:123-131 | the `<textarea>` body is read as `TextareaRead` states. Earlier nodes are untouched, and the element keeps its identity, with at most one `Text` child |
| TagHandler.ScriptBody | src/compiler/parser/nodes/tag.ts:132-139 | as `RawBodyRead` states for `</script>`: one `Text` child holding the text before `</script>`, and the element ends after it. A missing `</script>` is `unexpected-eof` at the end of input |
| TagHandler.StyleBody | src/compiler/parser/nodes/tag.ts:140-146 | as `RawBodyRead` states for `</style>`, except that the element keeps the end it was created with |
| TagHandler.FinishElement | src/compiler/parser/nodes/tag.ts:121-149 | a self-closing element ends at the cursor. A raw-text element reads its body as `BodyOutcome` states: `<textarea>` as `TextareaBody`, `<script>` as `ScriptBody` and `<style>` as `StyleBody`. Any other element is pushed |
| TagHandler.CloseStartTag | src/compiler/parser/nodes/tag.ts:118-149 | as `StartTagClosed` states: `/` may follow and `>` must, and a missing `>` fails at the cursor. Then a self-closing or void element ends after `>`; a `<textarea>`, `<script>` or `<style>` reads its body as `BodyOutcome` states; and any other element is pushed |
| TagHandler.PlaceElement | src/compiler/parser/nodes/tag.ts:116-149 | as `Placed` states: the element, with end 0 and no children, becomes the last child of the open node. Then its start tag is closed as `CloseStartTag` states |
| TagHandler.RecordScript | src/compiler/parser/nodes/tag.ts:106-109 | the script is parsed as `ScriptOutcome` gives. The script it gives is appended to the scripts, and the cursor is where it leaves it; its error is the result, with nothing appended |
| TagHandler.RecordStyle | src/compiler/parser/nodes/tag.ts:110-111 | the stylesheet is parsed as `StyleOutcome` gives, with the tag's attributes. The stylesheet it gives is appended to the stylesheets, and the cursor is where it leaves it; its error is the result, with nothing appended |
| TagHandler.ReadSpecial | src/compiler/parser/nodes/tag.ts:101-114 | as `SpecialRead` states: `>` is required, and a missing one fails at the cursor with nothing changed. The tree and the stack are untouched. After `>`, a `<script>` is read as `RecordScript` states and a `<style>` as `RecordStyle` states: the parser's script or stylesheet is recorded, or its error is the tag's with nothing recorded |
| TagHandler.AfterAttributes | src/compiler/parser/nodes/tag.ts:101-149 | a top-level `<script>` or `<style>`, with only the root open, is read as `SpecialRead` states; any other element is placed as `Placed` states. At most one script or stylesheet is recorded |
| TagHandler.ReadOpening | src/compiler/parser/nodes/tag.ts:93-149 | as `OpeningRead` states: the attributes are those `ScanAttributes` reads, and their error is the tag's. Then the tag goes on from where the scan stops, as `AfterAttributes` states. A new node's attribute keys are distinct |
| TagHandler.OpenTag | src/compiler/parser/nodes/tag.ts:88-149 | as `OpenOutcome` states: the implicit close, as `ImplicitlyClosed` gives it, and then `OpeningRead` from that state. A script or stylesheet is recorded only for those names with only the root open, and then no node is added; a new node is the element itself, with distinct attribute keys |
| TagHandler.TagAfterName | src/compiler/parser/nodes/tag.ts:47-149 | as `AfterNameOutcome` states: whitespace is skipped. Then a closing tag goes on as `CloseOutcome` states, and any other as `OpenOutcome` states, with the kind `TagKind` gives the name. A closing tag records nothing and adds no node |
| TagHandler.NamedTag | src/compiler/parser/nodes/tag.ts:45-149 | as `NamedOutcome` states: an optional `/`, then the name up to whitespace, `/` or `>`. A name failing the tag-name pattern is `invalid-tag-name` at its start. Then the rest as `AfterNameOutcome` states, closing exactly when `/` was there |
| TagHandler.Tag | src/compiler/parser/nodes/tag.ts:27-150 | the tag state always consumes input and keeps the cursor invariant. It only adds to the scripts and stylesheets and never removes a node. `<!--` is read as `CommentRead` states, with the stack unchanged: one `Comment` with the text up to the first `-->`, or the missing-`-->` error at the end of the text. Any other tag is read after its `<` as `NamedOutcome` states |

## Left out

- The foreign parsers are not modelled: acorn (`src/compiler/parser/acorn.ts`), css-tree, and the estree-walker walk over the stylesheet. Their results are host functions. A stylesheet error the walk rethrows unchanged, one that is not a `CssSyntaxError`, is not distinguished from a CSS syntax error.
- `decodeCharacterReferences`, `isVoid` and `closingTagOmitted` are host functions. Their files, `utils/html` and `utils/names`, are not part of this model.
- The parse driver is not modelled. `parseTemplate` never loops, and `parse` returns a stub. So there is no end-of-input check for unclosed elements, no trimming of the Fragment span, and no `multiple-styles`/`multiple-scripts` check.
- Error rendering is not modelled. The `error` function that `Parser.error` calls is not part of this model. Diagnostics are a code, a message and an offset, with no filename or source payload, and a raised error aborts the parse.
- Offsets count Dafny characters, which are Unicode scalar values. JavaScript offsets are UTF-16 code units, so they differ after an astral character. `fullCharCodeAt` alone is modelled on code units.
- TagHandler.ImplicitClose: the root is never closed implicitly. When only the root is open, the source calls `closingTagOmitted` with the root's name, which is `undefined` (`src/compiler/parser/nodes/tag.ts:29`, `src/compiler/parser/nodes/tag.ts:88`). The model assumes that call is false, since no element's end tag can be omitted before a tag when there is no element.
- TagHandler.UnwindTo: on an `invalid-closing-tag` failure it leaves the tree and stack as they were. The source has already popped and ended some frames by then, but the error aborts the parse, so that state is never observed.
- `getIndex`, `getTemplate`, `getStack` and `isCustomElement` are plain reads of the cursor's fields and have no members of their own.
- The `specials` map lookup (`tag.ts:8-23`, `tag.ts:101-103`) is the test for the names `script` and `style`. The lookup's `undefined` case cannot happen.
