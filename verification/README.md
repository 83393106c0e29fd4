# FCL v2 front end and editor Tab handler, in Dafny

This project models two pieces of the FCL-2 repository.

- **The front end of the FCL v2 language** (`fcl/v2/ast.ts`):
  - the lexer `Tokenise`, which cuts source text into raw string tokens;
  - the classifier `ConvertTokens`, which maps each raw string through the fixed `TokenMap` table or keeps it as a Text token;
  - the token printers `getRaw`, `getText` and `getErrFormat`;
  - the backtracking parser `ParseNode`, with its seven alternatives (Block, String, NamedFunctionDefinition, InlineFunctionDefinition, Execution, Parenthesis, Identifier), the `account` quote/bracket tracker and the node filters;
  - the `Ast` wrapper, which parses `{` + code + `}`.
- **The Tab / Shift-Tab keydown handler of the code editor** (`src/modules/editor.tsx`). It is modelled as a pure function from the text area's value and selection to the new value and selection. After Shift-Tab removes a leading tab, the model places the caret by the corrected rule of the first row under "## Findings", not as lines 72-73 of the handler write it.

Files and modules:

| file | module | what it holds |
|---|---|---|
| `options.dfy` | `Options` | `Option` |
| `tokens.dfy` | `Tokens` | token kinds and types, `TokenMap`, `Classify`, `ConvertTokens`, `GetRaw`, `GetText`, `GetErrFormat` |
| `lexer.dfy` | `Lexer` | `Tokenise` as a fold of one loop step over the characters, the in-place loop as a method, and its properties |
| `syntax.dfy` | `Syntax` | nodes, node kinds and filters, the parser cursor (`ParserContext`) and `Account` |
| `parser.dfy` | `Parser` | `ParseNode`, the dispatch `TryAll` and the seven alternatives |
| `parser_facts.dfy` | `ParserFacts` | what the alternatives do on given token shapes |
| `ast.dfy` | `Frontend` | `Ast` and programs traced end to end: the empty program, `f(a,b)`, `void main() {}`, `x()=>y` and `}{` |
| `editor.dfy` | `Editor` | `HandleTab` and its properties |

## How the model reads the code

- **Parse results.** A parse step returns one of three things:
  - `Ok(value)`;
  - `NoMatch`, the JavaScript `undefined` return meaning "this alternative does not apply";
  - `Failed(f)`.

  A failure `f` is one of three things:
  - a thrown message (`Thrown`);
  - `Crashed`, the JavaScript `TypeError` that reading a token past the end of the array raises;
  - `OutOfFuel`.
- **Fuel.** `ParseNode` can loop forever on some inputs (`ParserFacts.ExecutionSpins` shows one). The model therefore carries a step budget, `fuel`:
  - one unit is spent per alternative tried and per iteration of the Block and Execution loops;
  - running out is `OutOfFuel`, which no alternative catches.
- **Guarded type sub-parse.** Only the "type" sub-parse of the two function-definition alternatives is inside `try`/`catch`. There, a thrown message or a crash becomes "does not apply". Everywhere else a throw ends the whole parse, as in the code.
- **Quote-kind lookup.** `quoteTypeMap` is read with JavaScript truthiness. `QuoteType.Single` is the number 0, so a single quote never opens a String node (`Syntax.IsTruthy`).
- **Identifier test.** The identifier test is `/^\w+$/`, so digits are words. `"42"` is accepted as a type name: the code accepts it, though a reader of the filter's name might expect otherwise (`ParserFacts.DigitsAreWords`).
- **Multiline regular expressions.** In the editor, the two regular expressions with the `m` flag are modelled as matching at the start of the text and after each line terminator. The terminators are `\n`, `\r`, U+2028 and U+2029. The caret's line, by contrast, is found with `lastIndexOf('\n')` / `indexOf('\n')` and is delimited by `\n` alone.
- **Selection offsets.** Assigning a number to `selectionStart` / `selectionEnd` converts it to an unsigned 32-bit integer and clamps it to the text length (`Editor.DomOffset`).

## Model

| member | source | states |
|---|---|---|
| Tokens.ClassifySpec | FCL-2/fcl/v2/ast.ts:172-173 | a raw string becomes a symbol token exactly when it is a key of `TokenMap`, and then that key's row; anything else becomes a Text token carrying the raw string |
| Tokens.ConvertTokens | FCL-2/fcl/v2/ast.ts:172-173 | one token per raw string, in order, each the classification of its raw string |
| Tokens.FindKeySpec | FCL-2/fcl/v2/ast.ts:62-98 | the table search finds the row whose key is the character, and finds none exactly when no row has it |
| Tokens.FindToken | FCL-2/fcl/v2/ast.ts:106-108 | the `findIndex` over the table's values finds a row holding the token, or reports that no row holds it |
| Tokens.GetRawClassify | FCL-2/fcl/v2/ast.ts:106-112 | `getRaw` inverts the classifier: every raw string comes back from its token |
| Tokens.ClassifyKey | FCL-2/fcl/v2/ast.ts:62-98 | each key of the table classifies to its own row's token (keys are distinct) |
| Tokens.FirstIndex | FCL-2/fcl/v2/ast.ts:113 | the index `replace` acts on is the first occurrence of the character, or the length when there is none |
| Tokens.ReplaceFirst | FCL-2/fcl/v2/ast.ts:113 | only the first occurrence is replaced, and a string without the character is unchanged |
| Tokens.ErrFormatOfKey | FCL-2/fcl/v2/ast.ts:113-114 | an error message names a symbol token by its key, with space and newline spelled out |
| Tokens.ErrFormatOfText | FCL-2/fcl/v2/ast.ts:113-114 | an error message names a Text token as "token " followed by its text |
| Tokens.LookupAsWritten | FCL-2/fcl/v2/ast.ts:172-173 | the lookup as written finds an inherited property exactly for the names of `Object.prototype`, and otherwise agrees with `Classify` |
| Lexer.StepConcat | FCL-2/fcl/v2/ast.ts:145-166 | one loop iteration appends exactly its character to the joined buffers |
| Lexer.TokeniseJoins | FCL-2/fcl/v2/ast.ts:116-170 | joining the raw tokens gives back the text: nothing is lost, duplicated or reordered |
| Lexer.TokeniseSegments | FCL-2/fcl/v2/ast.ts:116-170 | no raw token is empty; a separator character is always a raw token by itself; combining characters occur only at the front of a raw token, at most two of them |
| Lexer.BuffersSegmented | FCL-2/fcl/v2/ast.ts:145-166 | the loop keeps its buffer invariant: well-formed buffers, only the last one possibly empty, the last one never holding a separator |
| Lexer.BuffersConcat | FCL-2/fcl/v2/ast.ts:145-166 | after `n` iterations the buffers join to the first `n` characters of the text |
| Lexer.TokeniseLoop | FCL-2/fcl/v2/ast.ts:116-170 | the in-place loop with its final `pop` computes `Tokenise` |
| Lexer.Iteration | FCL-2/fcl/v2/ast.ts:145-166 | the in-place update of one iteration (`+=` on the last buffer, `push`) is the step function |
| Lexer.TokeniseEmpty | FCL-2/fcl/v2/ast.ts:116-170 | the empty text has no raw tokens |
| Lexer.TokeniseGluesOperators | FCL-2/fcl/v2/ast.ts:145-152 | two combining characters in a row form one raw token, as in `==` |
| Lexer.TokeniseSplitsSeparators | FCL-2/fcl/v2/ast.ts:154-162 | two separators in a row are two raw tokens, as in `?:` |
| Lexer.TokeniseLookahead | FCL-2/fcl/v2/ast.ts:145-152 | after a word, a combining character that is followed by another opens a buffer that the next one joins, and the following plain character glues on as well |
| Lexer.TokeniseRunOfThree | FCL-2/fcl/v2/ast.ts:145-152 | three combining characters split into a pair and a single |
| Lexer.TokeniseAlternating | FCL-2/fcl/v2/ast.ts:116-170 | a text in which every character stands alone (a separator, or next to separators) lexes to one raw token per character |
| Lexer.BuffersAlternating | FCL-2/fcl/v2/ast.ts:145-166 | the buffer list for such a text after `n` iterations: the single characters, with an empty buffer after a separator |
| Lexer.TokeniseBoundaries | FCL-2/fcl/v2/ast.ts:144-167 | raw tokens are never empty; a raw token ending in a plain character is followed by one starting with a separator or combining character, so a run of plain characters is never cut; a lone combining character is never followed by a token starting with a combining character |
| Lexer.BuffersJoined | FCL-2/fcl/v2/ast.ts:144-164 | the loop keeps those boundaries between its buffers after every iteration |
| Lexer.TokeniseOpens | FCL-2/fcl/v2/ast.ts:155-162 | a text opening with a separator has that separator as its first raw token |
| Lexer.TokeniseAfter | FCL-2/fcl/v2/ast.ts:144-167 | after a separator the lexer starts afresh: the raw tokens of `a + b` are those of `a` followed by those of `b` |
| Lexer.BuffersAfter | FCL-2/fcl/v2/ast.ts:144-164 | after a separator, the buffers of the joined text are the closed buffers of `a` followed by the buffers of `b` alone, at every iteration |
| Lexer.TokeniseWordThen | FCL-2/fcl/v2/ast.ts:155-167 | a run of plain characters followed by a separator is exactly two raw tokens |
| Lexer.TokeniseCombiningThen | FCL-2/fcl/v2/ast.ts:146-153 | a combining character before a separator is a raw token of its own, as `=` in `=>` |
| Lexer.TokeniseSeparator | FCL-2/fcl/v2/ast.ts:155-167 | a separator alone is one raw token |
| Lexer.BuffersPlainPrefix | FCL-2/fcl/v2/ast.ts:162-163 | plain characters from the start of the text all go into one buffer |
| Syntax.Account | FCL-2/fcl/v2/ast.ts:330-351 | a quote token opens a quote when none is open and closes an open one of its kind; brackets move the depth only outside a quote; the index is untouched |
| Syntax.AccountBalance | FCL-2/fcl/v2/ast.ts:330-351 | outside a quote, a run of tokens without quotes moves the depth by its net bracket count and changes nothing else |
| Syntax.QuoteHidesBrackets | FCL-2/fcl/v2/ast.ts:330-351 | inside a quote, tokens other than a quote of the open kind leave the cursor unchanged |
| Parser.ParseNode | FCL-2/fcl/v2/ast.ts:304-625 | a parse never answers "does not apply"; past the end it yields the empty node; a successful parse consumes at least one token and stays within the tokens |
| Parser.SkipWhitespace | FCL-2/fcl/v2/ast.ts:326-329 | stops at the first non-whitespace token; crashes exactly when only whitespace remains |
| Parser.TryAll | FCL-2/fcl/v2/ast.ts:568-624 | trying the alternatives never answers "does not apply"; a success consumes tokens |
| Parser.IdentifierParser | FCL-2/fcl/v2/ast.ts:556-561 | succeeds exactly on a Text token matching `/^\w+$/`, with an identifier node of that name, one token long |
| Parser.StringParser | FCL-2/fcl/v2/ast.ts:423-437 | succeeds only on an opening quote of a truthy kind, and then holds exactly the tokens strictly between it and the closing quote |
| Parser.ParenParser | FCL-2/fcl/v2/ast.ts:544-554 | succeeds only when a `(` opens, the nested parse after it succeeds and a `)` follows that parse; the result is the nested parse's node, with the cursor just past the `)` |
| Parser.ConsumeNode | FCL-2/fcl/v2/ast.ts:353-361 | the nested parse keeps the outer depth and quote state and only moves the token index; past the end it yields the empty node |
| Parser.ArrowBody | FCL-2/fcl/v2/ast.ts:487-494 | a successful inline-function body is an inline-function node spanning from the start to the cursor after the body |
| Parser.ExecutionLoop | FCL-2/fcl/v2/ast.ts:507-540 | a finished call is an execution node of the given callee spanning from the start, and its arguments extend those read so far |
| Parser.BlockLoop | FCL-2/fcl/v2/ast.ts:386-419 | a finished block is a block node spanning from the start, and its statements extend those read so far |
| ParserFacts.SelectMembers | FCL-2/fcl/v2/ast.ts:602 | an alternative is selected by a filter entry exactly when it is in the table with that kind |
| ParserFacts.FilterAdmits | FCL-2/fcl/v2/ast.ts:596-609 | with no filter every alternative runs; with a filter, exactly those whose kind the filter names |
| ParserFacts.FilterLists | FCL-2/fcl/v2/ast.ts:215-225 | the "types" filter runs only the identifier alternative; "executables" runs identifier, both function definitions and the parenthesis, in that order |
| ParserFacts.TryAllPicksFirst | FCL-2/fcl/v2/ast.ts:568-592 | the first alternative that does not decline decides the result |
| ParserFacts.TryAllNoneApplies | FCL-2/fcl/v2/ast.ts:618-624 | when every alternative declines, the token at the cursor is reported as unexpected |
| ParserFacts.TypeFilter | FCL-2/fcl/v2/ast.ts:216-218 | the "types" filter reads exactly one word after any whitespace, reports any other token as unexpected, and crashes on trailing whitespace |
| ParserFacts.DigitsAreWords | FCL-2/fcl/v2/ast.ts:559 | the word test accepts digits and rejects the empty string and punctuation |
| ParserFacts.StringLiteral | FCL-2/fcl/v2/ast.ts:423-437 | a double or back quote opens a string node holding the tokens up to the next quote of its kind; a single quote never does |
| ParserFacts.StringUnclosed | FCL-2/fcl/v2/ast.ts:423-437 | a string quote with no closing quote of its kind runs off the end of the tokens |
| ParserFacts.StringLoopFinds | FCL-2/fcl/v2/ast.ts:427-435 | the string loop stops just after the first quote of its kind |
| ParserFacts.ExecutionSpins | FCL-2/fcl/v2/ast.ts:510-529 | inside an open quote, an argument list at `)` or `,` starts over forever without consuming |
| ParserFacts.LoneWord | FCL-2/fcl/v2/ast.ts:381-561 | a word followed by a token that cannot continue it parses as that one identifier, with no filter and with the executables filter |
| ParserFacts.LoneWordDeclines | FCL-2/fcl/v2/ast.ts:382-554 | every alternative before the identifier declines a lone word |
| ParserFacts.WordIsType | FCL-2/fcl/v2/ast.ts:441-445 | a word reads as the type of a function definition |
| ParserFacts.NamedDeclines | FCL-2/fcl/v2/ast.ts:439-447 | the named-function alternative declines a word followed by a token other than whitespace or `(` |
| ParserFacts.InlineDeclines | FCL-2/fcl/v2/ast.ts:468-479 | the inline-function alternative declines a word without `(` after it |
| ParserFacts.ExecutionDeclines | FCL-2/fcl/v2/ast.ts:497-506 | the execution alternative declines a callee without `(` after it |
| ParserFacts.InlineArrowUnchecked | FCL-2/fcl/v2/ast.ts:468-495 | `x(t1=t2 y` is an inline function with body `y`, whatever sits where `)` and `>` belong, as long as neither is a quote |
| ParserFacts.CallDelimiterThrows | FCL-2/fcl/v2/ast.ts:523-540 | outside quotes and brackets, an argument followed by anything but `,` or `)` throws "got … expected , or )" |
| ParserFacts.WordCallee | FCL-2/fcl/v2/ast.ts:497-508 | a word followed by `(` is the callee, and the argument loop starts after the parenthesis |
| ParserFacts.WordArgument | FCL-2/fcl/v2/ast.ts:510-518 | inside a call, a lone word is read as the next argument |
| ParserFacts.CommaContinues | FCL-2/fcl/v2/ast.ts:521-532 | outside quotes and brackets, `,` after an argument starts the next one |
| ParserFacts.CloseEnds | FCL-2/fcl/v2/ast.ts:521-535 | outside quotes and brackets, `)` ends the call with the arguments read, one bracket below the start |
| ParserFacts.StartsAt | FCL-2/fcl/v2/ast.ts:563-568 | at a token other than whitespace, a parse runs the alternatives of its filter from that token |
| ParserFacts.BlockFirst | FCL-2/fcl/v2/ast.ts:381-421 | a parse from `{` whose block loop yields a node yields that block, Block being the first alternative tried |
| ParserFacts.BlockOpens | FCL-2/fcl/v2/ast.ts:383-387 | at `{` the Block alternative reads statements from the next token on, with none read yet |
| ParserFacts.BlockStatement | FCL-2/fcl/v2/ast.ts:388-398 | a token other than whitespace, `;` and `}` starts a statement: a failing nested parse fails the block, a successful one appends its node to the statements and the loop goes on after it |
| ParserFacts.BlockSemicolon | FCL-2/fcl/v2/ast.ts:400-410 | between statements, `;` is skipped |
| ParserFacts.BlockClose | FCL-2/fcl/v2/ast.ts:400-414 | between statements, `}` ends the block with exactly the statements read, spanning from the start to just past the `}` |
| ParserFacts.NamedShape | FCL-2/fcl/v2/ast.ts:439-466 | on a word, a space, a word, `(`, `)` and any whitespace, the named-function alternative's result is the nested parse of the body: a failure of the body fails it, and a body node gives a named-function node carrying the name and that body, ending where the body ends |
| ParserFacts.ParenWord | FCL-2/fcl/v2/ast.ts:544-554 | on `(w)` for a word `w`, the Parenthesis alternative yields the identifier `w` and continues after the `)` |
| ParserFacts.TryAllOk | FCL-2/fcl/v2/ast.ts:568-609 | a successful dispatch is the result of one of the alternatives it ran |
| ParserFacts.TryAllNoneOk | FCL-2/fcl/v2/ast.ts:568-624 | when no alternative yields a node, the dispatch does not either |
| ParserFacts.CurlyOnlyBlock | FCL-2/fcl/v2/ast.ts:381-561 | at `{` only the Block alternative can yield a node: the others decline, or throw when they try `{` as a callee |
| ParserFacts.CurlyIsBlock | FCL-2/fcl/v2/ast.ts:563-624 | a successful parse from `{` is a block node starting at that `{` |
| ParserFacts.ArrowNotEarlier | FCL-2/fcl/v2/ast.ts:382-466 | Block, String and the named-function alternative all decline a word followed by `(` |
| ParserFacts.ArrowStatement | FCL-2/fcl/v2/ast.ts:468-495 | `f()=>b` before an inert token parses as the inline function with body `b`, spanning the six tokens |
| Frontend.Ast | FCL-2/fcl/v2/ast.ts:629-644 | the root is a node or a failure, never "does not apply"; a root node is always a block starting at the wrapping `{` |
| Frontend.AstEmpty | FCL-2/fcl/v2/ast.ts:629-644 | the empty program is an empty block spanning its two braces |
| Frontend.AstCall | FCL-2/fcl/v2/ast.ts:629-644 | `f(a,b)` is a block holding one call of `f` with the identifiers `a` and `b` |
| Frontend.LexCall | FCL-2/fcl/v2/ast.ts:116-170 | `{f(a,b)}` lexes to one raw token per character |
| Frontend.ConvertCall | FCL-2/fcl/v2/ast.ts:172-173 | those raw tokens classify to the braces, parentheses and comma of the table and three Text tokens |
| Frontend.CallBlock | FCL-2/fcl/v2/ast.ts:382-421 | for any three words, `{f(a,b)}` parses as a block with that one call, ending one bracket below the start |
| Frontend.CallOfTwo | FCL-2/fcl/v2/ast.ts:497-542 | the statement `f(a,b)` is a call, reached after the four alternatives before Execution decline |
| Frontend.CallNotDefinition | FCL-2/fcl/v2/ast.ts:382-495 | Block, String and both function-definition alternatives decline `f(a,b)` |
| Frontend.CallExecution | FCL-2/fcl/v2/ast.ts:497-542 | the Execution alternative reads `f(a,b)` as a call with two arguments |
| Frontend.WrappedOpens | FCL-2/fcl/v2/ast.ts:631 | the wrapped code always lexes and classifies to a token list opening with `{` |
| Frontend.MainStatement | FCL-2/fcl/v2/ast.ts:439-466 | for any two words, `t n() {}` inside a block is a named function `n` whose body is the empty block, ending before the outer `}` |
| Frontend.MainContent | FCL-2/fcl/v2/ast.ts:388-414 | for any two words, the statements of `{t n() {}}` are that one named function, closed by the last `}` |
| Frontend.MainBlock | FCL-2/fcl/v2/ast.ts:382-421 | for any two words, `{t n() {}}` is a block holding that one named function |
| Frontend.LexMain | FCL-2/fcl/v2/ast.ts:116-170 | for any two words, `{t n() {}}` lexes to the two words and one raw token per other character |
| Frontend.AstMain | FCL-2/fcl/v2/ast.ts:629-644 | `void main() {}` is a block holding the named function `main` with an empty block as body |
| Frontend.InlineContent | FCL-2/fcl/v2/ast.ts:388-414 | for any two words, the statements of `{f()=>b}` are that one inline function, closed by the `}` |
| Frontend.InlineBlock | FCL-2/fcl/v2/ast.ts:382-495 | for any two words, `{f()=>b}` is a block holding the inline function with body `b` |
| Frontend.LexInline | FCL-2/fcl/v2/ast.ts:116-170 | for any two words, `{f()=>b}` lexes to the two words and one raw token per other character, with `=` and `>` apart |
| Frontend.AstInline | FCL-2/fcl/v2/ast.ts:629-644 | `x()=>y` is a block holding the inline function whose body is the identifier `y` |
| Frontend.LexStopsAtClose | FCL-2/fcl/v2/ast.ts:116-173 | `{}{}` lexes and classifies to four single braces |
| Frontend.ParseStopsAtClose | FCL-2/fcl/v2/ast.ts:382-421 | on `{}{}` the block parser stops at the first `}`, leaving the rest unread |
| Frontend.AstStopsAtClose | FCL-2/fcl/v2/ast.ts:629-644 | the root block ends at the first `}` that closes it and the rest is dropped: `Ast("}{")` is the empty block |
| Frontend.PrototypeWordLeaks | FCL-2/fcl/v2/ast.ts:172-173 | `toString` is a word, the lookup as written finds an inherited property for it, and the classifier keeps it a Text token |
| Editor.IndentLines | FCL-2/src/modules/editor.tsx:95 | `replace(/^/gm, '    ')` prefixes every line of the text with four spaces and keeps the line breaks |
| Editor.OutdentLines | FCL-2/src/modules/editor.tsx:89 | `replace(/^(\t| {4})/gm, '')` strips one tab, or else four spaces, from the front of every line |
| Editor.OutdentIndent | FCL-2/src/modules/editor.tsx:89-98 | stripping undoes indenting on any text |
| Editor.IndentLength | FCL-2/src/modules/editor.tsx:95-98 | indenting adds four characters per line |
| Editor.OutdentShorter | FCL-2/src/modules/editor.tsx:89-93 | stripping never lengthens a text |
| Editor.DomOffset | FCL-2/src/modules/editor.tsx:73 | an offset assigned to the selection lies within the text; an in-range offset is kept and a negative one wraps to the end |
| Editor.LineStartSpec | FCL-2/src/modules/editor.tsx:64 | the caret's line starts after the last newline before the caret, with the clamped search at offset 0 |
| Editor.LineEndSpec | FCL-2/src/modules/editor.tsx:65-66 | the caret's line ends at the first newline from the caret on, or at the text's end |
| Editor.TabAtCaret | FCL-2/src/modules/editor.tsx:79-83 | Tab at a caret puts four spaces before it, moves the caret after them and keeps the rest of the text |
| Editor.ShiftTabRemovesTab | FCL-2/src/modules/editor.tsx:70-73 | Shift-Tab on a line opening with a tab removes exactly that tab, and the caret keeps its place in the remaining text |
| Editor.ShiftTabRemovesSpaces | FCL-2/src/modules/editor.tsx:74-77 | Shift-Tab on a line opening with four spaces removes them; a caret past them moves back four and keeps the text around it |
| Editor.ShiftTabNothingToRemove | FCL-2/src/modules/editor.tsx:68-78 | Shift-Tab on a line opening with neither leaves text and caret unchanged |
| Editor.ShiftTabUndoesTab | FCL-2/src/modules/editor.tsx:62-83 | at the start of a line, Shift-Tab undoes Tab exactly |
| Editor.TabOverSelection | FCL-2/src/modules/editor.tsx:94-98 | Tab over a selection indents every selected line, keeps the text around it and stretches the selection over the result |
| Editor.ShiftTabOverSelection | FCL-2/src/modules/editor.tsx:88-93 | Shift-Tab over a selection strips every selected line, keeps the text around it and shrinks the selection by what was removed |
| Editor.ShiftTabUndoesTabOverSelection | FCL-2/src/modules/editor.tsx:84-99 | over a selection, Shift-Tab undoes Tab: value and selection come back |
| Editor.TabCaretAsWrittenMisplaces | FCL-2/src/modules/editor.tsx:72-73 | on `\tab`, the caret rule as written lands one place short, or at the text's end for a caret before the tab; the model's handler keeps the caret in place |

## Left out

- Debug tracing: the `debug` flag, the `depth` counter and every `console.log`.
- Unused helpers: `getKind` and `formatToken`, which serve only debugging.
- Unused context: the `context` field of `ErrorData` and the `end` field of `NodeContext`. The code never reads either. `error` returns its text, which is `Parser.ErrorMessage`.
- Other parts of the repository: code generation (`langs/tojs.ts`), `main.ts`, `link.ts`, and the user interface (console, output, top bar, panel, layout, store, `embedScript`, `utils`). They are not part of this model.
- Editor side effects: `preventDefault` and the `inputUpdate` call after the handler are input/output.
- Non-Tab keys: the handler ignores every key other than Tab, so the model takes only Tab, with `shift` for the Shift key.
- Parser.ParseNode: non-termination is cut off by `fuel`. A parse that runs out reports `OutOfFuel`, whereas the code would spin forever (stack overflow or a hung page). Results obtained within the budget are exactly the code's.
- Parser.ParseNode: `ParserContext` is copied by value where the code copies it with `{ ...position }`. The code's aliasing has no further effect, since every alternative starts from the saved copy.
- Lexer.Tokenise: JavaScript strings are UTF-16 code units; the model's strings are sequences of Dafny characters (Unicode scalar values). The lexer treats only ASCII characters specially, so it is the same on text without surrogate pairs.
- Editor.TabAtCaret: the caret lemmas assume the text is shorter than 2^32 characters. Beyond that, the DOM's 32-bit offsets wrap; `Editor.DomOffset` models the wrap but the lemmas do not cover it.
- Editor.ShiftTabRemovesSpaces: for a caret inside the four spaces, it states only that the caret keeps its offset (clamped to the shorter text), as the code does. It does not state where that lands in the remaining text.
- Editor.HandleTab: the selection case uses `selectionStart < selectionEnd`. A reversed DOM selection is normalised by the browser before the handler sees it.
- Editor.HandleTab: after Shift-Tab removes a leading tab, the caret follows the corrected rule `TabCaret`, not lines 72-73 as written (`TabCaretAsWritten`, first row under "## Findings"). Offsets and `.length` (editor.tsx:58-59, 91, 98) count UTF-16 code units, while the model counts Dafny characters; the two agree on text without surrogate pairs.
- Tokens.ConvertTokens: classifies by the table's own keys (`Classify`), not by the object-literal lookup as written (second row under "## Findings"). So a word such as `toString` becomes a Text token here, whereas the code finds an inherited function.
- Frontend.Ast: inherits that lookup. For the code `toString`, the code throws "unexpected ?" from the Execution alternative; the model instead yields a block holding the identifier `toString`.

## Findings

| source | as written | input that shows it | evidently intended | confidence | as-written member | corrected member |
|---|---|---|---|---|---|---|
| FCL-2/src/modules/editor.tsx:72-73 | after removing a leading tab, the caret moves to `start - offset - 1`, with `offset` 1 when `start - 1 > lineStart` | value `"\tab"` with the caret after `b` (offset 3): the caret lands at 1, between `a` and `b`; with the caret at 0 it becomes -1, which the DOM wraps to the end of the text | the caret moves back one place when it stood after the tab and stays otherwise, like the four-space branch on lines 76-77 | not executed | Editor.TabCaretAsWrittenMisplaces | Editor.ShiftTabRemovesTab |
| FCL-2/fcl/v2/ast.ts:172-173 | `TokenMap[t] ?? { kind: Text, text: t }` indexes an object literal | the word `toString` (also `constructor`, `valueOf`, `__proto__`, …) finds the function inherited from `Object.prototype`, which is neither a token nor nullish, so the word is not a Text token and cannot be an identifier | only the table's own keys are symbols; every other string is a Text token | not executed | Tokens.LookupAsWritten | Tokens.ClassifySpec |
