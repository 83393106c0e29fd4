/** The backtracking parser `ParseNode` of the FCL v2 front end
    (FCL-2/fcl/v2/ast.ts, lines 297-625).

    Every alternative starts from the same cursor; the first one that yields a
    node wins, and one that throws ends the whole parse (only the "type"
    sub-parse of the two function-definition alternatives is guarded). A
    JavaScript `TypeError` from reading a token past the end is `Crashed`. The
    source may loop forever; the model counts `fuel`, one unit per alternative
    tried and per loop iteration, and reports `OutOfFuel` when it runs out. */
module Parser {
  import opened Options
  import opened Tokens
  import opened Syntax

  /** The messages `ParseNode` throws. */
  datatype SyntaxError =
    | Unexpected(token: Token)
    | BlockDelimiter(token: Token)
    | CallDelimiter(token: Token)
    | InvalidFunctionName(token: Token)

  /** The thrown string. */
  function ErrorMessage(e: SyntaxError): string {
    match e
    case Unexpected(t) => "unexpected " + GetErrFormat(t)
    case BlockDelimiter(t) => "got " + GetErrFormat(t) + " expected ; or }"
    case CallDelimiter(t) => "got " + GetErrFormat(t) + " expected , or )"
    case InvalidFunctionName(t) => "invalid function name " + GetText(t)
  }

  /** Why a parse stopped: a thrown message, a `TypeError` from a missing
      token, or the model's step budget running out. */
  datatype Failure = Thrown(error: SyntaxError) | Crashed | OutOfFuel

  /** The three outcomes of a parse step: a value, "this alternative does
      not apply" (the JavaScript `undefined` return), or a failure. */
  datatype Parsed<+T> = Ok(value: T) | NoMatch | Failed(failure: Failure)
  {
    predicate IsFailure() {
      !Ok?
    }

    function PropagateFailure<U>(): Parsed<U>
      requires !Ok?
    {
      if NoMatch? then NoMatch else Failed(failure)
    }

    function Extract(): T
      requires Ok?
    {
      value
    }
  }

  /** `NodeParseOut`: the node and the cursor after it. */
  datatype Outcome = Outcome(node: Node, cursor: Cursor)

  /** The result of `expectSymbol(type)`: whether the consumed token had the
      type, and the cursor after it. */
  datatype Expected = Expected(found: bool, cursor: Cursor)

  /** `consume()` where the token is then read: there must be one. */
  function Take(toks: seq<Token>, c: Cursor): (r: Parsed<Cursor>)
    ensures r.Ok? <==> c.index < |toks|
    ensures r.Ok? ==> r.value == c.(index := c.index + 1)
    ensures !r.Ok? ==> r == Failed(Crashed)
  {
    if c.index < |toks| then Ok(c.(index := c.index + 1)) else Failed(Crashed)
  }

  /** `consumeWhitespace()`: skip whitespace tokens; the loop reads the kind of
      the token it stops at, so running off the end crashes. */
  function SkipWhitespace(toks: seq<Token>, c: Cursor): (r: Parsed<Cursor>)
    ensures r.Ok? || r == Failed(Crashed)
    ensures r.Ok? ==> r.value == c.(index := r.value.index)
    ensures r.Ok? ==> c.index <= r.value.index < |toks| && toks[r.value.index].Kind() != Whitespace
    ensures r.Ok? ==> forall k :: c.index <= k < r.value.index ==> toks[k].Kind() == Whitespace
    ensures !r.Ok? <==> forall k :: c.index <= k < |toks| ==> toks[k].Kind() == Whitespace
    decreases |toks| - c.index
  {
    if c.index >= |toks| then Failed(Crashed)
    else if toks[c.index].Kind() == Whitespace then SkipWhitespace(toks, c.(index := c.index + 1))
    else Ok(c)
  }

  /** `expectSymbol(type)` without `sure`: consume and account one token and
      report whether it had the expected type; a mismatch is not an error. */
  function Expect(toks: seq<Token>, c: Cursor, ty: TokenType): (r: Parsed<Expected>)
    ensures r.Ok? <==> c.index < |toks|
    ensures !r.Ok? ==> r == Failed(Crashed)
    ensures r.Ok? ==> r.value == ExpectAt(toks, c, ty)
  {
    if c.index < |toks| then Ok(ExpectAt(toks, c, ty)) else Failed(Crashed)
  }

  /** `expectSymbol(type)` where the token is known to exist. */
  function ExpectAt(toks: seq<Token>, c: Cursor, ty: TokenType): (r: Expected)
    requires c.index < |toks|
    ensures r.found == Is(toks[c.index], ty)
    ensures r.cursor == Account(c, toks[c.index]).(index := c.index + 1)
  {
    Expected(Is(toks[c.index], ty), Account(c, toks[c.index]).(index := c.index + 1))
  }

  /** `/^\w+$/`: a nonempty run of ASCII letters, digits and underscores. */
  predicate IsWordChar(ch: char) {
    ('a' <= ch <= 'z') || ('A' <= ch <= 'Z') || ('0' <= ch <= '9') || ch == '_'
  }

  predicate IsWord(s: string) {
    |s| > 0 && forall i :: 0 <= i < |s| ==> IsWordChar(s[i])
  }

  /** The entries of the `parsers` table, in order. */
  datatype Alternative =
    | BlockAlt
    | StringAlt
    | NamedFunctionAlt
    | InlineFunctionAlt
    | ExecutionAlt
    | ParenAlt
    | IdentifierAlt
  {
    /** The kind an entry is registered under; the parenthesis entry has none. */
    function Tag(): Option<NodeKind> {
      match this
      case BlockAlt => Some(Block)
      case StringAlt => Some(String)
      case NamedFunctionAlt => Some(FunctionDefinition)
      case InlineFunctionAlt => Some(FunctionDefinition)
      case ExecutionAlt => Some(Execution)
      case ParenAlt => None
      case IdentifierAlt => Some(Identifier)
    }
  }

  const AllAlternatives: seq<Alternative> :=
    [BlockAlt, StringAlt, NamedFunctionAlt, InlineFunctionAlt, ExecutionAlt, ParenAlt, IdentifierAlt]

  /** `parsers.filter(p => p[0] == f)`, keeping table order. */
  function Select(alts: seq<Alternative>, f: Option<NodeKind>): seq<Alternative> {
    if alts == [] then []
    else if alts[0].Tag() == f then [alts[0]] + Select(alts[1..], f)
    else Select(alts[1..], f)
  }

  /** `filter.map(f => parsers.filter(p => p[0] == f)).flat()`. */
  function SelectAll(fs: NodeFilter): seq<Alternative> {
    if fs == [] then [] else Select(AllAlternatives, fs[0]) + SelectAll(fs[1..])
  }

  /** The alternatives a `ParseNode` call tries, in order: the whole table
      without a filter, else the entries of each listed kind in turn. */
  function AlternativesFor(filter: Option<NodeFilter>): seq<Alternative> {
    match filter
    case None => AllAlternatives
    case Some(fs) => SelectAll(fs)
  }

  /** `ParseNode({scriptCode: toks, start}, filter)`. Past the end it returns an
      empty node without reading anything; otherwise it skips whitespace and
      runs the alternatives. */
  function ParseNode(toks: seq<Token>, start: nat, filter: Option<NodeFilter>, fuel: nat): (r: Parsed<Outcome>)
    ensures !r.NoMatch?
    ensures start >= |toks| ==> r == Ok(Outcome(EmptyNode(Span(0, |toks|)), Fresh(start)))
    ensures r.Ok? && start < |toks| ==> start < r.value.cursor.index <= |toks|
    decreases fuel, 1, 0
  {
    if start >= |toks| then Ok(Outcome(EmptyNode(Span(0, |toks|)), Fresh(start)))
    else
      var c :- SkipWhitespace(toks, Fresh(start));
      TryAll(toks, start, c, AlternativesFor(filter), fuel)
  }

  /** `runParser` over a list: each alternative from the same cursor, the
      first node wins; when none yields one, the token at the cursor is
      reported as unexpected. */
  function TryAll(toks: seq<Token>, start: nat, c: Cursor, alts: seq<Alternative>, fuel: nat): (r: Parsed<Outcome>)
    ensures !r.NoMatch?
    ensures r.Ok? ==> c.index < r.value.cursor.index <= |toks|
    decreases fuel, 0, |alts|
  {
    if alts == [] then
      if c.index < |toks| then Failed(Thrown(Unexpected(toks[c.index]))) else Failed(Crashed)
    else if fuel == 0 then Failed(OutOfFuel)
    else
      var r := RunAlt(toks, start, c, alts[0], fuel - 1);
      if r.NoMatch? then TryAll(toks, start, c, alts[1..], fuel) else r
  }

  /** One entry of the `parsers` table. */
  function RunAlt(toks: seq<Token>, start: nat, c: Cursor, alt: Alternative, fuel: nat): (r: Parsed<Outcome>)
    ensures r.Ok? ==> c.index < r.value.cursor.index <= |toks|
    decreases fuel, 4, 0
  {
    match alt
    case BlockAlt => BlockParser(toks, start, c, fuel)
    case StringAlt => StringParser(toks, start, c)
    case NamedFunctionAlt => NamedFunctionParser(toks, start, c, fuel)
    case InlineFunctionAlt => InlineFunctionParser(toks, start, c, fuel)
    case ExecutionAlt => ExecutionParser(toks, start, c, fuel)
    case ParenAlt => ParenParser(toks, c, fuel)
    case IdentifierAlt => IdentifierParser(toks, start, c)
  }

  /** `ConsumeNode(filter)`: a nested `ParseNode` from the current token; only
      the token index is copied back, never the depth or the quote state. */
  function ConsumeNode(toks: seq<Token>, c: Cursor, filter: Option<NodeFilter>, fuel: nat): (r: Parsed<Outcome>)
    ensures !r.NoMatch?
    ensures r.Ok? ==> r.value.cursor == c.(index := r.value.cursor.index)
    ensures r.Ok? && c.index < |toks| ==> c.index < r.value.cursor.index <= |toks|
    ensures c.index >= |toks| ==> r == Ok(Outcome(EmptyNode(Span(0, |toks|)), c))
    decreases fuel, 1, 1
  {
    var o :- ParseNode(toks, c.index, filter, fuel);
    Ok(Outcome(o.node, c.(index := o.cursor.index)))
  }

  /** The Block alternative: `{`, then statements separated by `;` up to `}`. */
  function BlockParser(toks: seq<Token>, start: nat, c: Cursor, fuel: nat): (r: Parsed<Outcome>)
    ensures r.Ok? ==> c.index < r.value.cursor.index <= |toks|
    ensures r.Ok? ==> r.value.node.BlockNode? && r.value.node.pos == Span(start, r.value.cursor.index)
    decreases fuel, 3, 0
  {
    var c1 :- Take(toks, c);
    if !Is(toks[c.index], OpenCurly) then NoMatch
    else BlockLoop(toks, start, c1, [], fuel)
  }

  /** The Block loop. A statement is parsed unless the next token is `;` or
      `}`; when the loop runs out of tokens the alternative does not apply. */
  function BlockLoop(toks: seq<Token>, start: nat, c: Cursor, content: seq<Node>, fuel: nat): (r: Parsed<Outcome>)
    ensures r.Ok? ==> c.index < r.value.cursor.index <= |toks|
    ensures r.Ok? ==> r.value.node.BlockNode? && r.value.node.pos == Span(start, r.value.cursor.index)
    ensures r.Ok? ==> content <= r.value.node.content
    decreases fuel, 2, 0
  {
    if c.index >= |toks| then NoMatch
    else if fuel == 0 then Failed(OutOfFuel)
    else
      var c1 :- SkipWhitespace(toks, c);
      var p := toks[c1.index];
      if !(Is(p, CloseCurly) || Is(p, SemiColon)) then
        var o :- ConsumeNode(toks, c1, None, fuel);
        BlockLoop(toks, start, o.cursor, content + [o.node], fuel - 1)
      else if c1.inside || c1.depth > 0 then
        BlockLoop(toks, start, c1, content, fuel - 1)
      else
        var c2 :- SkipWhitespace(toks, Account(c1, p));
        var c3 := c2.(index := c2.index + 1);
        var t := toks[c2.index];
        if Is(t, SemiColon) then BlockLoop(toks, start, c3, content, fuel - 1)
        else if Is(t, CloseCurly) then Ok(Outcome(BlockNode(Span(start, c3.index), content), c3))
        else Failed(Thrown(BlockDelimiter(t)))
  }

  /** The String alternative: an opening quote whose kind is truthy (so not
      a single quote), then every token up to the next quote of that kind. */
  function StringParser(toks: seq<Token>, start: nat, c: Cursor): (r: Parsed<Outcome>)
    ensures r.Ok? ==> c.index < r.value.cursor.index <= |toks|
    ensures r.Ok? ==> c.index + 2 <= r.value.cursor.index
    ensures r.Ok? ==> IsTruthy(QuoteOf(toks[c.index]))
    ensures r.Ok? ==> r.value.node == StringNode(Span(start, r.value.cursor.index), toks[c.index + 1..r.value.cursor.index - 1])
  {
    var c1 :- Take(toks, c);
    var q := QuoteOf(toks[c.index]);
    if !IsTruthy(q) then NoMatch
    else StringLoop(toks, start, Account(c1, toks[c.index]), q.value, [])
  }

  /** The String loop: buffer tokens until one of quote kind `q`. */
  function StringLoop(toks: seq<Token>, start: nat, c: Cursor, q: QuoteType, buf: seq<Token>): (r: Parsed<Outcome>)
    ensures r.Ok? || r == Failed(Crashed)
    ensures r.Ok? ==> c.index < r.value.cursor.index <= |toks|
    ensures r.Ok? ==> QuoteOf(toks[r.value.cursor.index - 1]) == Some(q)
    ensures r.Ok? ==> forall k :: c.index <= k < r.value.cursor.index - 1 ==> QuoteOf(toks[k]) != Some(q)
    ensures r.Ok? ==> r.value.node == StringNode(Span(start, r.value.cursor.index), buf + toks[c.index..r.value.cursor.index - 1])
    decreases |toks| - c.index
  {
    var c1 :- Take(toks, c);
    var t := toks[c.index];
    if QuoteOf(t) == Some(q) then
      assert buf + toks[c.index..c.index] == buf;
      Ok(Outcome(StringNode(Span(start, c1.index), buf), Account(c1, t)))
    else
      var r := StringLoop(toks, start, Account(c1, t), q, buf + [t]);
      assert r.Ok? ==> buf + [t] + toks[c.index + 1..r.value.cursor.index - 1] == buf + toks[c.index..r.value.cursor.index - 1];
      r
  }

  /** The guarded "type" sub-parse `ConsumeNode(NodeFilters.types)` of both
      function-definition alternatives: any throw means "does not apply". */
  function TypePrefix(toks: seq<Token>, c: Cursor, fuel: nat): (r: Parsed<Cursor>)
    ensures r.Ok? ==> r.value == c.(index := r.value.index) && c.index <= r.value.index
    ensures r.Ok? && c.index < |toks| ==> r.value.index <= |toks|
    ensures r.Failed? ==> r == Failed(OutOfFuel)
    decreases fuel, 2, 0
  {
    match ConsumeNode(toks, c, Some(Types), fuel)
    case Ok(o) => Ok(o.cursor)
    case Failed(OutOfFuel) => Failed(OutOfFuel)
    case _ => NoMatch
  }

  /** The NamedFunctionDefinition alternative: `type name() body`. */
  function NamedFunctionParser(toks: seq<Token>, start: nat, c: Cursor, fuel: nat): (r: Parsed<Outcome>)
    ensures r.Ok? ==> c.index < r.value.cursor.index <= |toks|
    ensures r.Ok? ==> r.value.node.NamedFunctionNode? && r.value.node.pos == Span(start, r.value.cursor.index)
    decreases fuel, 3, 0
  {
    var c1 :- TypePrefix(toks, c, fuel);
    if c1.index >= |toks| then Failed(Crashed)
    else if !Is(toks[c1.index], Space) then NoMatch
    else
      var c2 := c1.(index := c1.index + 1);
      var name :- ConsumeNode(toks, c2, Some([Some(Identifier)]), fuel);
      if !name.node.IdentifierNode? then
        if c2.index < |toks| then Failed(Thrown(InvalidFunctionName(toks[c2.index]))) else Failed(Crashed)
      else
        var open :- Expect(toks, name.cursor, OpenParen);
        if !open.found then NoMatch
        else
          var close :- Expect(toks, open.cursor, CloseParen);
          var c3 :- SkipWhitespace(toks, close.cursor);
          var body :- ConsumeNode(toks, c3, None, fuel);
          Ok(Outcome(NamedFunctionNode(Span(start, body.cursor.index), name.node.name, body.node), body.cursor))
  }

  /** The InlineFunctionDefinition alternative: `type() => body`. */
  function InlineFunctionParser(toks: seq<Token>, start: nat, c: Cursor, fuel: nat): (r: Parsed<Outcome>)
    ensures r.Ok? ==> c.index < r.value.cursor.index <= |toks|
    ensures r.Ok? ==> r.value.node.InlineFunctionNode? && r.value.node.pos == Span(start, r.value.cursor.index)
    decreases fuel, 3, 0
  {
    var c1 :- TypePrefix(toks, c, fuel);
    var open :- Expect(toks, c1, OpenParen);
    if !open.found then NoMatch
    else
      var close :- Expect(toks, open.cursor, CloseParen);
      var c2 :- SkipWhitespace(toks, close.cursor);
      if !Is(toks[c2.index], Equal) then NoMatch
      else ArrowBody(toks, start, c2, fuel)
  }

  /** The rest of an inline function once the `=` is seen: the token where
      `>` belongs, whitespace, and the body. */
  function ArrowBody(toks: seq<Token>, start: nat, c: Cursor, fuel: nat): (r: Parsed<Outcome>)
    requires c.index < |toks|
    ensures r.Ok? ==> c.index < r.value.cursor.index <= |toks|
    ensures r.Ok? ==> r.value.node.InlineFunctionNode? && r.value.node.pos == Span(start, r.value.cursor.index)
    decreases fuel, 2, 5
  {
    var eq := ExpectAt(toks, c, Equal);
    var arrow :- Expect(toks, eq.cursor, RightChevron);
    var c3 :- SkipWhitespace(toks, arrow.cursor);
    var body :- ConsumeNode(toks, c3, None, fuel);
    Ok(Outcome(InlineFunctionNode(Span(start, body.cursor.index), body.node), body.cursor))
  }

  /** The Execution alternative: an executable callee, `(`, arguments
      separated by `,`, `)`. */
  function ExecutionParser(toks: seq<Token>, start: nat, c: Cursor, fuel: nat): (r: Parsed<Outcome>)
    ensures r.Ok? ==> c.index < r.value.cursor.index <= |toks|
    ensures r.Ok? ==> r.value.node.ExecutionNode? && r.value.node.pos == Span(start, r.value.cursor.index)
    decreases fuel, 3, 0
  {
    var callee :- ConsumeNode(toks, c, Some(Executables), fuel);
    var c1 :- SkipWhitespace(toks, callee.cursor);
    if !Is(toks[c1.index], OpenParen) then NoMatch
    else ExecutionLoop(toks, start, callee.node, c1.(index := c1.index + 1), [], fuel)
  }

  /** The Execution loop head: an argument is parsed unless the next token is
      `)` or `,`; when the loop runs out of tokens the alternative does not
      apply. */
  function ExecutionLoop(toks: seq<Token>, start: nat, callee: Node, c: Cursor, args: seq<Node>, fuel: nat): (r: Parsed<Outcome>)
    ensures r.Ok? ==> c.index < r.value.cursor.index <= |toks|
    ensures r.Ok? ==> r.value.node.ExecutionNode? && r.value.node.pos == Span(start, r.value.cursor.index)
    ensures r.Ok? ==> r.value.node.callee == callee && args <= r.value.node.args
    decreases fuel, 2, 0
  {
    if c.index >= |toks| then NoMatch
    else if fuel == 0 then Failed(OutOfFuel)
    else
      var c1 :- SkipWhitespace(toks, c);
      var p := toks[c1.index];
      if Is(p, CloseParen) || Is(p, Comma) then
        ArgumentEnd(toks, start, callee, c1, args, fuel - 1)
      else
        var o :- ConsumeNode(toks, c1, None, fuel);
        ArgumentEnd(toks, start, callee, o.cursor, args + [o.node], fuel - 1)
  }

  /** The Execution loop tail: the next token is accounted without being
      consumed; inside a quote or an open bracket the loop starts over,
      otherwise `,` continues, `)` ends the call and anything else throws. */
  function ArgumentEnd(toks: seq<Token>, start: nat, callee: Node, c: Cursor, args: seq<Node>, fuel: nat): (r: Parsed<Outcome>)
    ensures r.Ok? ==> c.index < r.value.cursor.index <= |toks|
    ensures r.Ok? ==> r.value.node.ExecutionNode? && r.value.node.pos == Span(start, r.value.cursor.index)
    ensures r.Ok? ==> r.value.node.callee == callee && args <= r.value.node.args
    decreases fuel, 3, 1
  {
    var c1 :- SkipWhitespace(toks, c);
    var c2 := Account(c1, toks[c1.index]);
    if c2.inside || c2.depth > 0 then ExecutionLoop(toks, start, callee, c2, args, fuel)
    else
      var c3 := c2.(index := c2.index + 1);
      var t := toks[c2.index];
      if Is(t, Comma) then ExecutionLoop(toks, start, callee, c3, args, fuel)
      else if Is(t, CloseParen) then Ok(Outcome(ExecutionNode(Span(start, c3.index), callee, args), c3))
      else Failed(Thrown(CallDelimiter(t)))
  }

  /** The parenthesis alternative: `(`, a node, `)`; the result is the inner
      node itself. */
  function ParenParser(toks: seq<Token>, c: Cursor, fuel: nat): (r: Parsed<Outcome>)
    ensures r.Ok? ==> c.index < r.value.cursor.index <= |toks|
    ensures r.Ok? ==> Is(toks[c.index], OpenParen) && Is(toks[r.value.cursor.index - 1], CloseParen)
    ensures r.Ok? ==> ParseNode(toks, c.index + 1, None, fuel).Ok?
    ensures r.Ok? ==> r.value.node == ParseNode(toks, c.index + 1, None, fuel).value.node
    ensures r.Ok? ==> r.value.cursor.index == ParseNode(toks, c.index + 1, None, fuel).value.cursor.index + 1
    decreases fuel, 3, 0
  {
    var c1 :- Take(toks, c);
    if !Is(toks[c.index], OpenParen) then NoMatch
    else
      var inner :- ConsumeNode(toks, Account(c1, toks[c.index]), None, fuel);
      var close :- Expect(toks, inner.cursor, CloseParen);
      if !close.found then NoMatch
      else Ok(Outcome(inner.node, close.cursor))
  }

  /** The Identifier alternative: one Text token matching `/^\w+$/`. */
  function IdentifierParser(toks: seq<Token>, start: nat, c: Cursor): (r: Parsed<Outcome>)
    ensures r.Ok? <==> c.index < |toks| && toks[c.index].TextToken? && IsWord(toks[c.index].text)
    ensures r.Ok? ==> r.value.node == IdentifierNode(Span(start, c.index + 1), toks[c.index].text)
    ensures r.Ok? ==> r.value.cursor == c.(index := c.index + 1)
    ensures !r.Ok? ==> r == NoMatch || r == Failed(Crashed)
  {
    var c1 :- Take(toks, c);
    var t := toks[c.index];
    if t.TextToken? && IsWord(t.text) then Ok(Outcome(IdentifierNode(Span(start, c1.index), t.text), c1))
    else NoMatch
  }
}
