/** The syntax tree of the FCL v2 front end and the parser's cursor state
    (FCL-2/fcl/v2/ast.ts, lines 42-46 and 175-293), with the `account`
    transition that tracks quotes and bracket depth (lines 330-352). */
module Syntax {
  import opened Options
  import opened Tokens

  /** `QuoteType`. */
  datatype QuoteType = Single | Double | Back

  /** `quoteTypeMap[t.type]`: the quote kind of a quote token, if any. */
  function QuoteOf(t: Token): Option<QuoteType> {
    match t.Type()
    case Some(SingleQuote) => Some(Single)
    case Some(DoubleQuote) => Some(Double)
    case Some(BackQuote) => Some(Back)
    case _ => None
  }

  /** JavaScript truthiness of a looked-up quote kind: `QuoteType.Single` is
      the number 0, which is falsy, and a missing entry is `undefined`. */
  predicate IsTruthy(q: Option<QuoteType>) {
    q.Some? && q.value != Single
  }

  /** The token's `type` is `ty` (Text tokens have no type). */
  predicate Is(t: Token, ty: TokenType) {
    t.Type() == Some(ty)
  }

  predicate IsOpening(t: Token) {
    Is(t, OpenCurly) || Is(t, OpenSquare) || Is(t, OpenParen)
  }

  predicate IsClosing(t: Token) {
    Is(t, CloseCurly) || Is(t, CloseSquare) || Is(t, CloseParen)
  }

  /** The bracket weight of a token: +1 opening, -1 closing, 0 otherwise. */
  function Weight(t: Token): int {
    if IsOpening(t) then 1 else if IsClosing(t) then -1 else 0
  }

  /** `ParserContext`: the token index, the bracket depth and the quote state. */
  datatype Cursor = Cursor(index: nat, depth: int, quote: Option<QuoteType>, inside: bool)

  /** The cursor a fresh `ParseNode` call starts from. */
  function Fresh(start: nat): Cursor {
    Cursor(start, 0, None, false)
  }

  /** `account(t)`: a quote token opens a quote when none is open and closes
      the open one when it is of the same kind; outside a quote, brackets move
      the depth. The token index is not touched. */
  function Account(c: Cursor, t: Token): (r: Cursor)
    ensures r.index == c.index
    ensures QuoteOf(t).None? ==> r.inside == c.inside && r.quote == c.quote
    ensures QuoteOf(t).Some? ==> r.depth == c.depth
    ensures QuoteOf(t).Some? && !c.inside ==> r.inside && r.quote == QuoteOf(t)
    ensures QuoteOf(t).Some? && c.inside ==> r.quote == c.quote && (r.inside <==> c.quote != QuoteOf(t))
    ensures QuoteOf(t).None? && !c.inside ==> r.depth == c.depth + Weight(t)
    ensures c.inside && c.quote != QuoteOf(t) ==> r == c
  {
    var q := QuoteOf(t);
    var c1 :=
      if q.None? then c
      else if !c.inside then c.(inside := true, quote := q)
      else if c.quote == q then c.(inside := false)
      else c;
    if c1.inside then c1
    else if IsOpening(t) then c1.(depth := c1.depth + 1)
    else if IsClosing(t) then c1.(depth := c1.depth - 1)
    else c1
  }

  /** `account` applied to each token in turn. */
  function AccountAll(c: Cursor, ts: seq<Token>): Cursor
    decreases |ts|
  {
    if ts == [] then c else AccountAll(Account(c, ts[0]), ts[1..])
  }

  /** The net bracket depth of a token run. */
  function Balance(ts: seq<Token>): int {
    if ts == [] then 0 else Weight(ts[0]) + Balance(ts[1..])
  }

  /** Outside any quote, a run without quote tokens moves the depth by its
      net bracket count and changes nothing else. */
  lemma {:induction false} AccountBalance(c: Cursor, ts: seq<Token>)
    requires !c.inside
    requires forall i :: 0 <= i < |ts| ==> QuoteOf(ts[i]).None?
    ensures AccountAll(c, ts) == c.(depth := c.depth + Balance(ts))
    decreases |ts|
  {
    if ts != [] {
      AccountBalance(Account(c, ts[0]), ts[1..]);
    }
  }

  /** Inside a quote, brackets and quotes of other kinds are inert: only a
      quote of the open kind changes the cursor. */
  lemma {:induction false} QuoteHidesBrackets(c: Cursor, ts: seq<Token>)
    requires c.inside
    requires forall i :: 0 <= i < |ts| ==> QuoteOf(ts[i]) != c.quote
    ensures AccountAll(c, ts) == c
    decreases |ts|
  {
    if ts != [] {
      QuoteHidesBrackets(Account(c, ts[0]), ts[1..]);
    }
  }

  /** `NodePosition`: the first token index of the node (before any leading
      whitespace) and the index after its last token. */
  datatype Span = Span(start: nat, end: nat)

  /** The node classes. A string literal keeps the raw tokens between its
      quotes. */
  datatype Node =
    | EmptyNode(pos: Span)
    | BlockNode(pos: Span, content: seq<Node>)
    | StringNode(pos: Span, parts: seq<Token>)
    | IdentifierNode(pos: Span, name: string)
    | ExecutionNode(pos: Span, callee: Node, args: seq<Node>)
    | NamedFunctionNode(pos: Span, name: string, body: Node)
    | InlineFunctionNode(pos: Span, body: Node)

  /** `NodeKind`. */
  datatype NodeKind = Empty | Block | String | Execution | Identifier | FunctionDefinition

  /** `NodeFilter`: a list of kinds, where a missing kind selects the
      parenthesis alternative. */
  type NodeFilter = seq<Option<NodeKind>>

  /** `NodeFilters.types`. */
  const Types: NodeFilter := [Some(Identifier)]

  /** `NodeFilters.executables`. */
  const Executables: NodeFilter := [Some(Identifier), Some(FunctionDefinition), None]
}
