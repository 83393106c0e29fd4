/** The `Ast` constructor (FCL-2/fcl/v2/ast.ts, lines 629-644): the code is
    wrapped in braces, lexed, classified and parsed from the first token
    without a filter. */
module Frontend {
  import opened Options
  import opened Tokens
  import opened Lexer
  import opened Syntax
  import opened Parser
  import opened ParserFacts

  /** The tokens `Ast` parses. */
  function Wrapped(code: string): seq<Token> {
    ConvertTokens(Tokenise("{" + code + "}"))
  }

  /** The wrapped code always opens with `{`. */
  lemma WrappedOpens(code: string)
    ensures |Wrapped(code)| > 0 && Wrapped(code)[0] == SymbolToken(Symbol, OpenCurly)
  {
    TokeniseOpens("{" + code + "}");
    ClassifyBraces();
  }

  /** The root node `new Ast(code)` builds, with the model's step budget and
      the model's own-key table lookup; whatever it parses is one block that
      starts at the wrapping `{`. */
  function Ast(code: string, fuel: nat): (r: Parsed<Node>)
    ensures !r.NoMatch?
    ensures r.Ok? ==> r.value.BlockNode? && r.value.pos.start == 0
  {
    WrappedOpens(code);
    CurlyIsBlock(Wrapped(code), 0, fuel);
    var o :- ParseNode(Wrapped(code), 0, None, fuel);
    Ok(o.node)
  }

  const OC := SymbolToken(Symbol, OpenCurly)
  const CC := SymbolToken(Symbol, CloseCurly)
  const OP := SymbolToken(Symbol, OpenParen)
  const CP := SymbolToken(Symbol, CloseParen)
  const CM := SymbolToken(Symbol, Comma)
  const EQ := SymbolToken(Symbol, Equal)
  const GT := SymbolToken(Symbol, RightChevron)
  const DQ := SymbolToken(Symbol, DoubleQuote)
  const SP := SymbolToken(Whitespace, Space)

  /** `{}` is a block with no statements. */
  lemma EmptyBlock(fuel: nat)
    requires fuel >= 2
    ensures ParseNode([OC, CC], 0, None, fuel) == Ok(Outcome(BlockNode(Span(0, 2), []), Cursor(2, -1, None, false)))
  {
    var toks := [OC, CC];
    var c := Fresh(0);
    assert SkipWhitespace(toks, c) == Ok(c);
    assert SkipWhitespace(toks, c.(index := 1)) == Ok(c.(index := 1));
    assert SkipWhitespace(toks, Cursor(1, -1, None, false)) == Ok(Cursor(1, -1, None, false));
    assert BlockLoop(toks, 0, c.(index := 1), [], fuel - 1) == Ok(Outcome(BlockNode(Span(0, 2), []), Cursor(2, -1, None, false)));
    TryAllPicksFirst(toks, 0, c, AllAlternatives, fuel, 0);
  }

  /** The tokens of `{f(a,b)}`, for any three words `f`, `a` and `b`. */
  function CallToks(f: string, a: string, b: string): seq<Token> {
    [OC, TextToken(f), OP, TextToken(a), CM, TextToken(b), CP, CC]
  }

  /** The call `f(a,b)` once both arguments are read. */
  function CallNode(f: string, a: string, b: string): Node {
    ExecutionNode(Span(1, 7), IdentifierNode(Span(1, 2), f), [IdentifierNode(Span(3, 4), a), IdentifierNode(Span(5, 6), b)])
  }

  /** `{f(a,b)}`: one statement, a call of `f` with arguments `a` and `b`. */
  lemma CallBlock(f: string, a: string, b: string, fuel: nat)
    requires IsWord(f) && IsWord(a) && IsWord(b) && fuel >= 8
    ensures ParseNode(CallToks(f, a, b), 0, None, fuel) == Ok(Outcome(BlockNode(Span(0, 8), [CallNode(f, a, b)]), Cursor(8, -1, None, false)))
  {
    var toks := CallToks(f, a, b);
    var call := CallNode(f, a, b);
    var c1 := Fresh(1);
    assert BlockLoop(toks, 0, c1, [], fuel - 1) == Ok(Outcome(BlockNode(Span(0, 8), [call]), Cursor(8, -1, None, false))) by {
      CallOfTwo(f, a, b, fuel - 1);
      assert ConsumeNode(toks, c1, None, fuel - 1) == Ok(Outcome(call, Fresh(7)));
      assert SkipWhitespace(toks, c1) == Ok(c1);
      assert [] + [call] == [call];
      CallBlockEnds(f, a, b, [call], fuel - 2);
    }
    StartsAt(toks, 0, None, fuel);
    TryAllPicksFirst(toks, 0, Fresh(0), AllAlternatives, fuel, 0);
  }

  /** After the statement, `}` closes the block of `{f(a,b)}`. */
  lemma CallBlockEnds(f: string, a: string, b: string, stmts: seq<Node>, fuel: nat)
    requires fuel >= 1
    ensures BlockLoop(CallToks(f, a, b), 0, Fresh(7), stmts, fuel) == Ok(Outcome(BlockNode(Span(0, 8), stmts), Cursor(8, -1, None, false)))
  {
    assert SkipWhitespace(CallToks(f, a, b), Fresh(7)) == Ok(Fresh(7));
    assert SkipWhitespace(CallToks(f, a, b), Cursor(7, -1, None, false)) == Ok(Cursor(7, -1, None, false));
  }

  lemma CallWords()
    ensures IsWord("f") && IsWord("a") && IsWord("b")
  {
    assert IsWordChar('f') && IsWordChar('a') && IsWordChar('b');
  }

  /** Before Execution, no alternative applies to `f(a,b)`. */
  lemma CallNotDefinition(f: string, a: string, b: string, fuel: nat)
    requires IsWord(f) && IsWord(a) && IsWord(b) && fuel >= 2
    ensures forall j :: 0 <= j < 4 ==> RunAlt(CallToks(f, a, b), 1, Fresh(1), AllAlternatives[j], fuel).NoMatch?
  {
    var c := Fresh(1);
    var toks := CallToks(f, a, b);
    assert RunAlt(toks, 1, c, AllAlternatives[0], fuel).NoMatch?;
    assert RunAlt(toks, 1, c, AllAlternatives[1], fuel).NoMatch?;
    assert RunAlt(toks, 1, c, AllAlternatives[2], fuel).NoMatch? by {
      WordIsType(toks, 1, fuel);
    }
    assert RunAlt(toks, 1, c, AllAlternatives[3], fuel).NoMatch? by {
      WordIsType(toks, 1, fuel);
      assert SkipWhitespace(toks, Cursor(4, 0, None, false)) == Ok(Cursor(4, 0, None, false));
    }
  }

  /** `a,` of `f(a,b)`: the first argument is read and the loop moves past the comma. */
  lemma CallFirstArgument(f: string, a: string, b: string, fuel: nat)
    requires IsWord(a) && fuel >= 2
    ensures ExecutionLoop(CallToks(f, a, b), 1, IdentifierNode(Span(1, 2), f), Fresh(3), [], fuel) ==
      ExecutionLoop(CallToks(f, a, b), 1, IdentifierNode(Span(1, 2), f), Fresh(5), [IdentifierNode(Span(3, 4), a)], fuel - 1)
  {
    var toks := CallToks(f, a, b);
    var callee := IdentifierNode(Span(1, 2), f);
    var na := IdentifierNode(Span(3, 4), a);
    WordArgument(toks, 1, callee, 3, [], fuel);
    assert [] + [na] == [na];
    CommaContinues(toks, 1, callee, 4, [na], fuel - 1);
  }

  /** `b)` of `f(a,b)`: the last argument is read and `)` ends the call. */
  lemma CallLastArgument(f: string, a: string, b: string, fuel: nat)
    requires IsWord(b) && fuel >= 2
    ensures ExecutionLoop(CallToks(f, a, b), 1, IdentifierNode(Span(1, 2), f), Fresh(5), [IdentifierNode(Span(3, 4), a)], fuel) ==
      Ok(Outcome(CallNode(f, a, b), Cursor(7, -1, None, false)))
  {
    var toks := CallToks(f, a, b);
    var callee := IdentifierNode(Span(1, 2), f);
    var na := IdentifierNode(Span(3, 4), a);
    var nb := IdentifierNode(Span(5, 6), b);
    WordArgument(toks, 1, callee, 5, [na], fuel);
    assert [na] + [nb] == [na, nb];
    CloseEnds(toks, 1, callee, 6, [na, nb], fuel - 1);
  }

  /** The Execution alternative on `f(a,b)`: the identifier `f` is the
      callee, then the arguments follow the `(`. */
  lemma CallExecution(f: string, a: string, b: string, fuel: nat)
    requires IsWord(f) && IsWord(a) && IsWord(b) && fuel >= 4
    ensures RunAlt(CallToks(f, a, b), 1, Fresh(1), ExecutionAlt, fuel) == Ok(Outcome(CallNode(f, a, b), Cursor(7, -1, None, false)))
  {
    var toks := CallToks(f, a, b);
    var callee := IdentifierNode(Span(1, 2), f);
    assert RunAlt(toks, 1, Fresh(1), ExecutionAlt, fuel) == ExecutionLoop(toks, 1, callee, Fresh(3), [], fuel) by {
      assert RunAlt(toks, 1, Fresh(1), ExecutionAlt, fuel) == ExecutionParser(toks, 1, Fresh(1), fuel);
      WordCallee(toks, 1, fuel);
    }
    assert ExecutionLoop(toks, 1, callee, Fresh(3), [], fuel) == Ok(Outcome(CallNode(f, a, b), Cursor(7, -1, None, false))) by {
      CallFirstArgument(f, a, b, fuel);
      CallLastArgument(f, a, b, fuel - 1);
    }
  }

  /** The statement `f(a,b)` of `{f(a,b)}`. */
  lemma CallOfTwo(f: string, a: string, b: string, fuel: nat)
    requires IsWord(f) && IsWord(a) && IsWord(b) && fuel >= 5
    ensures ParseNode(CallToks(f, a, b), 1, None, fuel) == Ok(Outcome(CallNode(f, a, b), Cursor(7, -1, None, false)))
  {
    var toks := CallToks(f, a, b);
    CallExecution(f, a, b, fuel - 1);
    CallNotDefinition(f, a, b, fuel - 1);
    assert AllAlternatives[4] == ExecutionAlt;
    StartsAt(toks, 1, None, fuel);
    TryAllPicksFirst(toks, 1, Fresh(1), AllAlternatives, fuel, 4);
  }

  /** `{}` lexes to its two braces. */
  lemma LexEmpty()
    ensures Tokenise("{" + "" + "}") == ["{", "}"]
  {
    var t := "{" + "" + "}";
    assert t == "{}";
    assert StandsAlone(t, 0) && StandsAlone(t, 1);
    TokeniseAlternating(t);
    assert Singles(t) == ["{", "}"];
  }

  lemma ClassifyBraces()
    ensures Classify("{") == OC && Classify("}") == CC
  {
    ClassifyKey(15);
    ClassifyKey(16);
    assert [TokenMap[15].key] == "{" && [TokenMap[16].key] == "}";
  }

  /** `Ast("")` is the empty block. */
  lemma AstEmpty(fuel: nat)
    requires fuel >= 2
    ensures Ast("", fuel) == Ok(BlockNode(Span(0, 2), []))
  {
    LexEmpty();
    ClassifyBraces();
    assert Wrapped("") == [OC, CC];
    EmptyBlock(fuel);
  }

  /** No key of the table is a word character, so a word is a Text token. */
  lemma ClassifyWord(raw: string)
    requires IsWord(raw)
    ensures Classify(raw) == TextToken(raw)
  {
    ClassifySpec(raw);
    assert forall i :: 0 <= i < |TokenMap| ==> !IsWordChar(TokenMap[i].key);
    assert IsWordChar(raw[0]);
  }

  /** A one-character key classifies to its row's token. */
  lemma ClassifyChar(c: char, i: nat)
    requires i < |TokenMap| && TokenMap[i].key == c
    ensures Classify([c]) == TokenMap[i].token
  {
    ClassifyKey(i);
  }

  /** Classifying is done string by string: eight raw strings and their tokens. */
  lemma ConvertEight(r0: string, r1: string, r2: string, r3: string, r4: string, r5: string, r6: string, r7: string,
                     t0: Token, t1: Token, t2: Token, t3: Token, t4: Token, t5: Token, t6: Token, t7: Token)
    requires Classify(r0) == t0 && Classify(r1) == t1 && Classify(r2) == t2 && Classify(r3) == t3
    requires Classify(r4) == t4 && Classify(r5) == t5 && Classify(r6) == t6 && Classify(r7) == t7
    ensures ConvertTokens([r0, r1, r2, r3, r4, r5, r6, r7]) == [t0, t1, t2, t3, t4, t5, t6, t7]
  {
  }

  /** The raw tokens of `{f(a,b)}` classify to `CallToks`. */
  lemma ConvertCall()
    ensures ConvertTokens(CallRaws) == CallToks("f", "a", "b")
  {
    ClassifyBraces();
    ClassifyParens();
    ClassifyComma();
    CallWords();
    ClassifyWord("f");
    ClassifyWord("a");
    ClassifyWord("b");
    ConvertEight("{", "f", "(", "a", ",", "b", ")", "}", OC, TextToken("f"), OP, TextToken("a"), CM, TextToken("b"), CP, CC);
  }

  /** The raw tokens of `{f(a,b)}`. */
  const CallRaws: seq<string> := ["{", "f", "(", "a", ",", "b", ")", "}"]

  lemma ClassifyParens()
    ensures Classify("(") == OP && Classify(")") == CP
  {
    ClassifyChar('(', 11);
    ClassifyChar(')', 12);
  }

  lemma ClassifyComma()
    ensures Classify(",") == CM
  {
    assert TokenMap[8].key == ',';
    ClassifyChar(',', 8);
  }

  /** `{f(a,b)}` lexes to one raw token per character. */
  lemma LexCall()
    ensures Tokenise("{" + "f(a,b)" + "}") == CallRaws
  {
    var t := "{" + "f(a,b)" + "}";
    assert t == "{f(a,b)}";
    assert Alternating(t) by {
      assert StandsAlone(t, 0) && StandsAlone(t, 1) && StandsAlone(t, 2) && StandsAlone(t, 3);
      assert StandsAlone(t, 4) && StandsAlone(t, 5) && StandsAlone(t, 6) && StandsAlone(t, 7);
    }
    TokeniseAlternating(t);
    assert Singles(t) == CallRaws;
  }

  /** `Ast("f(a,b)")`: a block holding the call of `f` with `a` and `b`. */
  lemma AstCall(fuel: nat)
    requires fuel >= 8
    ensures Ast("f(a,b)", fuel) == Ok(BlockNode(Span(0, 8), [CallNode("f", "a", "b")]))
  {
    LexCall();
    ConvertCall();
    assert Wrapped("f(a,b)") == CallToks("f", "a", "b");
    CallWords();
    CallBlock("f", "a", "b", fuel);
  }

  /** The word `toString` is an identifier, yet the lookup as written finds
      the function every object inherits instead of a Text token; the model's
      classifier keeps it a Text token. */
  lemma PrototypeWordLeaks()
    ensures IsWord("toString")
    ensures LookupAsWritten("toString") == Inherited("toString")
    ensures Classify("toString") == TextToken("toString")
  {
    assert forall k :: 0 <= k < |"toString"| ==> IsWordChar("toString"[k]);
  }

  /** The tokens of `{t n() {}}`, for any two words `t` and `n`. */
  function MainToks(t: string, n: string): seq<Token> {
    [OC, TextToken(t), SP, TextToken(n), OP, CP, SP, OC, CC, CC]
  }

  /** The function `t n() {}` once its empty body is read. */
  function MainNode(n: string): Node {
    NamedFunctionNode(Span(1, 9), n, BlockNode(Span(7, 9), []))
  }

  /** The body `{}` of `t n() {}` is an empty block. */
  lemma MainBody(t: string, n: string, fuel: nat)
    requires fuel >= 2
    ensures ParseNode(MainToks(t, n), 7, None, fuel) == Ok(Outcome(BlockNode(Span(7, 9), []), Cursor(9, -1, None, false)))
  {
    var toks := MainToks(t, n);
    StartsAt(toks, 7, None, fuel);
    BlockOpens(toks, 7, fuel - 1);
    BlockClose(toks, 7, 8, [], fuel - 1);
    TryAllPicksFirst(toks, 7, Fresh(7), AllAlternatives, fuel, 0);
  }

  /** The statement `t n() {}`: neither a block nor a string, so the
      NamedFunctionDefinition alternative reads it, name `n` and body `{}`. */
  lemma MainStatement(t: string, n: string, fuel: nat)
    requires IsWord(t) && IsWord(n) && fuel >= 3
    ensures ParseNode(MainToks(t, n), 1, None, fuel) == Ok(Outcome(MainNode(n), Fresh(9)))
  {
    var toks := MainToks(t, n);
    StartsAt(toks, 1, None, fuel);
    MainBody(t, n, fuel - 1);
    NamedShape(toks, 1, 7, fuel - 1);
    assert RunAlt(toks, 1, Fresh(1), AllAlternatives[0], fuel - 1).NoMatch?;
    assert RunAlt(toks, 1, Fresh(1), AllAlternatives[1], fuel - 1).NoMatch?;
    TryAllPicksFirst(toks, 1, Fresh(1), AllAlternatives, fuel, 2);
  }

  /** `{t n() {}}`: one statement, the function `n`. */
  lemma MainBlock(t: string, n: string, fuel: nat)
    requires IsWord(t) && IsWord(n) && fuel >= 4
    ensures ParseNode(MainToks(t, n), 0, None, fuel) == Ok(Outcome(BlockNode(Span(0, 10), [MainNode(n)]), Cursor(10, -1, None, false)))
  {
    MainContent(t, n, fuel - 1);
    BlockFirst(MainToks(t, n), 0, fuel);
  }

  /** The statements of `{t n() {}}`: the named function, then `}`. */
  lemma MainContent(t: string, n: string, fuel: nat)
    requires IsWord(t) && IsWord(n) && fuel >= 3
    ensures BlockLoop(MainToks(t, n), 0, Fresh(1), [], fuel) == Ok(Outcome(BlockNode(Span(0, 10), [MainNode(n)]), Cursor(10, -1, None, false)))
  {
    var toks := MainToks(t, n);
    MainStatement(t, n, fuel);
    BlockStatement(toks, 0, 1, [], fuel);
    assert [] + [MainNode(n)] == [MainNode(n)];
    BlockClose(toks, 0, 9, [MainNode(n)], fuel - 1);
  }

  /** The raw tokens of `{t n() {}}`. */
  function MainRaws(t: string, n: string): seq<string> {
    ["{", t, " ", n, "(", ")", " ", "{", "}", "}"]
  }

  /** A word holds neither separators nor combining characters. */
  lemma WordIsPlain(w: string)
    requires IsWord(w)
    ensures forall k :: 0 <= k < |w| ==> IsPlain(w[k])
  {
  }

  /** A word and then a separator lex to the two of them. */
  lemma LexWordThen(w: string, c: char)
    requires IsWord(w) && IsSeparator(c)
    ensures Tokenise(w + [c]) == [w, [c]]
  {
    WordIsPlain(w);
    TokeniseWordThen(w, c);
  }

  /** `{t n() {}}` lexes to its two words and its separators one by one: the
      lexer starts afresh after `{`, after the space and after `(`. */
  lemma LexMain(t: string, n: string)
    requires IsWord(t) && IsWord(n)
    ensures Tokenise("{" + t + " " + n + "() {}}") == MainRaws(t, n)
  {
    var body := (t + " ") + ((n + "(") + ") {}}");
    LexMainBody(t, n);
    TokeniseSeparator('{');
    TokeniseAfter("{", body);
    assert "{" + t + " " + n + "() {}}" == "{" + body;
  }

  lemma LexMainBody(t: string, n: string)
    requires IsWord(t) && IsWord(n)
    ensures Tokenise((t + " ") + ((n + "(") + ") {}}")) == [t, " ", n, "(", ")", " ", "{", "}", "}"]
  {
    LexMainRest(n);
    LexWordThen(t, ' ');
    TokeniseAfter(t + " ", (n + "(") + ") {}}");
  }

  lemma LexMainRest(n: string)
    requires IsWord(n)
    ensures Tokenise((n + "(") + ") {}}") == [n, "(", ")", " ", "{", "}", "}"]
  {
    LexMainTail();
    LexWordThen(n, '(');
    TokeniseAfter(n + "(", ") {}}");
  }

  lemma LexMainTail()
    ensures Tokenise(") {}}") == [")", " ", "{", "}", "}"]
  {
    var tail := ") {}}";
    assert Alternating(tail) by {
      assert StandsAlone(tail, 0) && StandsAlone(tail, 1) && StandsAlone(tail, 2);
      assert StandsAlone(tail, 3) && StandsAlone(tail, 4);
    }
    TokeniseAlternating(tail);
    assert Singles(tail) == [")", " ", "{", "}", "}"];
  }

  /** Classifying is done string by string: ten raw strings and their tokens. */
  lemma ConvertTen(r0: string, r1: string, r2: string, r3: string, r4: string, r5: string, r6: string, r7: string, r8: string, r9: string,
                   t0: Token, t1: Token, t2: Token, t3: Token, t4: Token, t5: Token, t6: Token, t7: Token, t8: Token, t9: Token)
    requires Classify(r0) == t0 && Classify(r1) == t1 && Classify(r2) == t2 && Classify(r3) == t3 && Classify(r4) == t4
    requires Classify(r5) == t5 && Classify(r6) == t6 && Classify(r7) == t7 && Classify(r8) == t8 && Classify(r9) == t9
    ensures ConvertTokens([r0, r1, r2, r3, r4, r5, r6, r7, r8, r9]) == [t0, t1, t2, t3, t4, t5, t6, t7, t8, t9]
  {
  }

  lemma MainWords()
    ensures IsWord("void") && IsWord("main")
  {
    DigitsAreWords();
    assert IsWordChar('m') && IsWordChar('a') && IsWordChar('i') && IsWordChar('n');
  }

  /** `Ast("void main() {}")`: a block holding the function `main` whose body
      is an empty block. */
  lemma AstMain(fuel: nat)
    requires fuel >= 4
    ensures Ast("void main() {}", fuel) == Ok(BlockNode(Span(0, 10), [NamedFunctionNode(Span(1, 9), "main", BlockNode(Span(7, 9), []))]))
  {
    MainWords();
    assert "{" + "void main() {}" + "}" == "{" + "void" + " " + "main" + "() {}}";
    LexMain("void", "main");
    ClassifyWord("void");
    ClassifyWord("main");
    ClassifyBraces();
    ClassifyParens();
    ClassifyChar(' ', 23);
    ConvertTen("{", "void", " ", "main", "(", ")", " ", "{", "}", "}", OC, TextToken("void"), SP, TextToken("main"), OP, CP, SP, OC, CC, CC);
    assert Wrapped("void main() {}") == MainToks("void", "main");
    MainBlock("void", "main", fuel);
  }

  /** The tokens of `{f()=>b}`, for any two words `f` and `b`. */
  function InlineToks(f: string, b: string): seq<Token> {
    [OC, TextToken(f), OP, CP, EQ, GT, TextToken(b), CC]
  }

  /** The inline function `f()=>b` once its body is read. */
  function InlineNode(b: string): Node {
    InlineFunctionNode(Span(1, 7), IdentifierNode(Span(6, 7), b))
  }

  /** `{f()=>b}`: one statement, the inline function. */
  lemma InlineBlock(f: string, b: string, fuel: nat)
    requires IsWord(f) && IsWord(b) && fuel >= 4
    ensures ParseNode(InlineToks(f, b), 0, None, fuel) == Ok(Outcome(BlockNode(Span(0, 8), [InlineNode(b)]), Cursor(8, -1, None, false)))
  {
    InlineContent(f, b, fuel - 1);
    BlockFirst(InlineToks(f, b), 0, fuel);
  }

  /** The statements of `{f()=>b}`: the inline function, then `}`. */
  lemma InlineContent(f: string, b: string, fuel: nat)
    requires IsWord(f) && IsWord(b) && fuel >= 3
    ensures BlockLoop(InlineToks(f, b), 0, Fresh(1), [], fuel) == Ok(Outcome(BlockNode(Span(0, 8), [InlineNode(b)]), Cursor(8, -1, None, false)))
  {
    var toks := InlineToks(f, b);
    ArrowStatement(toks, 1, fuel);
    BlockStatement(toks, 0, 1, [], fuel);
    assert [] + [InlineNode(b)] == [InlineNode(b)];
    BlockClose(toks, 0, 7, [InlineNode(b)], fuel - 1);
  }

  /** The raw tokens of `{f()=>b}`. */
  function InlineRaws(f: string, b: string): seq<string> {
    ["{", f, "(", ")", "=", ">", b, "}"]
  }

  /** `{f()=>b}` lexes to its words, its separators and a lone `=`: the
      lexer starts afresh after `{`, `(`, `)` and `>`. */
  lemma LexInline(f: string, b: string)
    requires IsWord(f) && IsWord(b)
    ensures Tokenise("{" + f + "()=>" + b + "}") == InlineRaws(f, b)
  {
    var rest := (f + "(") + (")" + ("=>" + (b + "}")));
    LexInlineRest(f, b);
    TokeniseSeparator('{');
    TokeniseAfter("{", rest);
    assert "{" + f + "()=>" + b + "}" == "{" + rest;
  }

  lemma LexInlineRest(f: string, b: string)
    requires IsWord(f) && IsWord(b)
    ensures Tokenise((f + "(") + (")" + ("=>" + (b + "}")))) == [f, "(", ")", "=", ">", b, "}"]
  {
    LexInlineArrow(b);
    LexWordThen(f, '(');
    TokeniseAfter(f + "(", ")" + ("=>" + (b + "}")));
  }

  lemma LexInlineArrow(b: string)
    requires IsWord(b)
    ensures Tokenise(")" + ("=>" + (b + "}"))) == [")", "=", ">", b, "}"]
  {
    LexInlineBody(b);
    TokeniseSeparator(')');
    TokeniseAfter(")", "=>" + (b + "}"));
  }

  lemma LexInlineBody(b: string)
    requires IsWord(b)
    ensures Tokenise("=>" + (b + "}")) == ["=", ">", b, "}"]
  {
    TokeniseCombiningThen('=', '>');
    LexWordThen(b, '}');
    TokeniseAfter("=>", b + "}");
  }

  /** `Ast("x()=>y")`: a block holding the inline function with body `y`. */
  lemma AstInline(fuel: nat)
    requires fuel >= 4
    ensures Ast("x()=>y", fuel) == Ok(BlockNode(Span(0, 8), [InlineFunctionNode(Span(1, 7), IdentifierNode(Span(6, 7), "y"))]))
  {
    assert IsWord("x") && IsWord("y") by {
      assert IsWordChar('x') && IsWordChar('y');
    }
    assert "{" + "x()=>y" + "}" == "{" + "x" + "()=>" + "y" + "}";
    LexInline("x", "y");
    ClassifyWord("x");
    ClassifyWord("y");
    ClassifyBraces();
    ClassifyParens();
    ClassifyChar('=', 0);
    ClassifyChar('>', 18);
    ConvertEight("{", "x", "(", ")", "=", ">", "y", "}", OC, TextToken("x"), OP, CP, EQ, GT, TextToken("y"), CC);
    assert Wrapped("x()=>y") == InlineToks("x", "y");
    InlineBlock("x", "y", fuel);
  }

  /** `}{` wrapped in braces lexes to four single braces. */
  lemma LexStopsAtClose()
    ensures Wrapped("}{") == [OC, CC, OC, CC]
  {
    var t := "{" + "}{" + "}";
    assert t == "{}{}";
    assert Alternating(t) by {
      assert StandsAlone(t, 0) && StandsAlone(t, 1) && StandsAlone(t, 2) && StandsAlone(t, 3);
    }
    TokeniseAlternating(t);
    assert Singles(t) == ["{", "}", "{", "}"];
    ClassifyBraces();
  }

  /** The block parser stops at the first `}` that closes the block. */
  lemma ParseStopsAtClose(fuel: nat)
    requires fuel >= 2
    ensures ParseNode([OC, CC, OC, CC], 0, None, fuel) == Ok(Outcome(BlockNode(Span(0, 2), []), Cursor(2, -1, None, false)))
  {
    var toks := [OC, CC, OC, CC];
    StartsAt(toks, 0, None, fuel);
    BlockOpens(toks, 0, fuel - 1);
    BlockClose(toks, 0, 1, [], fuel - 1);
    TryAllPicksFirst(toks, 0, Fresh(0), AllAlternatives, fuel, 0);
  }

  /** The root block ends at the first `}` that closes it, and whatever
      follows is dropped: `Ast("}{")` is the empty block. */
  lemma AstStopsAtClose(fuel: nat)
    requires fuel >= 2
    ensures Ast("}{", fuel) == Ok(BlockNode(Span(0, 2), []))
  {
    LexStopsAtClose();
    ParseStopsAtClose(fuel);
  }
}
