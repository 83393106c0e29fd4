/** Properties of the FCL v2 parser: dispatch order, the filters, the
    literal alternatives and the Execution loop that never ends. */
module ParserFacts {
  import opened Options
  import opened Tokens
  import opened Syntax
  import opened Parser

  /** Every alternative is an entry of the table. */
  lemma AllListed(a: Alternative)
    ensures a in AllAlternatives
  {
    match a
    case BlockAlt =>
    case StringAlt =>
    case NamedFunctionAlt =>
    case InlineFunctionAlt =>
    case ExecutionAlt =>
    case ParenAlt =>
    case IdentifierAlt =>
  }

  /** Selecting by one tag keeps exactly the entries with that tag. */
  lemma {:induction false} SelectMembers(alts: seq<Alternative>, f: Option<NodeKind>, a: Alternative)
    ensures a in Select(alts, f) <==> a in alts && a.Tag() == f
  {
    if alts != [] {
      SelectMembers(alts[1..], f, a);
      assert alts == [alts[0]] + alts[1..];
    }
  }

  /** A filter admits exactly the entries whose tag it lists (a missing kind
      lists the parenthesis entry); no filter admits every entry. */
  lemma {:induction false} FilterAdmits(filter: Option<NodeFilter>, a: Alternative)
    ensures a in AlternativesFor(filter) <==> filter.None? || a.Tag() in filter.value
  {
    AllListed(a);
    if filter.Some? {
      SelectAllMembers(filter.value, a);
    }
  }

  lemma {:induction false} SelectAllMembers(fs: NodeFilter, a: Alternative)
    ensures a in SelectAll(fs) <==> a.Tag() in fs
  {
    AllListed(a);
    if fs != [] {
      SelectMembers(AllAlternatives, fs[0], a);
      SelectAllMembers(fs[1..], a);
      assert fs == [fs[0]] + fs[1..];
    }
  }

  /** The two named filters select exactly these table entries, in this order;
      without a filter the whole table is tried in declaration order. */
  lemma FilterLists()
    ensures AlternativesFor(None) == [BlockAlt, StringAlt, NamedFunctionAlt, InlineFunctionAlt, ExecutionAlt, ParenAlt, IdentifierAlt]
    ensures AlternativesFor(Some(Types)) == [IdentifierAlt]
    ensures AlternativesFor(Some(Executables)) == [IdentifierAlt, NamedFunctionAlt, InlineFunctionAlt, ParenAlt]
  {
    TypesList();
    ExecutablesList();
  }

  /** The "type" filter keeps only the identifier entry. */
  lemma TypesList()
    ensures AlternativesFor(Some(Types)) == [IdentifierAlt]
  {
    IdentifierSelected();
  }

  /** The "executable" filter keeps identifiers, both function definitions
      and the parenthesis entry, in that order. */
  lemma ExecutablesList()
    ensures AlternativesFor(Some(Executables)) == [IdentifierAlt, NamedFunctionAlt, InlineFunctionAlt, ParenAlt]
  {
    var all := AllAlternatives;
    IdentifierSelected();
    assert Select(all[4..], Some(FunctionDefinition)) == [];
    assert Select(all[3..], Some(FunctionDefinition)) == [InlineFunctionAlt];
    assert Select(all[2..], Some(FunctionDefinition)) == [NamedFunctionAlt, InlineFunctionAlt];
    assert Select(all, Some(FunctionDefinition)) == [NamedFunctionAlt, InlineFunctionAlt];
    assert Select(all[6..], None) == [];
    assert Select(all[5..], None) == [ParenAlt];
    assert Select(all, None) == [ParenAlt];
    assert SelectAll(Executables[2..]) == [ParenAlt];
    assert SelectAll(Executables[1..]) == [NamedFunctionAlt, InlineFunctionAlt, ParenAlt];
  }

  lemma IdentifierSelected()
    ensures Select(AllAlternatives, Some(Identifier)) == [IdentifierAlt]
  {
    var all := AllAlternatives;
    assert Select(all[6..], Some(Identifier)) == [IdentifierAlt];
    assert Select(all[5..], Some(Identifier)) == [IdentifierAlt];
    assert Select(all[4..], Some(Identifier)) == [IdentifierAlt];
    assert Select(all[3..], Some(Identifier)) == [IdentifierAlt];
    assert Select(all[2..], Some(Identifier)) == [IdentifierAlt];
    assert Select(all[1..], Some(Identifier)) == [IdentifierAlt];
  }

  /** The first alternative that does not answer "no match" decides the
      result; the ones before it leave no trace. */
  lemma {:induction false} TryAllPicksFirst(toks: seq<Token>, start: nat, c: Cursor, alts: seq<Alternative>, fuel: nat, i: nat)
    requires fuel > 0 && i < |alts|
    requires forall j :: 0 <= j < i ==> RunAlt(toks, start, c, alts[j], fuel - 1).NoMatch?
    requires !RunAlt(toks, start, c, alts[i], fuel - 1).NoMatch?
    ensures TryAll(toks, start, c, alts, fuel) == RunAlt(toks, start, c, alts[i], fuel - 1)
    decreases i
  {
    if i > 0 {
      assert RunAlt(toks, start, c, alts[0], fuel - 1).NoMatch?;
      TryAllPicksFirst(toks, start, c, alts[1..], fuel, i - 1);
    }
  }

  /** When no alternative applies, the token at the cursor is reported as
      unexpected. */
  lemma {:induction false} TryAllNoneApplies(toks: seq<Token>, start: nat, c: Cursor, alts: seq<Alternative>, fuel: nat)
    requires fuel > 0 && c.index < |toks|
    requires forall j :: 0 <= j < |alts| ==> RunAlt(toks, start, c, alts[j], fuel - 1).NoMatch?
    ensures TryAll(toks, start, c, alts, fuel) == Failed(Thrown(Unexpected(toks[c.index])))
    decreases |alts|
  {
    if alts != [] {
      assert RunAlt(toks, start, c, alts[0], fuel - 1).NoMatch?;
      TryAllNoneApplies(toks, start, c, alts[1..], fuel);
    }
  }

  /** The "type" filter reads exactly one word token after any whitespace,
      and reports anything else as unexpected. */
  lemma TypeFilter(toks: seq<Token>, s: nat, fuel: nat)
    requires s < |toks| && fuel >= 1
    ensures var r := ParseNode(toks, s, Some(Types), fuel);
      match SkipWhitespace(toks, Fresh(s))
      case Ok(c) =>
        if toks[c.index].TextToken? && IsWord(toks[c.index].text) then
          r == Ok(Outcome(IdentifierNode(Span(s, c.index + 1), toks[c.index].text), c.(index := c.index + 1)))
        else
          r == Failed(Thrown(Unexpected(toks[c.index])))
      case _ => r == Failed(Crashed)
  {
    TypesList();
    var sw := SkipWhitespace(toks, Fresh(s));
    if sw.Ok? {
      var c := sw.value;
      if IdentifierParser(toks, s, c).NoMatch? {
        TryAllNoneApplies(toks, s, c, [IdentifierAlt], fuel);
      } else {
        TryAllPicksFirst(toks, s, c, [IdentifierAlt], fuel, 0);
      }
    }
  }

  /** "42" is a type name: the word test accepts digits. */
  lemma DigitsAreWords()
    ensures IsWord("42") && IsWord("void") && !IsWord("") && !IsWord("a!")
  {
    assert !IsWordChar("a!"[1]);
  }

  /** Every quote token of a kind other than single opens a string literal
      whose parts are the tokens strictly between it and the next quote of
      the same kind; without a closing quote the parse crashes. */
  lemma StringLiteral(toks: seq<Token>, start: nat, c: Cursor, e: nat)
    requires c.index < e < |toks|
    requires QuoteOf(toks[e]) == QuoteOf(toks[c.index])
    requires forall k :: c.index < k < e ==> QuoteOf(toks[k]) != QuoteOf(toks[c.index])
    ensures IsTruthy(QuoteOf(toks[c.index])) ==>
      StringParser(toks, start, c).Ok? &&
      StringParser(toks, start, c).value.node == StringNode(Span(start, e + 1), toks[c.index + 1..e])
    ensures !IsTruthy(QuoteOf(toks[c.index])) ==> StringParser(toks, start, c) == NoMatch
  {
    var q := QuoteOf(toks[c.index]);
    if IsTruthy(q) {
      StringLoopFinds(toks, start, Account(c.(index := c.index + 1), toks[c.index]), q.value, [], e);
    }
  }

  /** With no closing quote of the opening kind the String alternative runs off
      the end, unless the opening quote is not a string quote at all. */
  lemma StringUnclosed(toks: seq<Token>, start: nat, c: Cursor)
    requires c.index < |toks|
    requires forall k :: c.index < k < |toks| ==> QuoteOf(toks[k]) != QuoteOf(toks[c.index])
    ensures StringParser(toks, start, c) == if IsTruthy(QuoteOf(toks[c.index])) then Failed(Crashed) else NoMatch
  {
  }

  /** The String loop stops at the first token of its quote kind. */
  lemma {:induction false} StringLoopFinds(toks: seq<Token>, start: nat, c: Cursor, q: QuoteType, buf: seq<Token>, e: nat)
    requires c.index <= e < |toks|
    requires QuoteOf(toks[e]) == Some(q)
    requires forall k :: c.index <= k < e ==> QuoteOf(toks[k]) != Some(q)
    ensures StringLoop(toks, start, c, q, buf).Ok?
    ensures StringLoop(toks, start, c, q, buf).value.cursor.index == e + 1
    decreases e - c.index
  {
    if c.index < e {
      var t := toks[c.index];
      StringLoopFinds(toks, start, Account(c.(index := c.index + 1), t), q, buf + [t], e);
    }
  }

  /** Once a quote is open, an Execution argument list whose next token is
      `)` or `,` never finishes: the loop accounts that token, sees the quote
      still open and starts over without consuming anything. */
  lemma {:induction false} ExecutionSpins(toks: seq<Token>, start: nat, callee: Node, c: Cursor, args: seq<Node>, fuel: nat)
    requires c.inside && c.index < |toks|
    requires toks[c.index] == SymbolToken(Symbol, CloseParen) || toks[c.index] == SymbolToken(Symbol, Comma)
    ensures ExecutionLoop(toks, start, callee, c, args, fuel) == Failed(OutOfFuel)
    decreases fuel
  {
    if fuel > 0 {
      assert SkipWhitespace(toks, c) == Ok(c);
      assert Account(c, toks[c.index]) == c;
      ExecutionSpins(toks, start, callee, c, args, fuel - 1);
    }
  }

  /** A token that can follow a word without extending it into a call, a
      definition or a parameter list. */
  predicate Inert(t: Token) {
    t.Kind() != Whitespace && !Is(t, OpenParen) && !Is(t, Space)
  }

  /** A word followed by an inert token parses, with any filter that admits
      identifiers and enough fuel, as that one identifier. */
  lemma LoneWord(toks: seq<Token>, s: nat, fuel: nat)
    requires s + 1 < |toks| && fuel >= 2
    requires toks[s].TextToken? && IsWord(toks[s].text)
    requires Inert(toks[s + 1])
    ensures ParseNode(toks, s, None, fuel) == Ok(Outcome(IdentifierNode(Span(s, s + 1), toks[s].text), Fresh(s + 1)))
    ensures ParseNode(toks, s, Some(Executables), fuel) == Ok(Outcome(IdentifierNode(Span(s, s + 1), toks[s].text), Fresh(s + 1)))
  {
    LoneWordExecutable(toks, s, fuel);
    LoneWordAnywhere(toks, s, fuel);
  }

  /** Without a filter, a lone word reaches the last alternative. */
  lemma LoneWordAnywhere(toks: seq<Token>, s: nat, fuel: nat)
    requires s + 1 < |toks| && fuel >= 2
    requires toks[s].TextToken? && IsWord(toks[s].text)
    requires Inert(toks[s + 1])
    ensures ParseNode(toks, s, None, fuel) == Ok(Outcome(IdentifierNode(Span(s, s + 1), toks[s].text), Fresh(s + 1)))
  {
    var c := Fresh(s);
    StartsAt(toks, s, None, fuel);
    LoneWordDeclines(toks, s, fuel - 1);
    assert RunAlt(toks, s, c, AllAlternatives[6], fuel - 1) == IdentifierParser(toks, s, c);
    TryAllPicksFirst(toks, s, c, AllAlternatives, fuel, 6);
  }

  /** At a token that is not whitespace, `ParseNode` runs the alternatives
      from where it was called. */
  lemma StartsAt(toks: seq<Token>, s: nat, filter: Option<NodeFilter>, fuel: nat)
    requires s < |toks| && toks[s].Kind() != Whitespace
    ensures ParseNode(toks, s, filter, fuel) == TryAll(toks, s, Fresh(s), AlternativesFor(filter), fuel)
  {
    assert SkipWhitespace(toks, Fresh(s)) == Ok(Fresh(s));
  }

  /** The identifier alternative reads a lone word; it comes first among the
      executables. */
  lemma LoneWordExecutable(toks: seq<Token>, s: nat, fuel: nat)
    requires s < |toks| && fuel >= 1
    requires toks[s].TextToken? && IsWord(toks[s].text)
    ensures IdentifierParser(toks, s, Fresh(s)) == Ok(Outcome(IdentifierNode(Span(s, s + 1), toks[s].text), Fresh(s + 1)))
    ensures ParseNode(toks, s, Some(Executables), fuel) == Ok(Outcome(IdentifierNode(Span(s, s + 1), toks[s].text), Fresh(s + 1)))
  {
    ExecutablesList();
    StartsAt(toks, s, Some(Executables), fuel);
    var alts := [IdentifierAlt, NamedFunctionAlt, InlineFunctionAlt, ParenAlt];
    assert RunAlt(toks, s, Fresh(s), alts[0], fuel - 1) == IdentifierParser(toks, s, Fresh(s));
    TryAllPicksFirst(toks, s, Fresh(s), alts, fuel, 0);
  }

  /** Every alternative before the identifier one declines a lone word. */
  lemma LoneWordDeclines(toks: seq<Token>, s: nat, fuel: nat)
    requires s + 1 < |toks| && fuel >= 1
    requires toks[s].TextToken? && IsWord(toks[s].text)
    requires Inert(toks[s + 1])
    ensures forall j :: 0 <= j < 6 ==> RunAlt(toks, s, Fresh(s), AllAlternatives[j], fuel).NoMatch?
  {
    var c := Fresh(s);
    var alts := AllAlternatives;
    assert RunAlt(toks, s, c, alts[0], fuel).NoMatch?;
    assert RunAlt(toks, s, c, alts[1], fuel).NoMatch?;
    NamedDeclines(toks, s, fuel);
    InlineDeclines(toks, s, fuel);
    ExecutionDeclines(toks, s, fuel);
    assert RunAlt(toks, s, c, alts[5], fuel).NoMatch?;
  }

  /** A word reads as a type. */
  lemma WordIsType(toks: seq<Token>, s: nat, fuel: nat)
    requires s < |toks| && fuel >= 1
    requires toks[s].TextToken? && IsWord(toks[s].text)
    ensures TypePrefix(toks, Fresh(s), fuel) == Ok(Fresh(s + 1))
  {
    TypeFilter(toks, s, fuel);
    assert SkipWhitespace(toks, Fresh(s)) == Ok(Fresh(s));
  }

  /** A lone word is a type with no name after it. */
  lemma NamedDeclines(toks: seq<Token>, s: nat, fuel: nat)
    requires s + 1 < |toks| && fuel >= 1
    requires toks[s].TextToken? && IsWord(toks[s].text)
    requires Inert(toks[s + 1])
    ensures NamedFunctionParser(toks, s, Fresh(s), fuel).NoMatch?
  {
    WordIsType(toks, s, fuel);
  }

  /** A lone word is a type with no `(` after it. */
  lemma InlineDeclines(toks: seq<Token>, s: nat, fuel: nat)
    requires s + 1 < |toks| && fuel >= 1
    requires toks[s].TextToken? && IsWord(toks[s].text)
    requires Inert(toks[s + 1])
    ensures InlineFunctionParser(toks, s, Fresh(s), fuel).NoMatch?
  {
    WordIsType(toks, s, fuel);
  }

  /** A lone word is a callee with no `(` after it. */
  lemma ExecutionDeclines(toks: seq<Token>, s: nat, fuel: nat)
    requires s + 1 < |toks| && fuel >= 1
    requires toks[s].TextToken? && IsWord(toks[s].text)
    requires Inert(toks[s + 1])
    ensures ExecutionParser(toks, s, Fresh(s), fuel).NoMatch?
  {
    var id := Outcome(IdentifierNode(Span(s, s + 1), toks[s].text), Fresh(s + 1));
    LoneWordExecutable(toks, s, fuel);
    assert ConsumeNode(toks, Fresh(s), Some(Executables), fuel) == Ok(id);
    assert SkipWhitespace(toks, Fresh(s + 1)) == Ok(Fresh(s + 1));
  }

  /** The inline-function alternative checks the `(` and the `=`, but only
      consumes the tokens where `)` and `>` belong: `x(t1=t2 y` is read as
      `x() => y` whatever `t1` and `t2` are, as long as neither is a quote. */
  lemma InlineArrowUnchecked(toks: seq<Token>, s: nat, t1: Token, t2: Token, fuel: nat)
    requires s + 6 < |toks| && fuel >= 2
    requires toks[s].TextToken? && IsWord(toks[s].text)
    requires toks[s + 1] == SymbolToken(Symbol, OpenParen) && toks[s + 2] == t1
    requires toks[s + 3] == SymbolToken(Symbol, Equal) && toks[s + 4] == t2
    requires toks[s + 5].TextToken? && IsWord(toks[s + 5].text) && Inert(toks[s + 6])
    requires QuoteOf(t1).None? && QuoteOf(t2).None?
    ensures InlineFunctionParser(toks, s, Fresh(s), fuel) ==
      Ok(Outcome(InlineFunctionNode(Span(s, s + 6), IdentifierNode(Span(s + 5, s + 6), toks[s + 5].text)),
                 Cursor(s + 6, 1 + Weight(t1) + Weight(t2), None, false)))
  {
    var close := Cursor(s + 3, 1 + Weight(t1), None, false);
    InlineHead(toks, s, t1, fuel);
    InlineTail(toks, s, close, t2, fuel);
  }

  /** The head of `x(t1=`: a type, the `(` checked, any token where `)`
      belongs, and the `=` checked. */
  lemma InlineHead(toks: seq<Token>, s: nat, t1: Token, fuel: nat)
    requires s + 3 < |toks| && fuel >= 1
    requires toks[s].TextToken? && IsWord(toks[s].text)
    requires toks[s + 1] == SymbolToken(Symbol, OpenParen) && toks[s + 2] == t1
    requires toks[s + 3] == SymbolToken(Symbol, Equal) && QuoteOf(t1).None?
    ensures InlineFunctionParser(toks, s, Fresh(s), fuel) == ArrowBody(toks, s, Cursor(s + 3, 1 + Weight(t1), None, false), fuel)
  {
    WordIsType(toks, s, fuel);
    var open := Cursor(s + 2, 1, None, false);
    assert Expect(toks, Fresh(s + 1), OpenParen) == Ok(Expected(true, open));
    var close := Cursor(s + 3, 1 + Weight(t1), None, false);
    assert Expect(toks, open, CloseParen).value.cursor == close;
    assert SkipWhitespace(toks, close) == Ok(close);
  }

  /** The tail of `=t2 y`: any token where `>` belongs, then a lone word as
      the body. */
  lemma InlineTail(toks: seq<Token>, s: nat, c: Cursor, t2: Token, fuel: nat)
    requires c.index + 3 < |toks| && fuel >= 2 && c.quote.None? && !c.inside
    requires toks[c.index] == SymbolToken(Symbol, Equal) && toks[c.index + 1] == t2 && QuoteOf(t2).None?
    requires toks[c.index + 2].TextToken? && IsWord(toks[c.index + 2].text) && Inert(toks[c.index + 3])
    ensures ArrowBody(toks, s, c, fuel) ==
      Ok(Outcome(InlineFunctionNode(Span(s, c.index + 3), IdentifierNode(Span(c.index + 2, c.index + 3), toks[c.index + 2].text)),
                 Cursor(c.index + 3, c.depth + Weight(t2), None, false)))
  {
    var eq := c.(index := c.index + 1);
    assert ExpectAt(toks, c, Equal).cursor == eq;
    var c3 := Cursor(c.index + 2, c.depth + Weight(t2), None, false);
    assert Expect(toks, eq, RightChevron).value.cursor == c3;
    assert SkipWhitespace(toks, c3) == Ok(c3);
    assert ConsumeNode(toks, c3, None, fuel) == Ok(Outcome(IdentifierNode(Span(c.index + 2, c.index + 3), toks[c.index + 2].text), c3.(index := c.index + 3))) by {
      LoneWord(toks, c.index + 2, fuel);
    }
  }

  /** Outside quotes and brackets, an argument followed by anything other
      than `,` or `)` ends the parse with "got ... expected , or )". */
  lemma CallDelimiterThrows(toks: seq<Token>, start: nat, callee: Node, c: Cursor, args: seq<Node>, fuel: nat)
    requires c.index < |toks| && !c.inside && toks[c.index].Kind() != Whitespace
    requires QuoteOf(toks[c.index]).None? && c.depth + Weight(toks[c.index]) <= 0
    requires !Is(toks[c.index], Comma) && !Is(toks[c.index], CloseParen)
    ensures ArgumentEnd(toks, start, callee, c, args, fuel) == Failed(Thrown(CallDelimiter(toks[c.index])))
  {
    assert SkipWhitespace(toks, c) == Ok(c);
  }

  /** Inside a call, a lone word is read as the next argument and the loop
      goes on to look at the token after it. */
  lemma WordArgument(toks: seq<Token>, start: nat, callee: Node, i: nat, args: seq<Node>, fuel: nat)
    requires i + 1 < |toks| && fuel >= 2
    requires toks[i].TextToken? && IsWord(toks[i].text) && Inert(toks[i + 1])
    ensures ExecutionLoop(toks, start, callee, Fresh(i), args, fuel) ==
      ArgumentEnd(toks, start, callee, Fresh(i + 1), args + [IdentifierNode(Span(i, i + 1), toks[i].text)], fuel - 1)
  {
    assert SkipWhitespace(toks, Fresh(i)) == Ok(Fresh(i));
    assert ConsumeNode(toks, Fresh(i), None, fuel) == Ok(Outcome(IdentifierNode(Span(i, i + 1), toks[i].text), Fresh(i + 1))) by {
      LoneWord(toks, i, fuel);
    }
  }

  /** Outside quotes and brackets, `,` after an argument starts the next one. */
  lemma CommaContinues(toks: seq<Token>, start: nat, callee: Node, i: nat, args: seq<Node>, fuel: nat)
    requires i < |toks| && toks[i] == SymbolToken(Symbol, Comma)
    ensures ArgumentEnd(toks, start, callee, Fresh(i), args, fuel) == ExecutionLoop(toks, start, callee, Fresh(i + 1), args, fuel)
  {
    assert SkipWhitespace(toks, Fresh(i)) == Ok(Fresh(i));
  }

  /** Outside quotes and brackets, `)` after an argument ends the call, one
      bracket below where the arguments were read. */
  lemma CloseEnds(toks: seq<Token>, start: nat, callee: Node, i: nat, args: seq<Node>, fuel: nat)
    requires i < |toks| && toks[i] == SymbolToken(Symbol, CloseParen)
    ensures ArgumentEnd(toks, start, callee, Fresh(i), args, fuel) ==
      Ok(Outcome(ExecutionNode(Span(start, i + 1), callee, args), Cursor(i + 1, -1, None, false)))
  {
    assert SkipWhitespace(toks, Fresh(i)) == Ok(Fresh(i));
  }

  /** A word followed by `(` is the callee of a call: the Execution
      alternative goes on to the arguments after the parenthesis. */
  lemma WordCallee(toks: seq<Token>, s: nat, fuel: nat)
    requires s + 1 < |toks| && fuel >= 1
    requires toks[s].TextToken? && IsWord(toks[s].text) && toks[s + 1] == SymbolToken(Symbol, OpenParen)
    ensures ExecutionParser(toks, s, Fresh(s), fuel) == ExecutionLoop(toks, s, IdentifierNode(Span(s, s + 1), toks[s].text), Fresh(s + 2), [], fuel)
  {
    assert ConsumeNode(toks, Fresh(s), Some(Executables), fuel) == Ok(Outcome(IdentifierNode(Span(s, s + 1), toks[s].text), Fresh(s + 1))) by {
      LoneWordExecutable(toks, s, fuel);
    }
    assert SkipWhitespace(toks, Fresh(s + 1)) == Ok(Fresh(s + 1));
  }

  // ---------------------------------------------------------------------
  // Block, Parenthesis and NamedFunctionDefinition on any tokens

  /** Whitespace up to `b` is skipped, and the cursor stops at `b`. */
  lemma SkipTo(toks: seq<Token>, c: Cursor, b: nat)
    requires c.index <= b < |toks| && toks[b].Kind() != Whitespace
    requires forall k :: c.index <= k < b ==> toks[k].Kind() == Whitespace
    ensures SkipWhitespace(toks, c) == Ok(c.(index := b))
  {
  }

  /** `{` opens a block whose statements are read from the next token on. */
  lemma BlockOpens(toks: seq<Token>, s: nat, fuel: nat)
    requires s < |toks| && toks[s] == SymbolToken(Symbol, OpenCurly)
    ensures BlockParser(toks, s, Fresh(s), fuel) == BlockLoop(toks, s, Fresh(s + 1), [], fuel)
  {
  }

  /** A parse from `{` whose block loop succeeds is that block: Block is the
      first alternative. */
  lemma BlockFirst(toks: seq<Token>, s: nat, fuel: nat)
    requires s < |toks| && toks[s] == SymbolToken(Symbol, OpenCurly) && fuel >= 1
    requires BlockLoop(toks, s, Fresh(s + 1), [], fuel - 1).Ok?
    ensures ParseNode(toks, s, None, fuel) == BlockLoop(toks, s, Fresh(s + 1), [], fuel - 1)
  {
    StartsAt(toks, s, None, fuel);
    BlockOpens(toks, s, fuel - 1);
    TryAllPicksFirst(toks, s, Fresh(s), AllAlternatives, fuel, 0);
  }

  /** A token other than whitespace, `;` and `}` starts a statement: the
      nested parse from there either fails, failing the block, or gives the
      next statement of the block, which goes on after it. */
  lemma BlockStatement(toks: seq<Token>, start: nat, i: nat, content: seq<Node>, fuel: nat)
    requires i < |toks| && fuel >= 1 && toks[i].Kind() != Whitespace
    requires !Is(toks[i], CloseCurly) && !Is(toks[i], SemiColon)
    ensures var p := ParseNode(toks, i, None, fuel);
      BlockLoop(toks, start, Fresh(i), content, fuel) ==
        if p.Ok? then BlockLoop(toks, start, Fresh(p.value.cursor.index), content + [p.value.node], fuel - 1) else p
  {
    assert SkipWhitespace(toks, Fresh(i)) == Ok(Fresh(i));
  }

  /** Between statements, `;` is skipped. */
  lemma BlockSemicolon(toks: seq<Token>, start: nat, i: nat, content: seq<Node>, fuel: nat)
    requires i < |toks| && fuel >= 1 && toks[i] == SymbolToken(Symbol, SemiColon)
    ensures BlockLoop(toks, start, Fresh(i), content, fuel) == BlockLoop(toks, start, Fresh(i + 1), content, fuel - 1)
  {
    assert SkipWhitespace(toks, Fresh(i)) == Ok(Fresh(i));
  }

  /** Between statements, `}` closes the block with the statements read so
      far, one bracket below the start. */
  lemma BlockClose(toks: seq<Token>, start: nat, i: nat, content: seq<Node>, fuel: nat)
    requires i < |toks| && fuel >= 1 && toks[i] == SymbolToken(Symbol, CloseCurly)
    ensures BlockLoop(toks, start, Fresh(i), content, fuel) ==
      Ok(Outcome(BlockNode(Span(start, i + 1), content), Cursor(i + 1, -1, None, false)))
  {
    assert SkipWhitespace(toks, Fresh(i)) == Ok(Fresh(i));
    assert SkipWhitespace(toks, Cursor(i, -1, None, false)) == Ok(Cursor(i, -1, None, false));
  }

  /** `(w)`: the Parenthesis alternative yields the identifier inside. */
  lemma ParenWord(toks: seq<Token>, s: nat, fuel: nat)
    requires s + 2 < |toks| && fuel >= 2
    requires toks[s] == SymbolToken(Symbol, OpenParen) && toks[s + 2] == SymbolToken(Symbol, CloseParen)
    requires toks[s + 1].TextToken? && IsWord(toks[s + 1].text)
    ensures ParenParser(toks, Fresh(s), fuel) == Ok(Outcome(IdentifierNode(Span(s + 1, s + 2), toks[s + 1].text), Fresh(s + 3)))
  {
    LoneWordAnywhere(toks, s + 1, fuel);
  }

  /** `type name() body`: after a word, a space, a word, `(` and `)`, and any
      whitespace, the body is parsed from the first other token; the node
      carries the name and the body and ends where the body ends. */
  lemma NamedShape(toks: seq<Token>, s: nat, b: nat, fuel: nat)
    requires s + 5 <= b < |toks| && fuel >= 1
    requires toks[s].TextToken? && IsWord(toks[s].text) && toks[s + 1] == SymbolToken(Whitespace, Space)
    requires toks[s + 2].TextToken? && IsWord(toks[s + 2].text)
    requires toks[s + 3] == SymbolToken(Symbol, OpenParen) && toks[s + 4] == SymbolToken(Symbol, CloseParen)
    requires forall k :: s + 5 <= k < b ==> toks[k].Kind() == Whitespace
    requires toks[b].Kind() != Whitespace
    ensures var body := ParseNode(toks, b, None, fuel);
      NamedFunctionParser(toks, s, Fresh(s), fuel) ==
        if body.Ok? then
          Ok(Outcome(NamedFunctionNode(Span(s, body.value.cursor.index), toks[s + 2].text, body.value.node), Fresh(body.value.cursor.index)))
        else body
  {
    WordIsType(toks, s, fuel);
    assert ConsumeNode(toks, Fresh(s + 2), Some([Some(Identifier)]), fuel) ==
      Ok(Outcome(IdentifierNode(Span(s + 2, s + 3), toks[s + 2].text), Fresh(s + 3))) by {
      TypeFilter(toks, s + 2, fuel);
      assert SkipWhitespace(toks, Fresh(s + 2)) == Ok(Fresh(s + 2));
    }
    assert Expect(toks, Fresh(s + 3), OpenParen) == Ok(Expected(true, Cursor(s + 4, 1, None, false)));
    assert Expect(toks, Cursor(s + 4, 1, None, false), CloseParen) == Ok(Expected(true, Fresh(s + 5)));
    SkipTo(toks, Fresh(s + 5), b);
  }

  /** A successful run of the alternatives is the result of one of them. */
  lemma {:induction false} TryAllOk(toks: seq<Token>, start: nat, c: Cursor, alts: seq<Alternative>, fuel: nat)
    ensures TryAll(toks, start, c, alts, fuel).Ok? ==>
      fuel > 0 && exists j :: 0 <= j < |alts| && TryAll(toks, start, c, alts, fuel) == RunAlt(toks, start, c, alts[j], fuel - 1)
    decreases |alts|
  {
    if alts != [] && fuel > 0 && RunAlt(toks, start, c, alts[0], fuel - 1).NoMatch? {
      TryAllOk(toks, start, c, alts[1..], fuel);
      if TryAll(toks, start, c, alts[1..], fuel).Ok? {
        var j :| 0 <= j < |alts[1..]| && TryAll(toks, start, c, alts[1..], fuel) == RunAlt(toks, start, c, alts[1..][j], fuel - 1);
        assert alts[1..][j] == alts[j + 1];
      }
    }
  }

  /** When no alternative yields a node, neither does the dispatch. */
  lemma {:induction false} TryAllNoneOk(toks: seq<Token>, start: nat, c: Cursor, alts: seq<Alternative>, fuel: nat)
    requires fuel > 0 ==> forall j :: 0 <= j < |alts| ==> !RunAlt(toks, start, c, alts[j], fuel - 1).Ok?
    ensures !TryAll(toks, start, c, alts, fuel).Ok?
    decreases |alts|
  {
    if alts != [] && fuel > 0 {
      assert !RunAlt(toks, start, c, alts[0], fuel - 1).Ok?;
      assert forall j :: 0 <= j < |alts[1..]| ==> alts[1..][j] == alts[j + 1];
      TryAllNoneOk(toks, start, c, alts[1..], fuel);
    }
  }

  /** At `{`, only the Block alternative can yield a node: every other one
      declines, or throws when it tries to read `{` as a callee. */
  lemma CurlyOnlyBlock(toks: seq<Token>, start: nat, c: Cursor, alt: Alternative, fuel: nat)
    requires c.index < |toks| && toks[c.index] == SymbolToken(Symbol, OpenCurly)
    ensures RunAlt(toks, start, c, alt, fuel).Ok? ==> alt == BlockAlt
    decreases fuel, 2
  {
    match alt
    case NamedFunctionAlt =>
      CurlyNoType(toks, c, fuel);
      assert !NamedFunctionParser(toks, start, c, fuel).Ok?;
    case InlineFunctionAlt =>
      CurlyNoType(toks, c, fuel);
      assert !InlineFunctionParser(toks, start, c, fuel).Ok?;
    case ExecutionAlt =>
      CurlyNoCallee(toks, c, fuel);
      assert !ExecutionParser(toks, start, c, fuel).Ok?;
    case _ =>
  }

  /** `{` is not a type. */
  lemma CurlyNoType(toks: seq<Token>, c: Cursor, fuel: nat)
    requires c.index < |toks| && toks[c.index] == SymbolToken(Symbol, OpenCurly)
    ensures !TypePrefix(toks, c, fuel).Ok?
  {
    var i := c.index;
    assert SkipWhitespace(toks, Fresh(i)) == Ok(Fresh(i));
    TypesList();
    if fuel >= 1 { TypeFilter(toks, i, fuel); }
  }

  /** `{` is not a callee: every executable alternative declines it, so the
      nested parse throws. */
  lemma CurlyNoCallee(toks: seq<Token>, c: Cursor, fuel: nat)
    requires c.index < |toks| && toks[c.index] == SymbolToken(Symbol, OpenCurly)
    ensures !ConsumeNode(toks, c, Some(Executables), fuel).Ok?
    decreases fuel, 1
  {
    var i := c.index;
    var alts := AlternativesFor(Some(Executables));
    assert BlockAlt !in alts by { ExecutablesList(); }
    CurlyOthersFail(toks, i, alts, fuel);
    assert ParseNode(toks, i, Some(Executables), fuel) == TryAll(toks, i, Fresh(i), alts, fuel) by {
      StartsAt(toks, i, Some(Executables), fuel);
    }
  }

  /** At `{`, a list of alternatives without Block yields no node. */
  lemma CurlyOthersFail(toks: seq<Token>, i: nat, alts: seq<Alternative>, fuel: nat)
    requires i < |toks| && toks[i] == SymbolToken(Symbol, OpenCurly) && BlockAlt !in alts
    ensures !TryAll(toks, i, Fresh(i), alts, fuel).Ok?
    decreases fuel, 0
  {
    if fuel > 0 {
      forall j | 0 <= j < |alts| ensures !RunAlt(toks, i, Fresh(i), alts[j], fuel - 1).Ok? {
        CurlyOnlyBlock(toks, i, Fresh(i), alts[j], fuel - 1);
      }
    }
    TryAllNoneOk(toks, i, Fresh(i), alts, fuel);
  }

  /** A parse from `{` that succeeds yields a block starting there. */
  lemma CurlyIsBlock(toks: seq<Token>, s: nat, fuel: nat)
    requires s < |toks| && toks[s] == SymbolToken(Symbol, OpenCurly)
    ensures ParseNode(toks, s, None, fuel).Ok? ==>
      ParseNode(toks, s, None, fuel).value.node.BlockNode? && ParseNode(toks, s, None, fuel).value.node.pos.start == s
  {
    var alts := AllAlternatives;
    assert ParseNode(toks, s, None, fuel) == TryAll(toks, s, Fresh(s), alts, fuel) by {
      StartsAt(toks, s, None, fuel);
    }
    if fuel > 0 && RunAlt(toks, s, Fresh(s), BlockAlt, fuel - 1).NoMatch? {
      assert BlockAlt !in alts[1..];
      CurlyOthersFail(toks, s, alts[1..], fuel);
    }
  }

  /** `f() => b` as a statement: no block, no string, and no named function
      since `(` follows the type, so the InlineFunctionDefinition alternative
      reads it and the depth is back to zero after `)` and `>`. */
  lemma ArrowStatement(toks: seq<Token>, s: nat, fuel: nat)
    requires s + 6 < |toks| && fuel >= 3
    requires toks[s].TextToken? && IsWord(toks[s].text)
    requires toks[s + 1] == SymbolToken(Symbol, OpenParen) && toks[s + 2] == SymbolToken(Symbol, CloseParen)
    requires toks[s + 3] == SymbolToken(Symbol, Equal) && toks[s + 4] == SymbolToken(Symbol, RightChevron)
    requires toks[s + 5].TextToken? && IsWord(toks[s + 5].text) && Inert(toks[s + 6])
    ensures ParseNode(toks, s, None, fuel) ==
      Ok(Outcome(InlineFunctionNode(Span(s, s + 6), IdentifierNode(Span(s + 5, s + 6), toks[s + 5].text)), Fresh(s + 6)))
  {
    var r := Ok(Outcome(InlineFunctionNode(Span(s, s + 6), IdentifierNode(Span(s + 5, s + 6), toks[s + 5].text)), Fresh(s + 6)));
    assert TryAll(toks, s, Fresh(s), AllAlternatives, fuel) == r by {
      ArrowNotEarlier(toks, s, fuel - 1);
      assert RunAlt(toks, s, Fresh(s), AllAlternatives[3], fuel - 1) == r by {
        InlineArrowUnchecked(toks, s, toks[s + 2], toks[s + 4], fuel - 1);
      }
      TryAllPicksFirst(toks, s, Fresh(s), AllAlternatives, fuel, 3);
    }
    StartsAt(toks, s, None, fuel);
  }

  /** A word followed by `(` is neither a block, nor a string, nor a named
      function. */
  lemma ArrowNotEarlier(toks: seq<Token>, s: nat, fuel: nat)
    requires s + 1 < |toks| && fuel >= 1
    requires toks[s].TextToken? && IsWord(toks[s].text) && toks[s + 1] == SymbolToken(Symbol, OpenParen)
    ensures forall j :: 0 <= j < 3 ==> RunAlt(toks, s, Fresh(s), AllAlternatives[j], fuel).NoMatch?
  {
    assert RunAlt(toks, s, Fresh(s), AllAlternatives[0], fuel).NoMatch?;
    assert RunAlt(toks, s, Fresh(s), AllAlternatives[1], fuel).NoMatch?;
    assert RunAlt(toks, s, Fresh(s), AllAlternatives[2], fuel).NoMatch? by {
      WordIsType(toks, s, fuel);
    }
  }
}
