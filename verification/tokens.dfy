/** Token kinds and types of the FCL v2 front end, the fixed table that maps a
    single character to its symbol token, and the functions that classify a raw
    string and print a token back (FCL-2/fcl/v2/ast.ts, lines 20-114 and 172-173). */
module Tokens {
  import opened Options

  datatype TokenKind = Text | Symbol | Whitespace

  datatype TokenType =
    | Equal
    | Add | Sub | Mul | Div | Pow | Mod
    | SemiColon | Comma
    | Period | Colon
    | OpenParen | CloseParen
    | OpenSquare | CloseSquare
    | OpenCurly | CloseCurly
    | LeftChevron | RightChevron
    | Backslash
    | SingleQuote | DoubleQuote | BackQuote
    | Space | Newline

  /** A token is either one of the table's symbol tokens (kind Symbol or
      Whitespace, with its type) or a Text token carrying its raw string. */
  datatype Token =
    | SymbolToken(kind: TokenKind, tokenType: TokenType)
    | TextToken(text: string)
  {
    function Kind(): TokenKind {
      if SymbolToken? then kind else Text
    }

    /** The token's `type` field, absent on Text tokens. */
    function Type(): Option<TokenType> {
      if SymbolToken? then Some(tokenType) else None
    }
  }

  /** One row of `TokenMap`: a one-character key and the token it stands for. */
  datatype Entry = Entry(key: char, token: Token)

  /** `TokenMap`, rows in declaration order (the order `Object.keys` reports). */
  const TokenMap: seq<Entry> := [
    Entry('=', SymbolToken(Symbol, Equal)),
    Entry('+', SymbolToken(Symbol, Add)),
    Entry('-', SymbolToken(Symbol, Sub)),
    Entry('*', SymbolToken(Symbol, Mul)),
    Entry('/', SymbolToken(Symbol, Div)),
    Entry('^', SymbolToken(Symbol, Pow)),
    Entry('%', SymbolToken(Symbol, Mod)),
    Entry(';', SymbolToken(Symbol, SemiColon)),
    Entry(',', SymbolToken(Symbol, Comma)),
    Entry('.', SymbolToken(Symbol, Period)),
    Entry(':', SymbolToken(Symbol, Colon)),
    Entry('(', SymbolToken(Symbol, OpenParen)),
    Entry(')', SymbolToken(Symbol, CloseParen)),
    Entry('[', SymbolToken(Symbol, OpenSquare)),
    Entry(']', SymbolToken(Symbol, CloseSquare)),
    Entry('{', SymbolToken(Symbol, OpenCurly)),
    Entry('}', SymbolToken(Symbol, CloseCurly)),
    Entry('<', SymbolToken(Symbol, LeftChevron)),
    Entry('>', SymbolToken(Symbol, RightChevron)),
    Entry('\\', SymbolToken(Symbol, Backslash)),
    Entry('\'', SymbolToken(Symbol, SingleQuote)),
    Entry('"', SymbolToken(Symbol, DoubleQuote)),
    Entry('`', SymbolToken(Symbol, BackQuote)),
    Entry(' ', SymbolToken(Whitespace, Space)),
    Entry('\n', SymbolToken(Whitespace, Newline))
  ]

  /** The raw string is a key of `TokenMap` (keys are single characters). */
  predicate IsKey(raw: string) {
    exists i :: 0 <= i < |TokenMap| && [TokenMap[i].key] == raw
  }

  /** Index of the first row from `i` on whose key is the character `c`. */
  function FindKey(c: char, i: nat): (r: Option<nat>)
    requires i <= |TokenMap|
    ensures r.Some? ==> i <= r.value < |TokenMap|
    decreases |TokenMap| - i
  {
    if i == |TokenMap| then None
    else if TokenMap[i].key == c then Some(i)
    else FindKey(c, i + 1)
  }

  /** `FindKey` finds a row exactly when one from `i` on has the key. */
  lemma {:induction false} FindKeySpec(c: char, i: nat)
    requires i <= |TokenMap|
    ensures FindKey(c, i).Some? ==> TokenMap[FindKey(c, i).value].key == c
    ensures FindKey(c, i).None? ==> forall k :: i <= k < |TokenMap| ==> TokenMap[k].key != c
    decreases |TokenMap| - i
  {
    if i < |TokenMap| && TokenMap[i].key != c {
      FindKeySpec(c, i + 1);
    }
  }

  /** `TokenMap[raw] ?? { kind: Text, text: raw }` for one raw string. Every
      key is one character, so only a one-character string can hit. */
  function Classify(raw: string): Token {
    if |raw| != 1 then TextToken(raw)
    else
      match FindKey(raw[0], 0)
      case Some(i) => TokenMap[i].token
      case None => TextToken(raw)
  }

  /** A raw string classifies to a symbol token exactly when it is a key of the
      table, and then to that key's row; anything else stays a Text token
      carrying the raw string. */
  lemma ClassifySpec(raw: string)
    ensures Classify(raw).SymbolToken? <==> IsKey(raw)
    ensures Classify(raw).SymbolToken? ==> exists i :: 0 <= i < |TokenMap| && [TokenMap[i].key] == raw && TokenMap[i].token == Classify(raw)
    ensures Classify(raw).TextToken? ==> Classify(raw).text == raw
  {
    TokenMapRows();
    if |raw| == 1 {
      FindKeySpec(raw[0], 0);
      assert forall i :: 0 <= i < |TokenMap| ==> ([TokenMap[i].key] == raw <==> TokenMap[i].key == raw[0]);
    }
  }

  /** `ConvertTokens`: classify every raw string, in order. */
  function ConvertTokens(raws: seq<string>): (ts: seq<Token>)
    ensures |ts| == |raws|
    ensures forall i :: 0 <= i < |raws| ==> ts[i] == Classify(raws[i])
  {
    if raws == [] then [] else [Classify(raws[0])] + ConvertTokens(raws[1..])
  }

  /** The properties every JavaScript object literal inherits from
      `Object.prototype`; looking one of them up on `TokenMap` finds a value
      that is neither a row nor `undefined`. */
  const PrototypeNames: set<string> := {
    "constructor", "__proto__", "toString", "toLocaleString", "valueOf",
    "hasOwnProperty", "isPrototypeOf", "propertyIsEnumerable",
    "__defineGetter__", "__defineSetter__", "__lookupGetter__", "__lookupSetter__"
  }

  /** What `TokenMap[raw] ?? { kind: Text, text: raw }` evaluates to: a token,
      or the inherited property `name` of the object. */
  datatype Looked = Row(token: Token) | Inherited(name: string)

  /** The lookup as the code writes it, with the object's inherited
      properties in reach of the index expression. */
  function LookupAsWritten(raw: string): (r: Looked)
    ensures r.Inherited? <==> raw in PrototypeNames
    ensures r.Row? ==> r.token == Classify(raw)
  {
    if |raw| == 1 then Row(Classify(raw))
    else if raw in PrototypeNames then Inherited(raw)
    else Row(TextToken(raw))
  }

  /** Index of the first row from `i` on whose token has the given kind and type
      (the `findIndex` in `getRaw`). */
  function FindToken(t: Token, i: nat): (r: Option<nat>)
    requires i <= |TokenMap|
    ensures r.Some? ==> i <= r.value < |TokenMap| && TokenMap[r.value].token == t
    ensures r.None? ==> forall k :: i <= k < |TokenMap| ==> TokenMap[k].token != t
    decreases |TokenMap| - i
  {
    if i == |TokenMap| then None
    else if TokenMap[i].token.Kind() == t.Kind() && TokenMap[i].token.Type() == t.Type() then
      assert TokenMap[i].token == t;
      Some(i)
    else FindToken(t, i + 1)
  }

  /** `getRaw`: the table key of a symbol token, else the token's text, else "?". */
  function GetRaw(t: Token): string {
    match FindToken(t, 0)
    case Some(i) => [TokenMap[i].key]
    case None => if t.TextToken? then t.text else "?"
  }

  /** No two rows of the table hold the same token, and every row holds a
      symbol token. */
  lemma TokenMapRows()
    ensures forall i, j :: 0 <= i < j < |TokenMap| ==> TokenMap[i].token != TokenMap[j].token
    ensures forall i :: 0 <= i < |TokenMap| ==> TokenMap[i].token.SymbolToken?
  {
  }

  /** No two rows of the table share a key. */
  lemma TokenMapKeys()
    ensures forall i, j :: 0 <= i < j < |TokenMap| ==> TokenMap[i].key != TokenMap[j].key
  {
  }

  /** A key of the table classifies to its own row's token. */
  lemma ClassifyKey(i: nat)
    requires i < |TokenMap|
    ensures Classify([TokenMap[i].key]) == TokenMap[i].token
  {
    TokenMapKeys();
    ClassifySpec([TokenMap[i].key]);
    assert IsKey([TokenMap[i].key]);
  }

  /** Every row of the table is a Symbol or Whitespace token. */
  lemma TableKinds()
    ensures forall i :: 0 <= i < |TokenMap| ==> TokenMap[i].token.Kind() != Text
  {
  }

  /** `getRaw` inverts the classifier: every raw string is recovered from its token. */
  lemma GetRawClassify(raw: string)
    ensures GetRaw(Classify(raw)) == raw
  {
    var t := Classify(raw);
    ClassifySpec(raw);
    TokenMapRows();
    if t.SymbolToken? {
      var i :| 0 <= i < |TokenMap| && [TokenMap[i].key] == raw && TokenMap[i].token == t;
      var k := FindToken(t, 0);
      assert k.Some?;
      assert k == Some(i);
    }
  }

  /** Index of the first `c` in `s`, or `|s|` when there is none. */
  function FirstIndex(s: string, c: char): (i: nat)
    ensures i <= |s|
    ensures i < |s| ==> s[i] == c
    ensures c !in s[..i]
  {
    if s == [] then 0
    else if s[0] == c then 0
    else
      var i := 1 + FirstIndex(s[1..], c);
      assert s[..i] == [s[0]] + s[1..][..i - 1];
      i
  }

  /** The first occurrence of `c` in `s` replaced by `rep` (JavaScript's
      `String.prototype.replace` with a one-character string pattern). */
  function ReplaceFirst(s: string, c: char, rep: string): (r: string)
    ensures c !in s ==> r == s
    ensures c in s ==> exists i :: 0 <= i < |s| && s[i] == c && c !in s[..i] && r == s[..i] + rep + s[i + 1..]
  {
    var i := FirstIndex(s, c);
    if i == |s| then
      assert s[..i] == s;
      s
    else
      s[..i] + rep + s[i + 1..]
  }

  /** `getText`: the raw string with the first space spelled "space" and then
      the first newline spelled "newline". */
  function GetText(t: Token): string {
    ReplaceFirst(ReplaceFirst(GetRaw(t), ' ', "space"), '\n', "newline")
  }

  /** `getErrFormat`: how an error message names a token. */
  function GetErrFormat(t: Token): string {
    if t.Kind() != Text then GetText(t) else "token " + GetText(t)
  }

  /** A symbol token is named by its key, with space and newline spelled out. */
  lemma ErrFormatOfKey(raw: string)
    requires IsKey(raw)
    ensures GetErrFormat(Classify(raw)) ==
      if raw == " " then "space" else if raw == "\n" then "newline" else raw
  {
    GetRawClassify(raw);
    ClassifySpec(raw);
    var t := Classify(raw);
    var i :| 0 <= i < |TokenMap| && [TokenMap[i].key] == raw && TokenMap[i].token == t;
    TableKinds();
    assert t.Kind() != Text;
    assert GetRaw(t) == raw;
    assert |raw| == 1;
    if raw == " " {
      assert ReplaceFirst(raw, ' ', "space") == "space";
      assert '\n' !in "space";
    } else {
      assert ' ' !in raw;
      assert ReplaceFirst(raw, ' ', "space") == raw;
      if raw == "\n" {
        assert ReplaceFirst(raw, '\n', "newline") == "newline";
      } else {
        assert '\n' !in raw;
      }
    }
  }

  /** A Text token is named "token " followed by its text, when that text holds
      no space or newline (every Text token the lexer produces). */
  lemma ErrFormatOfText(raw: string)
    requires !IsKey(raw) && ' ' !in raw && '\n' !in raw
    ensures GetErrFormat(Classify(raw)) == "token " + raw
  {
    GetRawClassify(raw);
    ClassifySpec(raw);
  }
}
