/** The FCL v2 lexer `Tokenise` (FCL-2/fcl/v2/ast.ts, lines 116-170): it folds
    over the characters of the source, keeping a list of string buffers whose
    last element is the one being filled. */
module Lexer {
  import opened Options

  /** `combChar`: characters that glue onto a preceding combining character. */
  predicate IsCombining(c: char) {
    c == '=' || c == '+' || c == '-' || c == '*' || c == '/' || c == '^' || c == '%'
  }

  /** `sepChar`: characters that always stand alone. */
  predicate IsSeparator(c: char) {
    || c == ';' || c == ',' || c == '.' || c == ':' || c == '!' || c == '?'
    || c == '(' || c == ')' || c == '[' || c == ']' || c == '{' || c == '}'
    || c == '<' || c == '>' || c == '\\' || c == '\'' || c == '"' || c == '`'
    || c == ' ' || c == '\n'
  }

  /** `combChar.includes(s)`: the buffer is exactly one combining character. */
  predicate IsCombiningToken(s: string) {
    |s| == 1 && IsCombining(s[0])
  }

  /** The strings joined end to end. */
  function Concat(ss: seq<string>): string {
    if ss == [] then "" else Concat(ss[..|ss| - 1]) + ss[|ss| - 1]
  }

  lemma ConcatAppend(ss: seq<string>, s: string)
    ensures Concat(ss + [s]) == Concat(ss) + s
  {
    assert (ss + [s])[..|ss|] == ss;
  }

  /** One iteration of the loop for character `c`; `next` is the character
      after it, absent at the end of the text. */
  function Step(bufs: seq<string>, c: char, next: Option<char>): (r: seq<string>)
    requires |bufs| > 0
    ensures |r| > 0
  {
    var n := |bufs| - 1;
    var last := bufs[n];
    if IsCombining(c) then
      if IsCombiningToken(last) || last == "" then
        bufs[..n] + [last + [c]]
      else if next.Some? && IsCombining(next.value) then
        bufs + [[c]]
      else
        bufs + [[c]] + [""]
    else if IsSeparator(c) then
      (if last == "" then bufs[..n] + [[c]] else bufs + [[c]]) + [""]
    else
      bufs[..n] + [last + [c]]
  }

  /** A step appends exactly its character to the joined buffers. */
  lemma StepConcat(bufs: seq<string>, c: char, next: Option<char>)
    requires |bufs| > 0
    ensures Concat(Step(bufs, c, next)) == Concat(bufs) + [c]
  {
    var last := bufs[|bufs| - 1];
    if IsCombining(c) && !(IsCombiningToken(last) || last == "") {
      if next.Some? && IsCombining(next.value) {
        OpenConcat(bufs, c, next);
      } else {
        CloseConcat(bufs, c, next);
      }
    } else if IsSeparator(c) {
      SeparatorConcat(bufs, c, next);
    } else {
      GrowConcat(bufs, c, next);
    }
  }

  lemma GrowConcat(bufs: seq<string>, c: char, next: Option<char>)
    requires |bufs| > 0
    requires var last := bufs[|bufs| - 1];
      if IsCombining(c) then IsCombiningToken(last) || last == "" else !IsSeparator(c)
    ensures Concat(Step(bufs, c, next)) == Concat(bufs) + [c]
  {
    GrowLast(bufs, c, next);
    ConcatGrowLast(bufs, [c]);
  }

  lemma OpenConcat(bufs: seq<string>, c: char, next: Option<char>)
    requires |bufs| > 0
    requires var last := bufs[|bufs| - 1];
      IsCombining(c) && !(IsCombiningToken(last) || last == "") && next.Some? && IsCombining(next.value)
    ensures Concat(Step(bufs, c, next)) == Concat(bufs) + [c]
  {
    assert Step(bufs, c, next) == bufs + [[c]];
    ConcatAppend(bufs, [c]);
  }

  lemma CloseConcat(bufs: seq<string>, c: char, next: Option<char>)
    requires |bufs| > 0
    requires var last := bufs[|bufs| - 1];
      IsCombining(c) && !(IsCombiningToken(last) || last == "") && !(next.Some? && IsCombining(next.value))
    ensures Concat(Step(bufs, c, next)) == Concat(bufs) + [c]
  {
    assert Step(bufs, c, next) == bufs + [[c]] + [""];
    ConcatPushThenEmpty(bufs, c);
  }

  lemma SeparatorConcat(bufs: seq<string>, c: char, next: Option<char>)
    requires |bufs| > 0 && IsSeparator(c)
    ensures Concat(Step(bufs, c, next)) == Concat(bufs) + [c]
  {
    var n := |bufs| - 1;
    assert !IsCombining(c);
    if bufs[n] == "" {
      assert Step(bufs, c, next) == bufs[..n] + [[c]] + [""];
      ConcatReplaceEmpty(bufs, c);
    } else {
      assert Step(bufs, c, next) == bufs + [[c]] + [""];
      ConcatPushThenEmpty(bufs, c);
    }
  }

  lemma ConcatPushThenEmpty(bufs: seq<string>, c: char)
    ensures Concat(bufs + [[c]] + [""]) == Concat(bufs) + [c]
  {
    ConcatAppend(bufs, [c]);
    ConcatAppend(bufs + [[c]], "");
  }

  lemma ConcatReplaceEmpty(bufs: seq<string>, c: char)
    requires |bufs| > 0 && bufs[|bufs| - 1] == ""
    ensures Concat(bufs[..|bufs| - 1] + [[c]] + [""]) == Concat(bufs) + [c]
  {
    var n := |bufs| - 1;
    assert [c] == bufs[n] + [c];
    ConcatGrowLast(bufs, [c]);
    ConcatAppend(bufs[..n] + [[c]], "");
  }

  lemma ConcatLast(bufs: seq<string>)
    requires |bufs| > 0
    ensures Concat(bufs) == Concat(bufs[..|bufs| - 1]) + bufs[|bufs| - 1]
  {
  }

  lemma Associative(a: string, b: string, c: string)
    ensures a + (b + c) == (a + b) + c
  {
  }

  lemma ConcatGrowLast(bufs: seq<string>, s: string)
    requires |bufs| > 0
    ensures Concat(bufs[..|bufs| - 1] + [bufs[|bufs| - 1] + s]) == Concat(bufs) + s
  {
    var n := |bufs| - 1;
    ConcatAppend(bufs[..n], bufs[n] + s);
    ConcatLast(bufs);
    Associative(Concat(bufs[..n]), bufs[n], s);
  }

  /** The buffer list after the loop has consumed the first `n` characters. */
  function Buffers(text: string, n: nat): (r: seq<string>)
    requires n <= |text|
    ensures |r| > 0
  {
    if n == 0 then [""]
    else Step(Buffers(text, n - 1), text[n - 1], if n < |text| then Some(text[n]) else None)
  }

  /** `Tokenise`: the buffers after the whole text, with a trailing empty buffer dropped. */
  function Tokenise(text: string): seq<string> {
    Trim(Buffers(text, |text|))
  }

  /** Drops a trailing empty buffer. */
  function Trim(b: seq<string>): seq<string>
    requires |b| > 0
  {
    if b[|b| - 1] == "" then b[..|b| - 1] else b
  }

  /** Joining the raw tokens gives back the text. */
  lemma TokeniseJoins(text: string)
    ensures Concat(Tokenise(text)) == text
  {
    var b := Buffers(text, |text|);
    BuffersConcat(text, |text|);
    assert text[..|text|] == text;
    var n := |b| - 1;
    assert Concat(b) == Concat(b[..n]) + b[n];
  }

  /** No raw token is empty; a separator is always a raw token of its own;
      combining characters only lead a raw token, at most two of them. */
  lemma TokeniseSegments(text: string)
    ensures forall k :: 0 <= k < |Tokenise(text)| ==> Tokenise(text)[k] != ""
    ensures SeparatorsIsolated(Tokenise(text))
    ensures forall k :: 0 <= k < |Tokenise(text)| ==> CombiningPrefix(Tokenise(text)[k])
  {
    var b := Buffers(text, |text|);
    BuffersSegmented(text, |text|);
    var ts := Tokenise(text);
    assert forall k :: 0 <= k < |ts| ==> ts[k] == b[k];
    WellFormedIsolated(ts);
  }

  /** Every buffer holding a separator is that separator alone. */
  predicate SeparatorsIsolated(ts: seq<string>) {
    forall k, j :: 0 <= k < |ts| && 0 <= j < |ts[k]| && IsSeparator(ts[k][j]) ==> ts[k] == [ts[k][j]]
  }

  /** Combining characters occur only in the first two positions of a buffer,
      and only when the buffer starts with one. */
  predicate CombiningPrefix(t: string) {
    forall j :: 0 <= j < |t| && IsCombining(t[j]) ==> j < 2 && IsCombining(t[0])
  }

  /** The string holds no separator character. */
  predicate NoSeparator(s: string) {
    forall j :: 0 <= j < |s| ==> !IsSeparator(s[j])
  }

  /** A buffer is a lone separator or holds none, and keeps its combining
      characters in front. */
  predicate WellFormedBuffer(t: string) {
    && (NoSeparator(t) || (|t| == 1 && IsSeparator(t[0])))
    && CombiningPrefix(t)
  }

  /** What holds of the buffer list between two iterations of the loop. */
  predicate Segmented(bufs: seq<string>) {
    && |bufs| > 0
    && (forall k :: 0 <= k < |bufs| ==> WellFormedBuffer(bufs[k]))
    && (forall k :: 0 <= k < |bufs| - 1 ==> bufs[k] != "")
    && NoSeparator(bufs[|bufs| - 1])
  }

  lemma WellFormedIsolated(ts: seq<string>)
    requires forall k :: 0 <= k < |ts| ==> WellFormedBuffer(ts[k])
    ensures SeparatorsIsolated(ts)
  {
    forall k, j | 0 <= k < |ts| && 0 <= j < |ts[k]| && IsSeparator(ts[k][j])
      ensures ts[k] == [ts[k][j]]
    {
      assert WellFormedBuffer(ts[k]);
    }
  }

  /** Replacing the last buffer by a longer one without separators. */
  lemma SegmentedGrowLast(bufs: seq<string>, t: string)
    requires Segmented(bufs)
    requires NoSeparator(t) && CombiningPrefix(t)
    ensures Segmented(bufs[..|bufs| - 1] + [t])
  {
    var r := bufs[..|bufs| - 1] + [t];
    forall k | 0 <= k < |r| ensures WellFormedBuffer(r[k]) {
      if k < |bufs| - 1 { assert r[k] == bufs[k]; }
    }
  }

  /** Closing the last (non-empty) buffer and opening the buffer `t`. */
  lemma SegmentedPush(bufs: seq<string>, t: string)
    requires Segmented(bufs) && bufs[|bufs| - 1] != ""
    requires WellFormedBuffer(t)
    ensures forall k :: 0 <= k < |bufs + [t]| ==> WellFormedBuffer((bufs + [t])[k])
    ensures forall k :: 0 <= k < |bufs + [t]| - 1 ==> (bufs + [t])[k] != ""
  {
  }

  lemma StepSegmented(bufs: seq<string>, c: char, next: Option<char>)
    requires Segmented(bufs)
    ensures Segmented(Step(bufs, c, next))
  {
    var n := |bufs| - 1;
    var last := bufs[n];
    var r := Step(bufs, c, next);
    if IsCombining(c) {
      assert !IsSeparator(c);
      if IsCombiningToken(last) || last == "" {
        assert r == bufs[..n] + [last + [c]];
        SegmentedGrowLast(bufs, last + [c]);
      } else if next.Some? && IsCombining(next.value) {
        assert r == bufs + [[c]];
        SegmentedPush(bufs, [c]);
      } else {
        assert r == bufs + [[c]] + [""];
        SegmentedPush(bufs, [c]);
        SegmentedPush(bufs + [[c]], "");
      }
    } else if IsSeparator(c) {
      if last == "" {
        assert r == bufs[..n] + [[c]] + [""];
        var b := bufs[..n] + [[c]];
        assert forall k :: 0 <= k < |b| ==> WellFormedBuffer(b[k]) by {
          forall k | 0 <= k < |b| ensures WellFormedBuffer(b[k]) {
            if k < n { assert b[k] == bufs[k]; }
          }
        }
        assert forall k :: 0 <= k < |b| ==> b[k] != "" by {
          forall k | 0 <= k < |b| ensures b[k] != "" {
            if k < n { assert b[k] == bufs[k]; }
          }
        }
        assert r == b + [""];
      } else {
        assert r == bufs + [[c]] + [""];
        SegmentedPush(bufs, [c]);
      }
    } else {
      assert r == bufs[..n] + [last + [c]];
      SegmentedGrowLast(bufs, last + [c]);
    }
  }

  lemma {:induction false} BuffersSegmented(text: string, n: nat)
    requires n <= |text|
    ensures Segmented(Buffers(text, n))
  {
    if n > 0 {
      var prev := Buffers(text, n - 1);
      var next := if n < |text| then Some(text[n]) else None;
      assert Buffers(text, n) == Step(prev, text[n - 1], next);
      BuffersSegmented(text, n - 1);
      StepSegmented(prev, text[n - 1], next);
    }
  }

  lemma {:induction false} BuffersConcat(text: string, n: nat)
    requires n <= |text|
    ensures Concat(Buffers(text, n)) == text[..n]
  {
    if n > 0 {
      BuffersConcat(text, n - 1);
      BuffersConcatStep(text, n);
      PrefixGrow(text, n);
    }
  }

  /** One more iteration appends one more character to the joined buffers. */
  lemma BuffersConcatStep(text: string, n: nat)
    requires 0 < n <= |text|
    ensures Concat(Buffers(text, n)) == Concat(Buffers(text, n - 1)) + [text[n - 1]]
  {
    var next := if n < |text| then Some(text[n]) else None;
    BuffersNext(text, n);
    StepConcat(Buffers(text, n - 1), text[n - 1], next);
  }

  lemma BuffersNext(text: string, n: nat)
    requires 0 < n <= |text|
    ensures Buffers(text, n) == Step(Buffers(text, n - 1), text[n - 1], if n < |text| then Some(text[n]) else None)
  {
  }

  lemma PrefixGrow(text: string, n: nat)
    requires 0 < n <= |text|
    ensures text[..n] == text[..n - 1] + [text[n - 1]]
  {
  }

  /** The loop of `Tokenise` as written: buffers are updated in place. */
  method TokeniseLoop(text: string) returns (tokens: seq<string>)
    ensures tokens == Tokenise(text)
  {
    tokens := [""];
    var i := 0;
    while i < |text|
      invariant i <= |text|
      invariant tokens == Buffers(text, i)
    {
      var c := text[i];
      var next := if i + 1 < |text| then Some(text[i + 1]) else None;
      assert Buffers(text, i + 1) == Step(tokens, c, next);
      tokens := Iteration(tokens, c, next);
      i := i + 1;
    }
    if tokens[|tokens| - 1] == "" {
      tokens := tokens[..|tokens| - 1];
    }
  }

  /** The body of the loop, updating the last buffer in place. */
  method Iteration(tokens: seq<string>, c: char, next: Option<char>) returns (r: seq<string>)
    requires |tokens| > 0
    ensures r == Step(tokens, c, next)
  {
    r := tokens;
    var lastI := |r| - 1;
    var last := r[lastI];
    if IsCombining(c) {
      if IsCombiningToken(last) || last == "" {
        r := r[lastI := last + [c]];
        assert r == tokens[..lastI] + [last + [c]];
      } else if next.Some? && IsCombining(next.value) {
        r := r + [[c]];
      } else {
        r := r + [[c], ""];
      }
    } else if IsSeparator(c) {
      if last == "" {
        r := r[lastI := [c]];
        assert r == tokens[..lastI] + [[c]];
      } else {
        r := r + [[c]];
      }
      r := r + [""];
    } else {
      r := r[lastI := last + [c]];
      assert r == tokens[..lastI] + [last + [c]];
    }
  }


  /** A character that is neither combining nor a separator: it extends
      whatever buffer is open. */
  predicate IsPlain(c: char) {
    !IsCombining(c) && !IsSeparator(c)
  }

  /** The empty text has no raw tokens. */
  lemma TokeniseEmpty()
    ensures Tokenise([]) == []
  {
    assert Buffers([], 0) == [""];
  }

  /** Two adjacent combining characters glue into one raw token ("=="). */
  lemma TokeniseGluesOperators(a: char, b: char)
    requires IsCombining(a) && IsCombining(b)
    ensures Tokenise([a, b]) == [[a, b]]
  {
    var t := [a, b];
    assert Buffers(t, 1) == [[a]] by {
      assert Buffers(t, 1) == Step([""], a, Some(b));
      GrowLast([""], a, Some(b));
      assert "" + [a] == [a];
    }
    assert Buffers(t, 2) == [[a, b]] by {
      assert Buffers(t, 2) == Step([[a]], b, None);
      GrowLast([[a]], b, None);
      assert [a] + [b] == [a, b];
    }
  }

  /** Separators split from each other ("?:" is two raw tokens). */
  lemma TokeniseSplitsSeparators(a: char, b: char)
    requires IsSeparator(a) && IsSeparator(b)
    ensures Tokenise([a, b]) == [[a], [b]]
  {
    var t := [a, b];
    assert Buffers(t, 1) == [[a], ""] by {
      assert Buffers(t, 1) == Step([""], a, Some(b));
      assert Step([""], a, Some(b)) == [""][..0] + [[a]] + [""];
    }
    assert Buffers(t, 2) == [[a], [b], ""] by {
      assert Buffers(t, 2) == Step([[a], ""], b, None);
      assert Step([[a], ""], b, None) == [[a], ""][..1] + [[b]] + [""];
    }
    assert Tokenise(t) == [[a], [b], ""][..2];
  }

  /** A combining character after text, followed by another combining
      character, opens no empty buffer: the text after the pair joins it
      ("a+=b" is "a" and "+=b"). */
  lemma TokeniseLookahead(x: char, a: char, b: char, y: char)
    requires IsPlain(x) && IsCombining(a) && IsCombining(b) && IsPlain(y)
    ensures Tokenise([x, a, b, y]) == [[x], [a, b, y]]
  {
    var t := [x, a, b, y];
    LookaheadGlues(x, a, b, y);
    assert Buffers(t, 4) == [[x], [a, b, y]] by {
      assert Buffers(t, 4) == Step([[x], [a, b]], y, None);
      GrowLast([[x], [a, b]], y, None);
      assert [a, b] + [y] == [a, b, y];
    }
  }

  /** The second combining character joins the first. */
  lemma LookaheadGlues(x: char, a: char, b: char, y: char)
    requires IsPlain(x) && IsCombining(a) && IsCombining(b)
    ensures Buffers([x, a, b, y], 3) == [[x], [a, b]]
  {
    var t := [x, a, b, y];
    LookaheadOpens(x, a, b, y);
    assert Buffers(t, 3) == Step([[x], [a]], b, Some(y));
    GrowLast([[x], [a]], b, Some(y));
    assert [a] + [b] == [a, b];
  }

  /** Before a second combining character, the first opens a buffer of its
      own and no empty one after it. */
  lemma LookaheadOpens(x: char, a: char, b: char, y: char)
    requires IsPlain(x) && IsCombining(a) && IsCombining(b)
    ensures Buffers([x, a, b, y], 2) == [[x], [a]]
  {
    var t := [x, a, b, y];
    assert Buffers(t, 1) == [[x]] by {
      assert Buffers(t, 1) == Step([""], x, Some(a));
      GrowLast([""], x, Some(a));
      assert "" + [x] == [x];
    }
    assert Buffers(t, 2) == Step([[x]], a, Some(b));
    assert Step([[x]], a, Some(b)) == [[x]] + [[a]];
  }

  /** At most two combining characters glue: a third starts a new raw token
      ("+++" is "++" and "+"). */
  lemma TokeniseRunOfThree(a: char, b: char, c: char)
    requires IsCombining(a) && IsCombining(b) && IsCombining(c)
    ensures Tokenise([a, b, c]) == [[a, b], [c]]
  {
    var t := [a, b, c];
    RunOfThreeGlues(a, b, c);
    assert Buffers(t, 3) == [[a, b], [c], ""] by {
      assert Buffers(t, 3) == Step([[a, b]], c, None);
      assert !IsCombiningToken([a, b]);
      assert Step([[a, b]], c, None) == [[a, b]] + [[c]] + [""];
    }
    assert Tokenise(t) == [[a, b], [c], ""][..2];
  }

  /** The first two of three combining characters glue. */
  lemma RunOfThreeGlues(a: char, b: char, c: char)
    requires IsCombining(a) && IsCombining(b)
    ensures Buffers([a, b, c], 2) == [[a, b]]
  {
    var t := [a, b, c];
    assert Buffers(t, 1) == [[a]] by {
      assert Buffers(t, 1) == Step([""], a, Some(b));
      GrowLast([""], a, Some(b));
      assert "" + [a] == [a];
    }
    assert Buffers(t, 2) == Step([[a]], b, Some(c));
    GrowLast([[a]], b, Some(c));
    assert [a] + [b] == [a, b];
  }

  /** The steps that extend the last buffer by their character. */
  lemma GrowLast(bufs: seq<string>, c: char, next: Option<char>)
    requires |bufs| > 0
    requires var last := bufs[|bufs| - 1];
      if IsCombining(c) then IsCombiningToken(last) || last == "" else !IsSeparator(c)
    ensures Step(bufs, c, next) == bufs[..|bufs| - 1] + [bufs[|bufs| - 1] + [c]]
  {
  }

  /** Every character is a separator, or a plain character standing between
      separators (or the ends of the text). */
  predicate Alternating(text: string) {
    forall i :: 0 <= i < |text| ==> StandsAlone(text, i)
  }

  /** The character at `i` is a separator, or a plain character with a
      separator (or an end of the text) on either side. */
  predicate StandsAlone(text: string, i: nat)
    requires i < |text|
  {
    IsSeparator(text[i]) ||
    (IsPlain(text[i]) && (i == 0 || IsSeparator(text[i - 1])) && (i + 1 == |text| || IsSeparator(text[i + 1])))
  }

  /** One one-character string per character. */
  function Singles(s: string): (r: seq<string>)
    ensures |r| == |s|
    ensures forall i :: 0 <= i < |s| ==> r[i] == [s[i]]
  {
    if s == [] then [] else Singles(s[..|s| - 1]) + [[s[|s| - 1]]]
  }

  /** A text alternating between separators and single plain characters
      lexes to one raw token per character. */
  lemma TokeniseAlternating(text: string)
    requires Alternating(text)
    ensures Tokenise(text) == Singles(text)
  {
    var n := |text|;
    BuffersAlternating(text, n);
    assert text[..n] == text;
    if n > 0 && !IsSeparator(text[n - 1]) {
      assert Buffers(text, n)[|Buffers(text, n)| - 1] == [text[n - 1]];
    }
  }

  /** Between iterations: the characters so far, one buffer each, followed by
      an open empty buffer exactly when the last one was a separator. */
  lemma {:induction false} BuffersAlternating(text: string, n: nat)
    requires Alternating(text) && n <= |text|
    ensures Buffers(text, n) == if n == 0 || IsSeparator(text[n - 1]) then Singles(text[..n]) + [""] else Singles(text[..n])
  {
    if n > 0 {
      BuffersAlternating(text, n - 1);
      SinglesGrow(text, n);
      if IsSeparator(text[n - 1]) {
        AlternatingSeparator(text, n);
      } else {
        assert StandsAlone(text, n - 1);
        AlternatingPlain(text, n);
      }
    }
  }

  lemma SinglesGrow(text: string, n: nat)
    requires 0 < n <= |text|
    ensures Singles(text[..n]) == Singles(text[..n - 1]) + [[text[n - 1]]]
  {
    assert text[..n][..n - 1] == text[..n - 1];
  }

  /** A separator closes the open buffer, or replaces it when empty, and opens
      a new empty one. */
  lemma AlternatingSeparator(text: string, n: nat)
    requires 0 < n <= |text| && IsSeparator(text[n - 1])
    requires var prev := Buffers(text, n - 1);
      prev == if n - 1 == 0 || IsSeparator(text[n - 2]) then Singles(text[..n - 1]) + [""] else Singles(text[..n - 1])
    ensures Buffers(text, n) == Singles(text[..n - 1]) + [[text[n - 1]]] + [""]
  {
    var prev := Buffers(text, n - 1);
    var c := text[n - 1];
    var next := if n < |text| then Some(text[n]) else None;
    var done := Singles(text[..n - 1]);
    assert Buffers(text, n) == Step(prev, c, next);
    assert !IsCombining(c);
    if n - 1 == 0 || IsSeparator(text[n - 2]) {
      assert prev[..|prev| - 1] == done;
      assert Step(prev, c, next) == prev[..|prev| - 1] + [[c]] + [""];
    } else {
      assert prev[|prev| - 1] == [text[n - 2]];
      assert Step(prev, c, next) == prev + [[c]] + [""];
    }
  }

  /** A plain character after a separator fills the open empty buffer. */
  lemma AlternatingPlain(text: string, n: nat)
    requires 0 < n <= |text| && IsPlain(text[n - 1])
    requires n - 1 == 0 || IsSeparator(text[n - 2])
    requires Buffers(text, n - 1) == Singles(text[..n - 1]) + [""]
    ensures Buffers(text, n) == Singles(text[..n - 1]) + [[text[n - 1]]]
  {
    var prev := Buffers(text, n - 1);
    var c := text[n - 1];
    var next := if n < |text| then Some(text[n]) else None;
    assert Buffers(text, n) == Step(prev, c, next);
    GrowLast(prev, c, next);
    assert prev[..|prev| - 1] == Singles(text[..n - 1]);
    assert "" + [c] == [c];
  }

  // ---------------------------------------------------------------------
  // Where one raw token ends and the next begins

  /** The string ends in a plain character. */
  predicate EndsPlain(s: string) {
    |s| > 0 && IsPlain(s[|s| - 1])
  }

  /** What may follow raw token `a`: after a plain character the next token
      starts with a separator or a combining character (a run of plain
      characters is never cut), and after a lone combining character the next
      token does not start with a combining one (the two would have joined). */
  predicate Boundary(a: string, b: string) {
    && (EndsPlain(a) ==> b != "" && !IsPlain(b[0]))
    && (IsCombiningToken(a) ==> b == "" || !IsCombining(b[0]))
  }

  predicate Joined(ts: seq<string>) {
    forall k :: 0 <= k < |ts| - 1 ==> Boundary(ts[k], ts[k + 1])
  }

  /** The open buffer is empty and follows a lone combining character. */
  predicate OpenAfterLoneCombining(bufs: seq<string>) {
    |bufs| >= 2 && bufs[|bufs| - 1] == "" && IsCombiningToken(bufs[|bufs| - 2])
  }

  /** A step keeps the boundaries, given that a lone combining character is
      only ever closed off by the lookahead when the next character is not
      combining. */
  lemma StepJoined(bufs: seq<string>, c: char, next: Option<char>)
    requires |bufs| > 0 && Joined(bufs)
    requires OpenAfterLoneCombining(bufs) ==> !IsCombining(c)
    ensures Joined(Step(bufs, c, next))
    ensures OpenAfterLoneCombining(Step(bufs, c, next)) ==> next.None? || !IsCombining(next.value)
  {
    var n := |bufs| - 1;
    var last := bufs[n];
    var r := Step(bufs, c, next);
    if (IsCombining(c) && (IsCombiningToken(last) || last == "")) || (!IsCombining(c) && !IsSeparator(c)) {
      assert r == bufs[..n] + [last + [c]];
      forall k | 0 <= k < |r| - 1 ensures Boundary(r[k], r[k + 1]) {
        if k == n - 1 {
          assert Boundary(bufs[k], last);
          assert last != "" ==> (last + [c])[0] == last[0];
        } else {
          assert r[k] == bufs[k] && r[k + 1] == bufs[k + 1];
        }
      }
    } else if IsCombining(c) && next.Some? && IsCombining(next.value) {
      assert r == bufs + [[c]];
      forall k | 0 <= k < |r| - 1 ensures Boundary(r[k], r[k + 1]) {
        if k < n { assert r[k] == bufs[k] && r[k + 1] == bufs[k + 1]; }
      }
    } else if IsCombining(c) || last != "" {
      assert r == bufs + [[c]] + [""];
      forall k | 0 <= k < |r| - 1 ensures Boundary(r[k], r[k + 1]) {
        if k < n { assert r[k] == bufs[k] && r[k + 1] == bufs[k + 1]; }
      }
    } else {
      assert r == bufs[..n] + [[c]] + [""];
      forall k | 0 <= k < |r| - 1 ensures Boundary(r[k], r[k + 1]) {
        if k < n - 1 { assert r[k] == bufs[k] && r[k + 1] == bufs[k + 1]; }
        else if k == n - 1 { assert Boundary(bufs[k], last); }
      }
    }
  }

  /** The loop keeps the boundaries after every iteration. */
  lemma {:induction false} BuffersJoined(text: string, n: nat)
    requires n <= |text|
    ensures Joined(Buffers(text, n))
    ensures OpenAfterLoneCombining(Buffers(text, n)) ==> n == |text| || !IsCombining(text[n])
  {
    if n > 0 {
      var prev := Buffers(text, n - 1);
      var next := if n < |text| then Some(text[n]) else None;
      BuffersJoined(text, n - 1);
      assert OpenAfterLoneCombining(prev) ==> !IsCombining(text[n - 1]);
      StepJoined(prev, text[n - 1], next);
      BuffersNext(text, n);
    }
  }

  /** A run of plain characters is never cut in two, and a lone combining
      character is never followed by a raw token that starts with one. */
  lemma TokeniseBoundaries(text: string)
    ensures forall k :: 0 <= k < |Tokenise(text)| ==> Tokenise(text)[k] != ""
    ensures forall k :: 0 <= k < |Tokenise(text)| - 1 && EndsPlain(Tokenise(text)[k]) ==> !IsPlain(Tokenise(text)[k + 1][0])
    ensures forall k :: 0 <= k < |Tokenise(text)| - 1 && IsCombiningToken(Tokenise(text)[k]) ==> !IsCombining(Tokenise(text)[k + 1][0])
  {
    var b := Buffers(text, |text|);
    var ts := Tokenise(text);
    BuffersJoined(text, |text|);
    TokeniseSegments(text);
    assert forall k :: 0 <= k < |ts| ==> ts[k] == b[k];
    forall k | 0 <= k < |ts| - 1 ensures Boundary(ts[k], ts[k + 1]) {
      assert ts[k] == b[k] && ts[k + 1] == b[k + 1];
    }
  }

  /** Once a buffer is closed it stays as it is: a text that opens with a
      separator has that separator as its first raw token. */
  lemma TokeniseOpens(text: string)
    requires |text| > 0 && IsSeparator(text[0])
    ensures |Tokenise(text)| > 0 && Tokenise(text)[0] == [text[0]]
  {
    BuffersKeepFirst(text, |text|);
  }

  lemma {:induction false} BuffersKeepFirst(text: string, n: nat)
    requires 0 < n <= |text| && IsSeparator(text[0])
    ensures |Buffers(text, n)| >= 2 && Buffers(text, n)[0] == [text[0]]
  {
    if n > 1 {
      BuffersKeepFirst(text, n - 1);
    }
  }

  /** A plain character grows the open buffer. */
  lemma StepPlain(done: seq<string>, last: string, c: char, next: Option<char>)
    requires !IsCombining(c) && !IsSeparator(c)
    ensures Step(done + [last], c, next) == done + [last + [c]]
  {
    assert (done + [last])[..|done|] == done;
  }

  /** A text that opens with plain characters keeps them in one buffer. */
  lemma {:induction false} BuffersPlainPrefix(text: string, j: nat)
    requires j <= |text|
    requires forall k :: 0 <= k < j ==> IsPlain(text[k])
    ensures Buffers(text, j) == [text[..j]]
  {
    if j > 0 {
      BuffersPlainPrefix(text, j - 1);
      GrowOnly(text[..j - 1], text[j - 1], if j < |text| then Some(text[j]) else None);
      assert text[..j - 1] + [text[j - 1]] == text[..j];
    }
  }

  lemma GrowOnly(last: string, c: char, next: Option<char>)
    requires IsPlain(c)
    ensures Step([last], c, next) == [last + [c]]
  {
  }

  /** A separator closes the open buffer, if any, stands alone and opens an
      empty one. */
  lemma BuffersSeparator(text: string, i: nat, done: seq<string>, last: string)
    requires i < |text| && IsSeparator(text[i])
    requires Buffers(text, i) == done + [last]
    ensures Buffers(text, i + 1) == if last == "" then done + [[text[i]], ""] else done + [last, [text[i]], ""]
  {
    assert !IsCombining(text[i]);
    assert (done + [last])[..|done|] == done;
  }

  /** When the text ends with an empty open buffer, the raw tokens are the
      buffers before it. */
  lemma TokeniseDropsOpen(text: string, done: seq<string>)
    requires Buffers(text, |text|) == done + [""]
    ensures Tokenise(text) == done
  {
    assert (done + [""])[..|done|] == done;
  }

  /** A step only looks at the open buffer: closed buffers in front stay. */
  lemma StepPrefix(pre: seq<string>, bufs: seq<string>, c: char, next: Option<char>)
    requires |bufs| > 0
    ensures Step(pre + bufs, c, next) == pre + Step(bufs, c, next)
  {
    var n := |bufs| - 1;
    assert (pre + bufs)[..|pre| + n] == pre + bufs[..n];
  }

  /** Only a combining character looks at the character after it. */
  lemma StepIgnoresNext(bufs: seq<string>, c: char, next: Option<char>)
    requires |bufs| > 0 && !IsCombining(c)
    ensures Step(bufs, c, next) == Step(bufs, c, None)
  {
  }

  /** Two texts that agree up to and including position `m` have the same
      buffers after `m` characters. */
  lemma {:induction false} BuffersAgree(x: string, y: string, m: nat)
    requires m < |x| && m < |y|
    requires forall k :: 0 <= k <= m ==> x[k] == y[k]
    ensures Buffers(x, m) == Buffers(y, m)
  {
    if m > 0 {
      BuffersAgree(x, y, m - 1);
      assert x[m - 1] == y[m - 1] && x[m] == y[m];
    }
  }

  /** A text ending in a separator leaves an empty buffer open. */
  lemma BuffersEndOpen(a: string)
    requires |a| > 0 && IsSeparator(a[|a| - 1])
    ensures Buffers(a, |a|) == Tokenise(a) + [""]
  {
    var n := |a|;
    var r := Buffers(a, n);
    assert r[|r| - 1] == "" by {
      SeparatorOpens(Buffers(a, n - 1), a[n - 1], None);
    }
    assert r == r[..|r| - 1] + [""];
  }

  /** A separator always leaves an empty buffer open. */
  lemma SeparatorOpens(bufs: seq<string>, c: char, next: Option<char>)
    requires |bufs| > 0 && IsSeparator(c)
    ensures var r := Step(bufs, c, next); r[|r| - 1] == ""
  {
    assert !IsCombining(c);
  }

  /** After a separator the lexer starts afresh: the buffers of `a + b`
      after `k` characters of `b` are the closed buffers of `a` followed by
      the buffers of `b` alone. */
  lemma {:induction false} BuffersAfter(a: string, b: string, pre: seq<string>, k: nat)
    requires |a| > 0 && !IsCombining(a[|a| - 1]) && Buffers(a, |a|) == pre + [""] && k <= |b|
    ensures Buffers(a + b, |a| + k) == pre + Buffers(b, k)
  {
    if k == 0 {
      BuffersAfterStart(a, b, pre);
    } else {
      BuffersAfter(a, b, pre, k - 1);
      BuffersAfterStep(a, b, pre, k);
    }
  }

  /** Right after `a`, the buffers of `a + b` are those of `a` alone. */
  lemma BuffersAfterStart(a: string, b: string, pre: seq<string>)
    requires |a| > 0 && !IsCombining(a[|a| - 1]) && Buffers(a, |a|) == pre + [""]
    ensures Buffers(a + b, |a| + 0) == pre + Buffers(b, 0)
  {
    var t := a + b;
    var n := |a|;
    assert Buffers(t, n - 1) == Buffers(a, n - 1) by {
      if n > 1 {
        BuffersAgree(t, a, n - 1);
      }
    }
    assert t[n - 1] == a[n - 1];
    StepIgnoresNext(Buffers(t, n - 1), t[n - 1], if n < |t| then Some(t[n]) else None);
  }

  lemma BuffersAfterStep(a: string, b: string, pre: seq<string>, k: nat)
    requires 0 < k <= |b|
    requires Buffers(a + b, |a| + (k - 1)) == pre + Buffers(b, k - 1)
    ensures Buffers(a + b, |a| + k) == pre + Buffers(b, k)
  {
    var next := if k < |b| then Some(b[k]) else None;
    ConcatLookahead(a, b, k);
    StepPrefix(pre, Buffers(b, k - 1), b[k - 1], next);
  }

  lemma ConcatLookahead(a: string, b: string, k: nat)
    requires 0 < k <= |b|
    ensures (a + b)[|a| + k - 1] == b[k - 1]
    ensures (if |a| + k < |a + b| then Some((a + b)[|a| + k]) else None) == (if k < |b| then Some(b[k]) else None)
  {
  }

  /** After a separator the lexer starts afresh: the raw tokens of `a + b`
      are those of `a` followed by those of `b`. */
  lemma TokeniseAfter(a: string, b: string)
    requires |a| > 0 && IsSeparator(a[|a| - 1])
    ensures Tokenise(a + b) == Tokenise(a) + Tokenise(b)
  {
    var pre := Tokenise(a);
    BuffersEndOpen(a);
    assert !IsCombining(a[|a| - 1]);
    BuffersAfter(a, b, pre, |b|);
    assert |a + b| == |a| + |b|;
    TrimAfter(pre, Buffers(b, |b|));
  }

  /** Closed buffers in front are untouched by the trimming. */
  lemma TrimAfter(pre: seq<string>, bb: seq<string>)
    requires |bb| > 0
    ensures Trim(pre + bb) == pre + Trim(bb)
  {
    assert (pre + bb)[|pre + bb| - 1] == bb[|bb| - 1];
    if bb[|bb| - 1] == "" {
      assert (pre + bb)[..|pre + bb| - 1] == pre + bb[..|bb| - 1];
    }
  }

  /** A run of plain characters and then a separator: two raw tokens. */
  lemma TokeniseWordThen(w: string, c: char)
    requires w != "" && IsSeparator(c)
    requires forall k :: 0 <= k < |w| ==> IsPlain(w[k])
    ensures Tokenise(w + [c]) == [w, [c]]
  {
    var text := w + [c];
    WordThenOpen(w, c);
    BuffersSeparator(text, |w|, [], w);
    TokeniseDropsOpen(text, [w, [c]]);
  }

  lemma WordThenOpen(w: string, c: char)
    requires forall k :: 0 <= k < |w| ==> IsPlain(w[k])
    ensures Buffers(w + [c], |w|) == [] + [w]
  {
    BuffersPlainPrefix(w + [c], |w|);
    assert (w + [c])[..|w|] == w;
  }

  /** A lone combining character before a separator is a raw token of its
      own ("=>" is "=" and ">"). */
  lemma TokeniseCombiningThen(a: char, b: char)
    requires IsCombining(a) && IsSeparator(b)
    ensures Tokenise([a, b]) == [[a], [b]]
  {
    var t := [a, b];
    assert Buffers(t, 1) == [[a]] by {
      assert Buffers(t, 1) == Step([""], a, Some(b));
      assert Step([""], a, Some(b)) == [""][..0] + ["" + [a]];
      assert [""][..0] == [] && "" + [a] == [a];
    }
    assert Buffers(t, 2) == [[a], [b], ""] by {
      assert Buffers(t, 2) == Step([[a]], b, None);
      assert !IsCombining(b);
    }
    TokeniseDropsOpen(t, [[a], [b]]);
  }

  /** A separator alone is one raw token. */
  lemma TokeniseSeparator(c: char)
    requires IsSeparator(c)
    ensures Tokenise([c]) == [[c]]
  {
    assert Buffers([c], 1) == Step([""], c, None);
    assert !IsCombining(c);
    TokeniseDropsOpen([c], [[c]]);
  }
}
