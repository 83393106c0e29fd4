/** The Tab / Shift-Tab key handler of the code editor
    (FCL-2/src/modules/editor.tsx, lines 54-101), as a pure function from the
    text area's value and selection to the new value and selection.

    The two multiline regular expressions are modelled as "at the start and
    after every line terminator": JavaScript's `^` under the `m` flag matches
    at position 0 and after each of `\n`, `\r`, U+2028 and U+2029. The caret
    line itself is found with `lastIndexOf('\n')` and `indexOf('\n')`, so it
    is delimited by `\n` only. */
module Editor {

  /** A character after which the multiline `^` matches. */
  predicate IsTerminator(ch: char) {
    ch == '\n' || ch == '\r' || ch == '\U{2028}' || ch == '\U{2029}'
  }

  /** The text holds no line terminator. */
  predicate Unbroken(s: string) {
    forall i :: 0 <= i < |s| ==> !IsTerminator(s[i])
  }

  /** What one Tab inserts. */
  const Indentation: string := "    "

  /** Four spaces start at offset `i`: `startsWith('    ')` of what follows. */
  predicate IndentedAt(s: string, i: nat) {
    i + 4 <= |s| && s[i] == ' ' && s[i + 1] == ' ' && s[i + 2] == ' ' && s[i + 3] == ' '
  }

  // ---------------------------------------------------------------------
  // JavaScript string primitives

  /** The largest index `k <= i` with `s[k] == c`, or -1. */
  function LastFrom(s: string, c: char, i: int): (r: int)
    requires -1 <= i < |s|
    ensures -1 <= r <= i && (r >= 0 ==> s[r] == c)
    ensures forall k :: r < k <= i && 0 <= k ==> s[k] != c
    decreases i + 1
  {
    if i < 0 then -1 else if s[i] == c then i else LastFrom(s, c, i - 1)
  }

  /** `s.lastIndexOf(c, from)` for a one-character search string: the search
      position is clamped into `[0, |s|]` and the match must fit in `s`. */
  function LastIndexOf(s: string, c: char, from: int): (r: int)
    ensures -1 <= r < |s|
    ensures r >= 0 ==> s[r] == c && r <= if from < 0 then 0 else from
    ensures forall k :: r < k < |s| && k <= from ==> s[k] != c
    ensures from < 0 && r == -1 ==> |s| == 0 || s[0] != c
  {
    var p := if from < 0 then 0 else if from > |s| then |s| else from;
    LastFrom(s, c, if p < |s| then p else |s| - 1)
  }

  /** `s.indexOf(c, from)` for `0 <= from <= |s|`: the first index at or after
      `from` holding `c`, or -1. */
  function IndexOf(s: string, c: char, from: nat): (r: int)
    requires from <= |s|
    ensures r == -1 || from <= r < |s|
    ensures r >= 0 ==> s[r] == c
    ensures forall k :: from <= k < |s| && (r == -1 || k < r) ==> s[k] != c
    decreases |s| - from
  {
    if from == |s| then -1 else if s[from] == c then from else IndexOf(s, c, from + 1)
  }

  /** `s.slice(a, b)` for in-range `a` and `b`: empty when `a > b`. */
  function Slice(s: string, a: nat, b: nat): (r: string)
    requires a <= |s| && b <= |s|
    ensures a <= b ==> r == s[a..b]
    ensures a > b ==> r == ""
  {
    if a <= b then s[a..b] else ""
  }

  // ---------------------------------------------------------------------
  // The two multiline replacements

  /** `s.replace(/^/gm, '    ')`: four spaces at the start and after every
      line terminator. */
  function Indent(s: string): string {
    Indentation + IndentAfter(s)
  }

  /** Four spaces after every line terminator of `s`. */
  function IndentAfter(s: string): string {
    if s == [] then []
    else if IsTerminator(s[0]) then [s[0]] + Indentation + IndentAfter(s[1..])
    else [s[0]] + IndentAfter(s[1..])
  }

  /** `line` without one leading tab, or else without four leading spaces. */
  function Strip(line: string): string {
    if |line| >= 1 && line[0] == '\t' then line[1..]
    else if IndentedAt(line, 0) then line[4..]
    else line
  }

  /** `s.replace(/^(\t| {4})/gm, '')`: `Outdent` starts at a line start. */
  function Outdent(s: string): string
    decreases |s|, 1
  {
    if |s| >= 1 && s[0] == '\t' then OutdentAfter(s[1..])
    else if IndentedAt(s, 0) then OutdentAfter(s[4..])
    else OutdentAfter(s)
  }

  /** The rest of a line and every following line. */
  function OutdentAfter(s: string): string
    decreases |s|, 0
  {
    if s == [] then []
    else if IsTerminator(s[0]) then [s[0]] + Outdent(s[1..])
    else [s[0]] + OutdentAfter(s[1..])
  }

  /** Lines joined by their terminators: the reference reading of a
      multiline text. */
  function Join(lines: seq<string>, breaks: seq<char>): string
    requires |lines| == |breaks| + 1
  {
    if breaks == [] then lines[0] else lines[0] + [breaks[0]] + Join(lines[1..], breaks[1..])
  }

  /** The lines and terminators are a genuine split: no line holds a
      terminator and every break is one. */
  predicate Split(lines: seq<string>, breaks: seq<char>) {
    |lines| == |breaks| + 1 &&
    (forall i :: 0 <= i < |lines| ==> Unbroken(lines[i])) &&
    (forall i :: 0 <= i < |breaks| ==> IsTerminator(breaks[i]))
  }

  /** Every line prefixed with four spaces. */
  function IndentEach(lines: seq<string>): (r: seq<string>)
    ensures |r| == |lines|
    ensures forall i :: 0 <= i < |lines| ==> r[i] == Indentation + lines[i]
  {
    if lines == [] then [] else [Indentation + lines[0]] + IndentEach(lines[1..])
  }

  /** Every line stripped once. */
  function StripEach(lines: seq<string>): (r: seq<string>)
    ensures |r| == |lines|
    ensures forall i :: 0 <= i < |lines| ==> r[i] == Strip(lines[i])
  {
    if lines == [] then [] else [Strip(lines[0])] + StripEach(lines[1..])
  }

  /** Inside a line the indenting replacement copies characters. */
  lemma {:induction false} IndentAfterLine(line: string, rest: string)
    requires Unbroken(line)
    ensures IndentAfter(line + rest) == line + IndentAfter(rest)
    decreases |line|
  {
    if line != [] {
      assert (line + rest)[0] == line[0] && (line + rest)[1..] == line[1..] + rest;
      assert !IsTerminator(line[0]);
      IndentAfterLine(line[1..], rest);
      assert line == [line[0]] + line[1..];
    } else {
      assert line + rest == rest;
    }
  }

  /** Inside a line the stripping replacement copies characters. */
  lemma {:induction false} OutdentAfterLine(line: string, rest: string)
    requires Unbroken(line)
    ensures OutdentAfter(line + rest) == line + OutdentAfter(rest)
    decreases |line|
  {
    if line != [] {
      assert (line + rest)[0] == line[0] && (line + rest)[1..] == line[1..] + rest;
      assert !IsTerminator(line[0]);
      OutdentAfterLine(line[1..], rest);
      assert line == [line[0]] + line[1..];
    } else {
      assert line + rest == rest;
    }
  }

  /** At a line start, the stripping replacement strips that line. */
  lemma OutdentLine(line: string, rest: string)
    requires Unbroken(line)
    requires rest == [] || IsTerminator(rest[0])
    ensures Outdent(line + rest) == Strip(line) + OutdentAfter(rest)
  {
    var s := line + rest;
    if |line| >= 1 && line[0] == '\t' {
      assert s[1..] == line[1..] + rest;
      OutdentAfterLine(line[1..], rest);
    } else if IndentedAt(line, 0) {
      assert s[4..] == line[4..] + rest;
      OutdentAfterLine(line[4..], rest);
    } else {
      assert !(|s| >= 1 && s[0] == '\t');
      assert !IndentedAt(s, 0) by {
        if |line| < 4 && |s| >= 4 {
          assert s[|line|] == rest[0];
        }
      }
      OutdentAfterLine(line, rest);
    }
  }

  /** `replace(/^/gm, '    ')` prefixes every line of the reference split. */
  lemma {:induction false} IndentLines(lines: seq<string>, breaks: seq<char>)
    requires Split(lines, breaks)
    ensures Indent(Join(lines, breaks)) == Join(IndentEach(lines), breaks)
    decreases |breaks|
  {
    if breaks == [] {
      IndentAfterLine(lines[0], []);
      assert lines[0] + [] == lines[0];
    } else {
      var rest := Join(lines[1..], breaks[1..]);
      var tail := [breaks[0]] + rest;
      assert Join(lines, breaks) == lines[0] + tail;
      IndentLines(lines[1..], breaks[1..]);
      IndentAfterLine(lines[0], tail);
      assert tail[0] == breaks[0] && tail[1..] == rest;
      assert IndentAfter(tail) == [breaks[0]] + Indent(rest);
      assert IndentEach(lines)[1..] == IndentEach(lines[1..]);
      assert Join(IndentEach(lines), breaks) == (Indentation + lines[0]) + [breaks[0]] + Join(IndentEach(lines[1..]), breaks[1..]);
    }
  }

  /** `replace(/^(\t| {4})/gm, '')` strips every line of the reference split
      once. */
  lemma {:induction false} OutdentLines(lines: seq<string>, breaks: seq<char>)
    requires Split(lines, breaks)
    ensures Outdent(Join(lines, breaks)) == Join(StripEach(lines), breaks)
    decreases |breaks|
  {
    if breaks == [] {
      OutdentLine(lines[0], []);
      assert lines[0] + [] == lines[0];
    } else {
      var rest := Join(lines[1..], breaks[1..]);
      var tail := [breaks[0]] + rest;
      assert Join(lines, breaks) == lines[0] + tail;
      OutdentLines(lines[1..], breaks[1..]);
      OutdentLine(lines[0], tail);
      assert tail[0] == breaks[0] && tail[1..] == rest;
      assert OutdentAfter(tail) == [breaks[0]] + Outdent(rest);
      assert StripEach(lines)[1..] == StripEach(lines[1..]);
      assert Join(StripEach(lines), breaks) == Strip(lines[0]) + [breaks[0]] + Join(StripEach(lines[1..]), breaks[1..]);
    }
  }

  /** Stripping undoes indenting, line by line. */
  lemma {:induction false} OutdentAfterIndentAfter(s: string)
    ensures OutdentAfter(IndentAfter(s)) == s
    decreases |s|
  {
    if s != [] {
      OutdentAfterIndentAfter(s[1..]);
      if IsTerminator(s[0]) {
        var t := Indentation + IndentAfter(s[1..]);
        assert IndentAfter(s) == [s[0]] + t;
        assert ([s[0]] + t)[1..] == t;
        assert IndentedAt(t, 0) && t[4..] == IndentAfter(s[1..]);
      } else {
        assert (([s[0]] + IndentAfter(s[1..]))[1..]) == IndentAfter(s[1..]);
      }
    }
  }

  /** Shift-Tab's replacement undoes Tab's on any text. */
  lemma OutdentIndent(s: string)
    ensures Outdent(Indent(s)) == s
  {
    var t := Indent(s);
    assert IndentedAt(t, 0) && t[4..] == IndentAfter(s);
    OutdentAfterIndentAfter(s);
  }

  /** The number of line terminators in `s`. */
  function Breaks(s: string): nat {
    if s == [] then 0 else (if IsTerminator(s[0]) then 1 else 0) + Breaks(s[1..])
  }

  /** Tab adds four characters per line. */
  lemma {:induction false} IndentLength(s: string)
    ensures |IndentAfter(s)| == |s| + 4 * Breaks(s)
    ensures |Indent(s)| == |s| + 4 * (Breaks(s) + 1)
    decreases |s|
  {
    if s != [] {
      IndentLength(s[1..]);
    }
  }

  /** Shift-Tab never lengthens a text. */
  lemma {:induction false} OutdentShorter(s: string)
    ensures |OutdentAfter(s)| <= |s|
    ensures |Outdent(s)| <= |s|
    decreases |s|
  {
    if s != [] {
      OutdentShorter(s[1..]);
    }
    if |s| >= 4 {
      OutdentShorter(s[4..]);
    }
  }

  // ---------------------------------------------------------------------
  // The handler

  /** The text area: its value and its selection. */
  datatype TextArea = TextArea(value: string, selectionStart: nat, selectionEnd: nat)

  /** A selection the DOM can hold. */
  predicate Valid(t: TextArea) {
    t.selectionStart <= t.selectionEnd <= |t.value|
  }

  /** Assigning `n` to a selection offset: the DOM converts it to an unsigned
      32-bit integer (a negative number wraps around) and clamps it to the
      text's length. */
  function DomOffset(n: int, len: nat): (r: nat)
    ensures r <= len
    ensures 0 <= n <= len && n < 0x1_0000_0000 ==> r == n
    ensures n < 0 && len < 0x1_0000_0000 + n ==> r == len
  {
    var u := n % 0x1_0000_0000;
    assert -0x1_0000_0000 <= n < 0 ==> u == n + 0x1_0000_0000;
    if u > len then len else u
  }

  /** `selectionStart = selectionEnd = n` on a text area holding `value`. */
  function Caret(value: string, n: int): (r: TextArea)
    ensures Valid(r) && r.value == value && r.selectionStart == r.selectionEnd
    ensures 0 <= n <= |value| < 0x1_0000_0000 ==> r.selectionStart == n
  {
    var p := DomOffset(n, |value|);
    TextArea(value, p, p)
  }

  /** `value.lastIndexOf('\n', start - 1) + 1`: where the caret's line starts.
      At offset 0 the search position is clamped to 0, so a text opening with
      a newline puts the line start after the caret. */
  function LineStart(value: string, start: nat): (r: nat)
    requires start <= |value|
    ensures r <= |value| && (start > 0 ==> r <= start)
  {
    LastIndexOf(value, '\n', start - 1) + 1
  }

  /** The caret's line starts after the last newline before the caret, or at
      the text's start when there is none. */
  lemma LineStartSpec(value: string, start: nat)
    requires start <= |value|
    ensures var r := LineStart(value, start);
      (start > 0 ==> (r == 0 || value[r - 1] == '\n') && forall k :: r <= k < start ==> value[k] != '\n') &&
      (start == 0 ==> r == if |value| > 0 && value[0] == '\n' then 1 else 0)
  {
  }

  /** `value.indexOf('\n', start)`, with "none" read as the text's end. */
  function LineEnd(value: string, start: nat): (r: nat)
    requires start <= |value|
    ensures start <= r <= |value|
  {
    var e := IndexOf(value, '\n', start);
    if e == -1 then |value| else e
  }

  /** The caret's line ends at the first newline from the caret on, or at
      the text's end. */
  lemma LineEndSpec(value: string, start: nat)
    requires start <= |value|
    ensures var r := LineEnd(value, start);
      (r < |value| ==> value[r] == '\n') && forall k :: start <= k < r ==> value[k] != '\n'
  {
  }

  /** The value after Shift-Tab removes the tab opening the caret's line. */
  function WithoutTab(value: string, lineStart: nat, lineEnd: nat): string
    requires lineStart <= lineEnd <= |value|
    requires lineStart < lineEnd && value[lineStart] == '\t'
  {
    value[..lineStart] + value[lineStart..lineEnd][1..] + value[lineEnd..]
  }

  /** Where Shift-Tab leaves the caret after removing a leading tab: one
      place left when it stood after the tab, unmoved otherwise (the same
      rule as the four-space case, for a one-character indentation). */
  function TabCaret(start: nat, lineStart: nat): int {
    var offset := if start - 1 >= lineStart then 1 else 0;
    start - offset
  }

  /** The caret placement as the handler writes it (editor.tsx, lines 72-73). */
  function TabCaretAsWritten(start: nat, lineStart: nat): int {
    var offset := if start - 1 > lineStart then 1 else 0;
    start - offset - 1
  }

  /** The keydown handler for the Tab key, `shift` telling whether Shift is
      held. Without a selection, Tab inserts four spaces at the caret and
      Shift-Tab removes one leading tab, or else four leading spaces, from the
      caret's line; with a selection, every line of the selection is indented
      or stripped and the selection follows the changed text. After removing
      a leading tab the caret follows `TabCaret`, the rule of the four-space
      case, rather than `TabCaretAsWritten`. */
  function HandleTab(t: TextArea, shift: bool): (r: TextArea)
    requires Valid(t)
    ensures Valid(r)
  {
    var start := t.selectionStart;
    var end := t.selectionEnd;
    if start == end then
      if shift then ShiftTabAtCaret(t.value, start) else IndentAtCaret(t.value, start)
    else
      if shift then OutdentSelection(t.value, start, end) else IndentSelection(t.value, start, end)
  }

  /** Tab without a selection: four spaces at the caret, the caret after them. */
  function IndentAtCaret(value: string, start: nat): (r: TextArea)
    requires start <= |value|
    ensures Valid(r)
  {
    Caret(value[..start] + Indentation + value[start..], start + 4)
  }

  /** Tab with a selection: every line of it indented, the selection
      stretched by what was inserted. */
  function IndentSelection(value: string, start: nat, end: nat): (r: TextArea)
    requires start <= end <= |value|
    ensures Valid(r)
  {
    var selected := value[start..end];
    var modified := Indent(selected);
    IndentLength(selected);
    TextArea(value[..start] + modified + value[end..], start, end + (|modified| - |selected|))
  }

  /** Shift-Tab with a selection: every line of it stripped once, the
      selection shrunk by what was removed. */
  function OutdentSelection(value: string, start: nat, end: nat): (r: TextArea)
    requires start <= end <= |value|
    ensures Valid(r)
  {
    var selected := value[start..end];
    var modified := Outdent(selected);
    OutdentShorter(selected);
    var removed := |selected| - |modified|;
    TextArea(value[..start] + modified + value[end..], start, end - removed)
  }

  /** Shift-Tab without a selection: the caret's line loses a leading tab,
      or else four leading spaces, or nothing. */
  function ShiftTabAtCaret(value: string, start: nat): (r: TextArea)
    requires start <= |value|
    ensures Valid(r)
  {
    var lineStart := LineStart(value, start);
    var lineEnd := LineEnd(value, start);
    var line := Slice(value, lineStart, lineEnd);
    if |line| >= 1 && line[0] == '\t' then
      Caret(WithoutTab(value, lineStart, lineEnd), TabCaret(start, lineStart))
    else if IndentedAt(line, 0) then
      var offset := if start - 4 >= lineStart then 4 else 0;
      Caret(value[..lineStart] + line[4..] + value[lineEnd..], start - offset)
    else TextArea(value, start, start)
  }

  /** The JavaScript length limit the model relies on: every offset fits in
      the DOM's unsigned 32-bit selection offsets. */
  const Bound: nat := 0x1_0000_0000

  /** Tab at a caret puts four spaces before the caret and leaves the text
      after it as it was. */
  lemma TabAtCaret(t: TextArea)
    requires Valid(t) && t.selectionStart == t.selectionEnd && |t.value| + 4 < Bound
    ensures var r := HandleTab(t, false);
      r.selectionStart == r.selectionEnd == t.selectionStart + 4 &&
      r.value[..r.selectionStart] == t.value[..t.selectionStart] + Indentation &&
      r.value[r.selectionStart..] == t.value[t.selectionStart..]
  {
    var s := t.selectionStart;
    var v := t.value[..s] + Indentation + t.value[s..];
    assert v[..s + 4] == t.value[..s] + Indentation;
    assert v[s + 4..] == t.value[s..];
  }

  /** Shift-Tab on a line opening with a tab removes exactly that tab, and the
      caret keeps its place in the remaining text. */
  lemma ShiftTabRemovesTab(t: TextArea)
    requires Valid(t) && t.selectionStart == t.selectionEnd && |t.value| < Bound
    requires var ls := LineStart(t.value, t.selectionStart);
      ls <= t.selectionStart && ls < |t.value| && t.value[ls] == '\t'
    ensures var ls := LineStart(t.value, t.selectionStart);
      var r := HandleTab(t, true);
      r.value == t.value[..ls] + t.value[ls + 1..] &&
      r.selectionStart == r.selectionEnd == if t.selectionStart > ls then t.selectionStart - 1 else t.selectionStart
  {
    var s := t.selectionStart;
    ShiftTabAtCaretIs(t.value, s);
    TabCase(t.value, s);
  }

  /** The tab case of Shift-Tab at a caret, in terms of the whole text. */
  lemma TabCase(value: string, s: nat)
    requires s <= |value|
    requires var ls := LineStart(value, s);
      ls <= s && ls < |value| && value[ls] == '\t'
    ensures var ls := LineStart(value, s);
      ShiftTabAtCaret(value, s) == Caret(value[..ls] + value[ls + 1..], TabCaret(s, ls))
  {
    var ls := LineStart(value, s);
    var le := LineEnd(value, s);
    assert ls < le by {
      if s == ls {
        assert value[s] != '\n';
      }
    }
    assert Slice(value, ls, le)[0] == '\t';
    assert WithoutTab(value, ls, le) == value[..ls] + value[ls + 1..];
  }

  /** Shift-Tab on a line opening with four spaces (and no tab) removes them;
      a caret past them moves back four places, a caret at the line start
      stays, and a caret inside them keeps its offset. */
  lemma ShiftTabRemovesSpaces(t: TextArea)
    requires Valid(t) && t.selectionStart == t.selectionEnd && |t.value| < Bound
    requires var ls := LineStart(t.value, t.selectionStart);
      ls <= t.selectionStart && ls + 4 <= LineEnd(t.value, t.selectionStart) && IndentedAt(t.value, ls)
    ensures var ls := LineStart(t.value, t.selectionStart);
      var r := HandleTab(t, true);
      r.value == t.value[..ls] + t.value[ls + 4..] &&
      (t.selectionStart >= ls + 4 ==>
         r.selectionStart == t.selectionStart - 4 &&
         r.value[..r.selectionStart] == t.value[..ls] + t.value[ls + 4..t.selectionStart] &&
         r.value[r.selectionStart..] == t.value[t.selectionStart..]) &&
      (t.selectionStart < ls + 4 ==> r.selectionStart == if t.selectionStart <= |r.value| then t.selectionStart else |r.value|)
  {
    var s := t.selectionStart;
    var ls := LineStart(t.value, s);
    ShiftTabAtCaretIs(t.value, s);
    SpacesCase(t.value, s);
    if s >= ls + 4 {
      SpliceAround(t.value, ls, 4, s);
    }
  }

  /** The four-space case of Shift-Tab at a caret, in terms of the whole text. */
  lemma SpacesCase(value: string, s: nat)
    requires s <= |value|
    requires var ls := LineStart(value, s);
      ls <= s && ls + 4 <= LineEnd(value, s) && IndentedAt(value, ls)
    ensures var ls := LineStart(value, s);
      ShiftTabAtCaret(value, s) == Caret(value[..ls] + value[ls + 4..], if s >= ls + 4 then s - 4 else s)
  {
    var ls := LineStart(value, s);
    var le := LineEnd(value, s);
    var line := Slice(value, ls, le);
    assert line == value[ls..le];
    assert line[0] == ' ' && IndentedAt(line, 0);
    assert value[..ls] + line[4..] + value[le..] == value[..ls] + value[ls + 4..];
  }

  /** Cutting `k` characters at `p` keeps the text around a later offset `s`. */
  lemma SpliceAround(value: string, p: nat, k: nat, s: nat)
    requires p + k <= s <= |value|
    ensures var v := value[..p] + value[p + k..];
      v[..s - k] == value[..p] + value[p + k..s] && v[s - k..] == value[s..]
  {
  }

  /** Shift-Tab on a line opening with neither a tab nor four spaces changes
      nothing. */
  lemma ShiftTabNothingToRemove(t: TextArea)
    requires Valid(t) && t.selectionStart == t.selectionEnd
    requires var ls := LineStart(t.value, t.selectionStart);
      var le := LineEnd(t.value, t.selectionStart);
      ls <= le ==> !(ls < le && t.value[ls] == '\t') && !(ls + 4 <= le && IndentedAt(t.value, ls))
    ensures HandleTab(t, true) == t
  {
    ShiftTabAtCaretIs(t.value, t.selectionStart);
    NothingCase(t.value, t.selectionStart);
  }

  /** The case of Shift-Tab at a caret that changes nothing, in terms of the
      whole text. */
  lemma NothingCase(value: string, s: nat)
    requires s <= |value|
    requires var ls := LineStart(value, s);
      var le := LineEnd(value, s);
      ls <= le ==> !(ls < le && value[ls] == '\t') && !(ls + 4 <= le && IndentedAt(value, ls))
    ensures ShiftTabAtCaret(value, s) == TextArea(value, s, s)
  {
    var ls := LineStart(value, s);
    var le := LineEnd(value, s);
    var line := Slice(value, ls, le);
    assert !(|line| >= 1 && line[0] == '\t') && !IndentedAt(line, 0) by {
      if ls <= le {
        assert line == value[ls..le];
        if |line| >= 4 {
          assert line[..4] == value[ls..ls + 4];
        }
      }
    }
  }

  /** After Tab at the start of a line, the caret's line still starts there. */
  lemma LineStartAfterTab(value: string, s: nat)
    requires s <= |value|
    requires s == 0 || value[s - 1] == '\n'
    ensures LineStart(value[..s] + Indentation + value[s..], s + 4) == s
  {
    var v := value[..s] + Indentation + value[s..];
    assert forall k :: s <= k < s + 4 ==> v[k] == ' ';
    var ls := LineStart(v, s + 4);
    assert forall k :: ls <= k < s + 4 ==> v[k] != '\n' by {
      assert forall k :: ls <= k < s + 4 ==> v[k] == v[ls..s + 4][k - ls];
    }
    if s > 0 {
      assert v[s - 1] == '\n';
    }
  }

  /** Shift-Tab undoes Tab at the start of a line: the value and the caret
      come back. */
  lemma ShiftTabUndoesTab(t: TextArea)
    requires Valid(t) && t.selectionStart == t.selectionEnd && |t.value| + 4 < Bound
    requires t.selectionStart == 0 || t.value[t.selectionStart - 1] == '\n'
    ensures HandleTab(HandleTab(t, false), true) == t
  {
    var s := t.selectionStart;
    var v := t.value[..s] + Indentation + t.value[s..];
    assert HandleTab(t, false) == TextArea(v, s + 4, s + 4) by {
      TabAtCaretIs(t);
    }
    assert HandleTab(TextArea(v, s + 4, s + 4), true) == TextArea(t.value, s, s) by {
      ShiftTabAtCaretIs(v, s + 4);
      SpacesAfterTab(t.value, s);
    }
  }

  /** Tab on a collapsed selection is the caret case, and the caret lands
      after the four spaces. */
  lemma TabAtCaretIs(t: TextArea)
    requires Valid(t) && t.selectionStart == t.selectionEnd && |t.value| + 4 < Bound
    ensures HandleTab(t, false) == TextArea(t.value[..t.selectionStart] + Indentation + t.value[t.selectionStart..], t.selectionStart + 4, t.selectionStart + 4)
  {
  }

  /** Shift-Tab on a collapsed selection is the caret case. */
  lemma ShiftTabAtCaretIs(value: string, p: nat)
    requires p <= |value|
    ensures HandleTab(TextArea(value, p, p), true) == ShiftTabAtCaret(value, p)
  {
  }

  /** Four spaces inserted at a line start and taken out again by the caret
      case of Shift-Tab leave the text and the caret where they were. */
  lemma SpacesAfterTab(value: string, s: nat)
    requires s <= |value| && |value| + 4 < Bound
    requires s == 0 || value[s - 1] == '\n'
    ensures ShiftTabAtCaret(value[..s] + Indentation + value[s..], s + 4) == TextArea(value, s, s)
  {
    var v := value[..s] + Indentation + value[s..];
    assert v[..s] + v[s + 4..] == value by {
      Splice(value, s, s, Indentation);
    }
    SpacesAtLineStart(value, s);
  }

  /** The four spaces Tab put at a line start are what the caret case of
      Shift-Tab takes out, with the caret back before them. */
  lemma SpacesAtLineStart(value: string, s: nat)
    requires s <= |value| && |value| + 4 < Bound
    requires s == 0 || value[s - 1] == '\n'
    ensures var v := value[..s] + Indentation + value[s..];
      ShiftTabAtCaret(v, s + 4) == Caret(v[..s] + v[s + 4..], s)
  {
    var v := value[..s] + Indentation + value[s..];
    LineStartAfterTab(value, s);
    assert IndentedAt(v, s);
    SpacesCase(v, s + 4);
  }

  /** Replacing `value[a..b]` by `m` keeps what is around it. */
  lemma Splice(value: string, a: nat, b: nat, m: string)
    requires a <= b <= |value|
    ensures var w := value[..a] + m + value[b..];
      |w| == |value| - (b - a) + |m| &&
      w[..a] == value[..a] && w[a..a + |m|] == m && w[a + |m|..] == value[b..]
  {
  }

  /** Tab with a selection indents every line of it, keeps the text around it
      and stretches the selection over the indented text. */
  lemma TabOverSelection(t: TextArea)
    requires Valid(t) && t.selectionStart < t.selectionEnd
    ensures var sel := t.value[t.selectionStart..t.selectionEnd];
      var r := HandleTab(t, false);
      r.selectionStart == t.selectionStart &&
      r.selectionEnd == t.selectionEnd + 4 * (Breaks(sel) + 1) &&
      r.value[..r.selectionStart] == t.value[..t.selectionStart] &&
      r.value[r.selectionStart..r.selectionEnd] == Indent(sel) &&
      r.value[r.selectionEnd..] == t.value[t.selectionEnd..]
  {
    var sel := t.value[t.selectionStart..t.selectionEnd];
    IndentLength(sel);
    Splice(t.value, t.selectionStart, t.selectionEnd, Indent(sel));
  }

  /** Shift-Tab with a selection strips every line of it once, keeps the
      text around it and shrinks the selection by what it removed. */
  lemma ShiftTabOverSelection(t: TextArea)
    requires Valid(t) && t.selectionStart < t.selectionEnd
    ensures var sel := t.value[t.selectionStart..t.selectionEnd];
      var r := HandleTab(t, true);
      r.selectionStart == t.selectionStart &&
      r.selectionEnd == t.selectionEnd - (|sel| - |Outdent(sel)|) &&
      r.value[..r.selectionStart] == t.value[..t.selectionStart] &&
      r.value[r.selectionStart..r.selectionEnd] == Outdent(sel) &&
      r.value[r.selectionEnd..] == t.value[t.selectionEnd..]
  {
    var sel := t.value[t.selectionStart..t.selectionEnd];
    OutdentShorter(sel);
    Splice(t.value, t.selectionStart, t.selectionEnd, Outdent(sel));
  }

  /** Shift-Tab undoes Tab over a selection: value and selection come back. */
  lemma ShiftTabUndoesTabOverSelection(t: TextArea)
    requires Valid(t) && t.selectionStart < t.selectionEnd
    ensures HandleTab(HandleTab(t, false), true) == t
  {
    var a, e := t.selectionStart, t.selectionEnd;
    var sel := t.value[a..e];
    var u := HandleTab(t, false);
    TabOverSelection(t);
    var r := HandleTab(u, true);
    ShiftTabOverSelection(u);
    OutdentIndent(sel);
    Pieces(r.value, a, r.selectionEnd);
    Pieces(t.value, a, e);
  }

  /** A text is the concatenation of its three pieces around two offsets. */
  lemma Pieces(s: string, i: nat, j: nat)
    requires i <= j <= |s|
    ensures s == s[..i] + s[i..j] + s[j..]
  {
  }

  /** The caret rule as written misplaces the caret: with the caret after
      `ab` on the line `\tab`, Shift-Tab leaves it between `a` and `b`; with
      the caret before the tab, it lands at the end of the text. The model's
      rule keeps it after `b`, and before `a`. */
  lemma TabCaretAsWrittenMisplaces()
    ensures Caret(WithoutTab("\tab", 0, 3), TabCaretAsWritten(3, 0)) == TextArea("ab", 1, 1)
    ensures HandleTab(TextArea("\tab", 3, 3), true) == TextArea("ab", 2, 2)
    ensures Caret(WithoutTab("\tab", 0, 3), TabCaretAsWritten(0, 0)) == TextArea("ab", 2, 2)
    ensures HandleTab(TextArea("\tab", 0, 0), true) == TextArea("ab", 0, 0)
  {
    assert WithoutTab("\tab", 0, 3) == "ab";
    ShiftTabRemovesTab(TextArea("\tab", 3, 3));
    ShiftTabRemovesTab(TextArea("\tab", 0, 0));
  }
}
