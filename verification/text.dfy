/** The parts of Python's `str` the orchestrator relies on: the whitespace
    class behind `rstrip`, `strip` and the regular-expression `\s`, the line
    boundaries of `splitlines`, and `isdigit`/`int` on a plain digit string. */
module Text {

  /** The characters for which Python's `str.isspace` holds: tab to carriage
      return, the four information separators, space, next-line, no-break
      space, and the Unicode space separators and line/paragraph separators. */
  predicate IsSpace(c: char)
  {
    || '\t' <= c <= '\r'
    || '\U{1C}' <= c <= ' '
    || c == '\U{85}' || c == '\U{A0}' || c == '\U{1680}'
    || '\U{2000}' <= c <= '\U{200A}'
    || c == '\U{2028}' || c == '\U{2029}' || c == '\U{202F}' || c == '\U{205F}' || c == '\U{3000}'
  }

  predicate AllSpace(s: string) { forall i :: 0 <= i < |s| ==> IsSpace(s[i]) }

  /** `s` neither begins nor ends with whitespace. */
  predicate Trimmed(s: string) { s == [] || (!IsSpace(s[0]) && !IsSpace(s[|s| - 1])) }

  /** `str.rstrip()`: the longest prefix that does not end in whitespace. */
  function Rstrip(s: string): (r: string)
    ensures r <= s
    ensures r == [] || !IsSpace(r[|r| - 1])
    ensures AllSpace(s[|r|..])
  {
    if s != [] && IsSpace(s[|s| - 1]) then
      var r := Rstrip(s[..|s| - 1]);
      assert s[|r|..] == s[..|s| - 1][|r|..] + [s[|s| - 1]];
      r
    else s
  }

  /** The first index at or after `i` that does not hold whitespace: where a
      `\s*` starting at `i` stops. */
  function SkipSpace(line: string, i: nat): (j: nat)
    requires i <= |line|
    ensures i <= j <= |line|
    ensures forall m :: i <= m < j ==> IsSpace(line[m])
    ensures j < |line| ==> !IsSpace(line[j])
    decreases |line| - i
  {
    if i < |line| && IsSpace(line[i]) then SkipSpace(line, i + 1) else i
  }

  /** `\s*` stops exactly at the end of a whitespace run. */
  lemma SkipSpaceRun(line: string, i: nat, j: nat)
    requires i <= j <= |line|
    requires forall m :: i <= m < j ==> IsSpace(line[m])
    requires j < |line| ==> !IsSpace(line[j])
    ensures SkipSpace(line, i) == j
  {
  }

  /** `str.lstrip()`: the longest suffix that does not begin with whitespace. */
  function Lstrip(s: string): (r: string)
    ensures |r| <= |s| && r == s[|s| - |r|..]
    ensures r == [] || !IsSpace(r[0])
    ensures AllSpace(s[..|s| - |r|])
  {
    var j := SkipSpace(s, 0);
    assert forall m :: 0 <= m < j ==> s[..j][m] == s[m];
    s[j..]
  }

  /** `str.strip()`. */
  function Strip(s: string): (r: string)
    ensures Trimmed(r)
    ensures |r| <= |s|
  {
    var t := Rstrip(s);
    var r := Lstrip(t);
    assert r != [] ==> r[|r| - 1] == t[|t| - 1];
    r
  }

  /** Whitespace padding on the right is exactly what `rstrip` removes. */
  lemma {:induction false} RstripPadded(v: string, pad: string)
    requires v == [] || !IsSpace(v[|v| - 1])
    requires AllSpace(pad)
    ensures Rstrip(v + pad) == v
    decreases |pad|
  {
    if pad == [] {
      assert v + pad == v;
    } else {
      var s := v + pad;
      assert s[..|s| - 1] == v + pad[..|pad| - 1];
      assert IsSpace(s[|s| - 1]);
      RstripPadded(v, pad[..|pad| - 1]);
    }
  }

  /** Whitespace padding on the left is exactly what `lstrip` removes. */
  lemma {:induction false} LstripPadded(pad: string, v: string)
    requires v == [] || !IsSpace(v[0])
    requires AllSpace(pad)
    ensures Lstrip(pad + v) == v
    decreases |pad|
  {
    if pad == [] {
      assert pad + v == v;
    } else {
      assert (pad + v)[1..] == pad[1..] + v;
      assert IsSpace((pad + v)[0]);
      LstripPadded(pad[1..], v);
    }
  }

  lemma AllSpaceConcat(a: string, b: string)
    requires AllSpace(a) && AllSpace(b)
    ensures AllSpace(a + b)
  {
    var s := a + b;
    forall i | 0 <= i < |s| ensures IsSpace(s[i]) {
      if i < |a| { assert s[i] == a[i]; } else { assert s[i] == b[i - |a|]; }
    }
  }

  /** `strip` recovers a trimmed value from any whitespace padding around it. */
  lemma StripPadded(left: string, v: string, right: string)
    requires Trimmed(v) && AllSpace(left) && AllSpace(right)
    ensures Strip(left + v + right) == v
  {
    if v == [] {
      var s := left + v + right;
      assert s == [] + (left + right);
      AllSpaceConcat(left, right);
      RstripPadded([], left + right);
    } else {
      assert (left + v)[|left + v| - 1] == v[|v| - 1];
      RstripPadded(left + v, right);
      LstripPadded(left, v);
    }
  }

  // ---------------------------------------------------------------------------
  // splitlines

  /** The line boundaries of Python's `str.splitlines`: line feed, vertical
      tab, form feed, carriage return, the file/group/record separators,
      next-line, and the line and paragraph separators. */
  predicate IsLineBreak(c: char)
  {
    || '\n' <= c <= '\r'
    || '\U{1C}' <= c <= '\U{1E}'
    || c == '\U{85}' || c == '\U{2028}' || c == '\U{2029}'
  }

  predicate NoLineBreak(s: string) { forall i :: 0 <= i < |s| ==> !IsLineBreak(s[i]) }

  /** Index of the first line boundary of `s`, or `|s|` when there is none. */
  function FirstBreak(s: string): (i: nat)
    ensures i <= |s|
    ensures NoLineBreak(s[..i])
    ensures i < |s| ==> IsLineBreak(s[i])
  {
    if s == [] then 0
    else if IsLineBreak(s[0]) then 0
    else
      var i := 1 + FirstBreak(s[1..]);
      assert s[..i] == [s[0]] + s[1..][..i - 1];
      i
  }

  /** `str.splitlines()`: the lines of `s` without their terminators, where
      "\r\n" counts as one terminator and a final terminator opens no line. */
  function SplitLines(s: string): (lines: seq<string>)
    ensures forall k :: 0 <= k < |lines| ==> NoLineBreak(lines[k])
    decreases |s|
  {
    if s == [] then []
    else
      var i := FirstBreak(s);
      if i == |s| then [s]
      else
        var width := if s[i] == '\r' && i + 1 < |s| && s[i + 1] == '\n' then 2 else 1;
        [s[..i]] + SplitLines(s[i + width..])
  }

  /** Each line followed by "\n": the text a list of lines prints as. */
  function Terminated(lines: seq<string>): string
  {
    if lines == [] then [] else lines[0] + "\n" + Terminated(lines[1..])
  }

  /** Splitting the printed form of break-free lines gives the lines back. */
  lemma {:induction false} SplitTerminated(lines: seq<string>)
    requires forall k :: 0 <= k < |lines| ==> NoLineBreak(lines[k])
    ensures SplitLines(Terminated(lines)) == lines
    decreases |lines|
  {
    if lines != [] {
      assert Terminated(lines) == lines[0] + "\n" + Terminated(lines[1..]);
      SplitFirstLine(lines[0], "\n", Terminated(lines[1..]));
      SplitTerminated(lines[1..]);
    }
  }

  /** The terminators `splitlines` recognises: one line-boundary character,
      or "\r\n" taken as one. */
  predicate IsTerminator(t: string)
  {
    t == "\r\n" || (|t| == 1 && IsLineBreak(t[0]))
  }

  /** A break-free line ended by any terminator is split off as the first
      line, unless a lone "\r" is followed by "\n" (the two form one "\r\n"). */
  lemma SplitFirstLine(l: string, t: string, rest: string)
    requires NoLineBreak(l) && IsTerminator(t)
    requires t == "\r" ==> rest == [] || rest[0] != '\n'
    ensures SplitLines(l + t + rest) == [l] + SplitLines(rest)
  {
    var s := l + t + rest;
    assert s == l + (t + rest);
    FirstBreakAt(l, t + rest);
    assert s[..|l|] == l;
    assert s[|l|] == t[0];
    if |t| == 2 {
      assert s[|l| + 1] == '\n';
    } else if |l| + 1 < |s| {
      assert s[|l| + 1] == rest[0];
    }
    assert s[|l| + |t|..] == rest;
  }

  /** A non-empty break-free text without a terminator is one line. */
  lemma SplitLastLine(l: string)
    requires NoLineBreak(l) && l != []
    ensures SplitLines(l) == [l]
  {
    assert FirstBreak(l) == |l|;
  }

  /** Lines joined with their terminators; an empty terminator leaves the
      last line open. */
  function Joined(lines: seq<string>, ends: seq<string>): string
    requires |ends| == |lines|
  {
    if lines == [] then [] else lines[0] + ends[0] + Joined(lines[1..], ends[1..])
  }

  /** The texts `splitlines` reads back line for line: break-free lines, each
      ended by a terminator except perhaps a non-empty last one, and no lone
      "\r" before an empty line ended by "\n". */
  predicate Splittable(lines: seq<string>, ends: seq<string>)
  {
    && |ends| == |lines|
    && (forall k :: 0 <= k < |lines| ==> NoLineBreak(lines[k]))
    && (forall k :: 0 <= k < |ends| ==>
          IsTerminator(ends[k]) || (ends[k] == [] && k == |lines| - 1 && lines[k] != []))
    && (forall k :: 0 <= k < |lines| - 1 && ends[k] == "\r" ==> lines[k + 1] != [] || ends[k + 1] != "\n")
  }

  /** `splitlines` inverts joining: every terminator, "\r\n" counted once,
      ends exactly one line, and an unterminated last line is kept. */
  lemma {:induction false} SplitJoined(lines: seq<string>, ends: seq<string>)
    requires Splittable(lines, ends)
    ensures SplitLines(Joined(lines, ends)) == lines
    decreases |lines|
  {
    if lines != [] {
      var rest := Joined(lines[1..], ends[1..]);
      SplittableTail(lines, ends);
      if ends[0] == [] {
        assert Joined(lines, ends) == lines[0];
        SplitLastLine(lines[0]);
      } else {
        if ends[0] == "\r" && |lines| > 1 {
          NoJoinAfterReturn(lines, ends);
        }
        SplitFirstLine(lines[0], ends[0], rest);
        SplitJoined(lines[1..], ends[1..]);
      }
    }
  }

  /** Dropping the first line keeps a text splittable; an open line is last. */
  lemma SplittableTail(lines: seq<string>, ends: seq<string>)
    requires Splittable(lines, ends) && lines != []
    ensures Splittable(lines[1..], ends[1..])
    ensures ends[0] == [] ==> |lines| == 1
  {
    assert forall k :: 0 <= k < |lines| - 1 ==> lines[1..][k] == lines[k + 1] && ends[1..][k] == ends[k + 1];
  }

  /** What follows a line ended by a lone "\r" does not start with "\n". */
  lemma NoJoinAfterReturn(lines: seq<string>, ends: seq<string>)
    requires Splittable(lines, ends) && |lines| > 1 && ends[0] == "\r"
    ensures var rest := Joined(lines[1..], ends[1..]); rest == [] || rest[0] != '\n'
  {
    var rest := Joined(lines[1..], ends[1..]);
    assert rest == lines[1] + ends[1] + Joined(lines[2..], ends[2..]);
    if lines[1] == [] {
      assert IsTerminator(ends[1]);
      assert rest[0] == ends[1][0];
    } else {
      assert rest[0] == lines[1][0];
    }
  }

  /** The first boundary of `l + t` is at `|l|` when `l` has none and `t` starts with one. */
  lemma FirstBreakAt(l: string, t: string)
    requires NoLineBreak(l)
    requires t != [] && IsLineBreak(t[0])
    ensures FirstBreak(l + t) == |l|
  {
    var s := l + t;
    assert s[|l|] == t[0];
    assert forall j :: 0 <= j < |l| ==> s[j] == l[j];
  }

  // ---------------------------------------------------------------------------
  // Decimal digits

  predicate IsDigit(c: char) { '0' <= c <= '9' }

  /** `str.isdigit()` restricted to ASCII digits: non-empty, digits only. */
  predicate IsDecimal(s: string) { |s| > 0 && forall i :: 0 <= i < |s| ==> IsDigit(s[i]) }

  /** `int(s)` on a string of ASCII digits. */
  function DecimalValue(s: string): nat
    requires forall i :: 0 <= i < |s| ==> IsDigit(s[i])
  {
    if s == [] then 0
    else
      assert IsDigit(s[|s| - 1]);
      10 * DecimalValue(s[..|s| - 1]) + (s[|s| - 1] as int - '0' as int)
  }

  /** Like Python's `int`, leading zeros do not change the value. */
  lemma {:induction false} LeadingZero(s: string)
    requires forall i :: 0 <= i < |s| ==> IsDigit(s[i])
    ensures DecimalValue("0" + s) == DecimalValue(s)
    decreases |s|
  {
    if s == [] {
      assert ("0" + s)[..0] == [];
    } else {
      assert ("0" + s)[..|s|] == "0" + s[..|s| - 1];
      LeadingZero(s[..|s| - 1]);
    }
  }
}
