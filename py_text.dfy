/**
 * The parts of Python's `str` type and `string` module that the password
 * tools rely on: the character classes, `str.split` with a one-character
 * separator, `str.splitlines`, `str.strip` and `str(n)` for naturals.
 * A Python string is a Dafny `string` (a sequence of Unicode scalar values).
 */
module PyText {

  const AsciiLowercase: string := "abcdefghijklmnopqrstuvwxyz"
  const AsciiUppercase: string := "ABCDEFGHIJKLMNOPQRSTUVWXYZ"
  /** `string.ascii_letters` */
  const AsciiLetters: string := AsciiLowercase + AsciiUppercase
  /** `string.digits` */
  const Digits: string := "0123456789"
  /** `string.punctuation`: the 32 ASCII punctuation characters */
  const Punctuation: string := "!\"#$%&'()*+,-./:;<=>?@[\\]^_`{|}~"

  /** `c.isupper()`, restricted to ASCII */
  predicate IsUpper(c: char) { 'A' <= c <= 'Z' }

  /** `c.islower()`, restricted to ASCII */
  predicate IsLower(c: char) { 'a' <= c <= 'z' }

  /** `c.isdigit()`, restricted to ASCII */
  predicate IsDigit(c: char) { '0' <= c <= '9' }

  /** `c.isspace()`: the characters `str.strip()` removes */
  predicate IsSpace(c: char) {
    || c == ' '
    || '\t' <= c <= '\r'
    || '\U{1C}' <= c <= '\U{1F}'
    || c == '\U{85}' || c == '\U{A0}' || c == '\U{1680}'
    || '\U{2000}' <= c <= '\U{200A}'
    || c == '\U{2028}' || c == '\U{2029}' || c == '\U{202F}'
    || c == '\U{205F}' || c == '\U{3000}'
  }

  /** The characters at which `str.splitlines()` ends a line */
  predicate IsLineBoundary(c: char) {
    || '\n' <= c <= '\r'
    || '\U{1C}' <= c <= '\U{1E}'
    || c == '\U{85}' || c == '\U{2028}' || c == '\U{2029}'
  }

  // ---------------------------------------------------------------------
  // str.split(sep) for a one-character separator

  function Occurrences(s: string, c: char): nat {
    if s == [] then 0 else (if s[0] == c then 1 else 0) + Occurrences(s[1..], c)
  }

  /**
   * `s.split(sep)`: the pieces between separators, empty pieces included,
   * so that there is always one more piece than there are separators.
   */
  function Split(s: string, sep: char): (fields: seq<string>)
    ensures |fields| == Occurrences(s, sep) + 1
    ensures forall i | 0 <= i < |fields| :: sep !in fields[i]
  {
    if s == [] then [[]]
    else
      var rest := Split(s[1..], sep);
      if s[0] == sep then [[]] + rest
      else [[s[0]] + rest[0]] + rest[1..]
  }

  /** `sep.join(fields)` */
  function Join(fields: seq<string>, sep: char): string
    requires |fields| >= 1
  {
    if |fields| == 1 then fields[0] else fields[0] + [sep] + Join(fields[1..], sep)
  }

  /** Joining the pieces of a split restores the string. */
  lemma {:induction false} JoinSplit(s: string, sep: char)
    ensures Join(Split(s, sep), sep) == s
  {
    if s != [] {
      var rest := Split(s[1..], sep);
      JoinSplit(s[1..], sep);
      if s[0] == sep {
        assert Split(s, sep)[1..] == rest;
      } else if |rest| == 1 {
        assert Split(s, sep) == [[s[0]] + rest[0]];
      } else {
        var fields := Split(s, sep);
        assert fields[1..] == rest[1..];
        assert Join(rest, sep) == rest[0] + [sep] + Join(rest[1..], sep);
      }
    }
  }

  /** A piece free of the separator splits into itself. */
  lemma {:induction false} SplitWithoutSeparator(s: string, sep: char)
    requires sep !in s
    ensures Split(s, sep) == [s]
  {
    if s != [] {
      SplitWithoutSeparator(s[1..], sep);
      assert [s[0]] + s[1..] == s;
    }
  }

  /** Splitting stops at the first separator. */
  lemma {:induction false} SplitAtFirst(p: string, sep: char, t: string)
    requires sep !in p
    ensures Split(p + [sep] + t, sep) == [p] + Split(t, sep)
  {
    if p == [] {
      assert (p + [sep] + t)[1..] == t;
    } else {
      assert (p + [sep] + t)[1..] == p[1..] + [sep] + t;
      SplitAtFirst(p[1..], sep, t);
      assert [p[0]] + p[1..] == p;
    }
  }

  /** Splitting the join of separator-free pieces gives the pieces back. */
  lemma {:induction false} SplitJoin(fields: seq<string>, sep: char)
    requires |fields| >= 1
    requires forall i | 0 <= i < |fields| :: sep !in fields[i]
    ensures Split(Join(fields, sep), sep) == fields
  {
    if |fields| == 1 {
      SplitWithoutSeparator(fields[0], sep);
    } else {
      SplitJoin(fields[1..], sep);
      SplitAtFirst(fields[0], sep, Join(fields[1..], sep));
      assert [fields[0]] + fields[1..] == fields;
    }
  }

  // ---------------------------------------------------------------------
  // str.splitlines()

  /** The index of the first line boundary in `s`, or `|s|` if there is none. */
  function LineEnd(s: string): (k: nat)
    ensures k <= |s|
    ensures forall i | 0 <= i < k :: !IsLineBoundary(s[i])
    ensures k < |s| ==> IsLineBoundary(s[k])
  {
    if s == [] || IsLineBoundary(s[0]) then 0 else 1 + LineEnd(s[1..])
  }

  /**
   * `s.splitlines()`: the lines of `s` without their terminators; "\r\n"
   * ends a line as one terminator, and a final terminator does not start
   * an empty last line.
   */
  function SplitLines(s: string): (lines: seq<string>)
    ensures forall i, j | 0 <= i < |lines| && 0 <= j < |lines[i]| :: !IsLineBoundary(lines[i][j])
    decreases |s|
  {
    if s == [] then []
    else
      var k := LineEnd(s);
      if k == |s| then [s]
      else
        var next := if s[k] == '\r' && k + 1 < |s| && s[k + 1] == '\n' then k + 2 else k + 1;
        [s[..k]] + SplitLines(s[next..])
  }

  predicate NoLineBoundary(s: string) {
    forall i | 0 <= i < |s| :: !IsLineBoundary(s[i])
  }

  /** The three line terminators a text body is written with. */
  predicate IsLineTerminator(eol: string) {
    eol == "\n" || eol == "\r\n" || eol == "\r"
  }

  /** Each line followed by `eol`. */
  function Terminated(lines: seq<string>, eol: string): string {
    if lines == [] then [] else lines[0] + eol + Terminated(lines[1..], eol)
  }

  lemma {:induction false} LineEndOf(line: string, rest: string)
    requires NoLineBoundary(line)
    requires rest != [] && IsLineBoundary(rest[0])
    ensures LineEnd(line + rest) == |line|
  {
    if line != [] {
      assert (line + rest)[1..] == line[1..] + rest;
      LineEndOf(line[1..], rest);
    }
  }

  /** A terminated text never begins with "\n" unless its terminator is "\n". */
  lemma {:induction false} TerminatedHead(lines: seq<string>, eol: string)
    requires IsLineTerminator(eol)
    requires forall i | 0 <= i < |lines| :: NoLineBoundary(lines[i])
    requires lines != []
    ensures |Terminated(lines, eol)| > 0
    ensures Terminated(lines, eol)[0] == '\n' ==> eol == "\n"
  {
    var t := Terminated(lines, eol);
    assert t == lines[0] + eol + Terminated(lines[1..], eol);
    if lines[0] != [] {
      assert t[0] == lines[0][0];
    } else {
      assert t[0] == eol[0];
    }
  }

  /** A text without a line boundary is one line, or none when empty. */
  lemma SplitLinesSingle(last: string)
    requires NoLineBoundary(last)
    ensures SplitLines(last) == if last == [] then [] else [last]
  {
    if last != [] {
      assert LineEnd(last) == |last|;
    }
  }

  /** What follows a terminator begins with "\n" only when "\n" is the terminator. */
  lemma TerminatedThenHead(lines: seq<string>, eol: string, last: string)
    requires IsLineTerminator(eol)
    requires forall i | 0 <= i < |lines| :: NoLineBoundary(lines[i])
    requires NoLineBoundary(last)
    requires |Terminated(lines, eol) + last| > 0
    ensures (Terminated(lines, eol) + last)[0] == '\n' ==> eol == "\n"
  {
    if lines != [] {
      TerminatedHead(lines, eol);
    } else {
      assert Terminated(lines, eol) + last == last;
    }
  }

  /** A line and its terminator split off as the first line of the text. */
  lemma SplitLinesCons(line: string, eol: string, tail: string)
    requires NoLineBoundary(line) && IsLineTerminator(eol)
    requires |tail| > 0 && tail[0] == '\n' ==> eol == "\n"
    ensures SplitLines(line + eol + tail) == [line] + SplitLines(tail)
  {
    var s := line + eol + tail;
    assert s == line + (eol + tail);
    LineEndOf(line, eol + tail);
    var k := |line|;
    var next := k + |eol|;
    assert s[next..] == tail;
    assert s[..k] == line;
    if eol != "\r\n" && next < |s| {
      assert s[next] == tail[0];
    }
  }

  /** The first line and its terminator come first in a terminated text. */
  lemma TerminatedThenCons(lines: seq<string>, eol: string, last: string)
    requires lines != []
    ensures Terminated(lines, eol) + last == lines[0] + eol + (Terminated(lines[1..], eol) + last)
  {
    assert Terminated(lines, eol) == lines[0] + eol + Terminated(lines[1..], eol);
  }

  /**
   * Splitting a text whose lines carry no line boundary and each end in
   * one terminator, followed by a last line without terminator, gives
   * exactly those lines back; an empty last line adds no line.
   */
  lemma {:induction false} SplitLinesTerminatedThen(lines: seq<string>, eol: string, last: string)
    requires IsLineTerminator(eol)
    requires forall i | 0 <= i < |lines| :: NoLineBoundary(lines[i])
    requires NoLineBoundary(last)
    ensures SplitLines(Terminated(lines, eol) + last) == lines + (if last == [] then [] else [last])
  {
    if lines == [] {
      assert Terminated(lines, eol) + last == last;
      SplitLinesSingle(last);
    } else {
      var line, rest := lines[0], lines[1..];
      var tail := Terminated(rest, eol) + last;
      var more: seq<string> := if last == [] then [] else [last];
      TerminatedThenCons(lines, eol, last);
      if |tail| > 0 {
        TerminatedThenHead(rest, eol, last);
      }
      SplitLinesCons(line, eol, tail);
      SplitLinesTerminatedThen(rest, eol, last);
      assert SplitLines(tail) == rest + more;
      assert [line] + (rest + more) == lines + more;
    }
  }

  /**
   * Splitting a text whose lines carry no line boundary and each end in
   * one terminator gives exactly those lines back.
   */
  lemma SplitLinesTerminated(lines: seq<string>, eol: string)
    requires IsLineTerminator(eol)
    requires forall i | 0 <= i < |lines| :: NoLineBoundary(lines[i])
    ensures SplitLines(Terminated(lines, eol)) == lines
  {
    SplitLinesTerminatedThen(lines, eol, []);
    assert Terminated(lines, eol) + [] == Terminated(lines, eol);
  }

  // ---------------------------------------------------------------------
  // str.strip()

  predicate AllSpace(s: string) {
    forall i | 0 <= i < |s| :: IsSpace(s[i])
  }

  /** Neither end of `s` is whitespace. */
  predicate Trimmed(s: string) {
    s == [] || (!IsSpace(s[0]) && !IsSpace(s[|s| - 1]))
  }

  /** `s.lstrip()` */
  function LStrip(s: string): (r: string)
    ensures |r| <= |s| && r == s[|s| - |r|..]
    ensures AllSpace(s[..|s| - |r|])
    ensures r == [] || !IsSpace(r[0])
  {
    if s != [] && IsSpace(s[0]) then
      var r := LStrip(s[1..]);
      assert s[..|s| - |r|] == [s[0]] + s[1..][..|s| - 1 - |r|];
      r
    else s
  }

  /** `s.rstrip()` */
  function RStrip(s: string): (r: string)
    ensures |r| <= |s| && r == s[..|r|]
    ensures AllSpace(s[|r|..])
    ensures r == [] || !IsSpace(r[|r| - 1])
  {
    if s != [] && IsSpace(s[|s| - 1]) then
      var r := RStrip(s[..|s| - 1]);
      assert s[|r|..] == s[..|s| - 1][|r|..] + [s[|s| - 1]];
      r
    else s
  }

  /** `s.strip()`: `s` without the whitespace at either end. */
  function Strip(s: string): (r: string)
    ensures Trimmed(r) && |r| <= |s|
  {
    RStrip(LStrip(s))
  }

  /**
   * What `strip` keeps is a slice of `s`, and what it drops on either
   * side is whitespace only.
   */
  lemma StripIsSlice(s: string) returns (i: nat)
    ensures i + |Strip(s)| <= |s|
    ensures s[i..i + |Strip(s)|] == Strip(s)
    ensures AllSpace(s[..i]) && AllSpace(s[i + |Strip(s)|..])
  {
    var l := LStrip(s);
    var r := RStrip(l);
    i := |s| - |l|;
    assert s[i..] == l;
    assert s[i..i + |r|] == l[..|r|];
    assert s[i + |r|..] == l[|r|..];
  }

  lemma {:induction false} LStripAfterSpace(pre: string, rest: string)
    requires AllSpace(pre)
    requires rest == [] || !IsSpace(rest[0])
    ensures LStrip(pre + rest) == rest
  {
    if pre != [] {
      assert (pre + rest)[1..] == pre[1..] + rest;
      LStripAfterSpace(pre[1..], rest);
    }
  }

  lemma {:induction false} RStripBeforeSpace(rest: string, post: string)
    requires AllSpace(post)
    requires rest == [] || !IsSpace(rest[|rest| - 1])
    ensures RStrip(rest + post) == rest
  {
    if post != [] {
      var s := rest + post;
      assert s[|s| - 1] == post[|post| - 1];
      assert s[..|s| - 1] == rest + post[..|post| - 1];
      RStripBeforeSpace(rest, post[..|post| - 1]);
    }
  }

  /**
   * `strip` removes exactly the surrounding whitespace: a trimmed core
   * between whitespace-only runs is what it returns.
   */
  lemma StripSurrounded(pre: string, core: string, post: string)
    requires AllSpace(pre) && AllSpace(post) && Trimmed(core)
    ensures Strip(pre + core + post) == core
  {
    if core == [] {
      assert pre + core + post == pre + post;
      LStripAfterSpace(pre + post, []);
      assert pre + post + [] == pre + post;
    } else {
      assert pre + core + post == pre + (core + post);
      LStripAfterSpace(pre, core + post);
      RStripBeforeSpace(core, post);
    }
  }

  // ---------------------------------------------------------------------
  // str(n)

  /** `str(n)` for a natural number: its decimal digits, no leading zero. */
  function DecimalText(n: nat): (s: string)
    ensures |s| >= 1 && forall i | 0 <= i < |s| :: IsDigit(s[i])
    ensures n >= 10 ==> s[0] != '0'
  {
    if n < 10 then [Digits[n]]
    else DecimalText(n / 10) + [Digits[n % 10]]
  }

  /** `int(s)` for a string of decimal digits. */
  function DecimalValue(s: string): (n: nat)
    requires forall i | 0 <= i < |s| :: IsDigit(s[i])
  {
    if s == [] then 0
    else
      var d := s[|s| - 1];
      assert IsDigit(d);
      10 * DecimalValue(s[..|s| - 1]) + (d as int - '0' as int)
  }

  /** `int(str(n)) == n`: the decimal text of a number reads back as it. */
  lemma {:induction false} DecimalRoundTrip(n: nat)
    ensures DecimalValue(DecimalText(n)) == n
  {
    if n >= 10 {
      DecimalRoundTrip(n / 10);
      var s := DecimalText(n);
      assert s[..|s| - 1] == DecimalText(n / 10);
    }
  }

  /** A number of 100 to 999 is written with three digits. */
  lemma ThreeDigits(n: nat)
    requires 100 <= n < 1000
    ensures |DecimalText(n)| == 3
  {
    var q := n / 10;
    assert 10 <= q < 100 && q / 10 < 10;
    assert |DecimalText(q)| == |DecimalText(q / 10)| + 1 == 2;
    assert |DecimalText(n)| == |DecimalText(q)| + 1;
  }
}
