/**
 * The Python `str` operations the core relies on, written over Dafny strings
 * (`seq<char>`): whitespace and line-break classes, `find`, `split`, `join`,
 * `splitlines`, the `strip` family, single-character `replace`, ASCII case
 * mapping, and `str(int)` with its inverse.
 */
module Strings {
  import opened Wrappers

  /** `str.isspace()` on one character (Unicode White_Space as Python 3 classifies it). */
  predicate IsSpace(c: char) {
    ('\t' <= c <= '\r') || ('\U{1c}' <= c <= '\U{1f}') || c == ' '
    || c == '\U{85}' || c == '\U{a0}' || c == '\U{1680}'
    || ('\U{2000}' <= c <= '\U{200a}') || c == '\U{2028}' || c == '\U{2029}'
    || c == '\U{202f}' || c == '\U{205f}' || c == '\U{3000}'
  }

  /** A character at which `str.splitlines()` ends a line. */
  predicate IsLineBreak(c: char) {
    ('\n' <= c <= '\r') || ('\U{1c}' <= c <= '\U{1e}')
    || c == '\U{85}' || c == '\U{2028}' || c == '\U{2029}'
  }

  predicate IsDigit(c: char) { '0' <= c <= '9' }

  predicate IsHash(c: char) { c == '#' }

  /** `s.isdigit()` restricted to ASCII digits: non-empty and all digits. */
  predicate IsDigits(s: string) {
    |s| > 0 && forall i | 0 <= i < |s| :: IsDigit(s[i])
  }

  /** Every character of `s` is an ASCII digit (the empty string included). */
  predicate AllDigits(s: string) {
    forall i | 0 <= i < |s| :: IsDigit(s[i])
  }

  /** `s.isspace() or not s`: the line is empty after `strip()`. */
  predicate IsBlank(s: string) {
    forall i | 0 <= i < |s| :: IsSpace(s[i])
  }

  predicate NoLineBreak(s: string) {
    forall i | 0 <= i < |s| :: !IsLineBreak(s[i])
  }

  predicate StartsWith(s: string, p: string) {
    |p| <= |s| && s[..|p|] == p
  }

  predicate EndsWith(s: string, p: string) {
    |p| <= |s| && s[|s| - |p|..] == p
  }

  /** `t` occurs in `s` starting at index `i`. */
  predicate OccursAt(s: string, t: string, i: int) {
    0 <= i && i + |t| <= |s| && s[i..i + |t|] == t
  }

  /** `t in s` */
  predicate Contains(s: string, t: string) {
    exists i | 0 <= i <= |s| - |t| :: OccursAt(s, t, i)
  }

  /** `s.find(t)`: the first index at which `t` occurs, `None` for Python's -1. */
  function Find(s: string, t: string): (r: Option<nat>)
    ensures r.Some? ==> OccursAt(s, t, r.value)
    ensures r.Some? ==> forall j | 0 <= j < r.value :: !OccursAt(s, t, j)
    ensures r.None? ==> forall j | 0 <= j <= |s| - |t| :: !OccursAt(s, t, j)
    decreases |s|
  {
    if |s| < |t| then None
    else if s[..|t|] == t then Some(0)
    else
      var rest := Find(s[1..], t);
      assert forall j | 1 <= j <= |s| - |t| :: OccursAt(s, t, j) == OccursAt(s[1..], t, j - 1) by {
        forall j | 1 <= j <= |s| - |t| ensures OccursAt(s, t, j) == OccursAt(s[1..], t, j - 1) {
          TailSlice(s, j - 1, j - 1 + |t|);
        }
      }
      match rest
      case None => None
      case Some(k) => Some(k + 1)
  }

  lemma TailSlice(s: string, a: int, b: int)
    requires 0 <= a <= b <= |s| - 1
    ensures s[1..][a..b] == s[a + 1..b + 1]
  {
    assert |s[1..][a..b]| == b - a;
    forall i | 0 <= i < b - a ensures s[1..][a..b][i] == s[a + 1..b + 1][i] {
    }
  }

  lemma FindContains(s: string, t: string)
    ensures Find(s, t).Some? <==> Contains(s, t)
  {
    if Contains(s, t) {
      var i :| 0 <= i <= |s| - |t| && OccursAt(s, t, i);
      assert Find(s, t).Some?;
    }
  }

  /** `sep.join(parts)` */
  function Join(parts: seq<string>, sep: string): (r: string)
    ensures |parts| == 1 ==> r == parts[0]
  {
    if |parts| == 0 then ""
    else if |parts| == 1 then parts[0]
    else parts[0] + sep + Join(parts[1..], sep)
  }

  lemma JoinCons(head: string, tail: seq<string>, sep: string)
    requires |tail| >= 1
    ensures Join([head] + tail, sep) == head + sep + Join(tail, sep)
  {
    assert ([head] + tail)[1..] == tail;
  }

  /** `s.split(sep)` for a non-empty separator. */
  function Split(s: string, sep: string): (parts: seq<string>)
    requires |sep| > 0
    ensures |parts| >= 1
    ensures forall k | 0 <= k < |parts| - 1 :: !Contains(parts[k], sep)
    ensures !Contains(parts[|parts| - 1], sep)
    decreases |s|
  {
    match Find(s, sep)
    case None =>
      FindContains(s, sep);
      [s]
    case Some(i) =>
      var head := s[..i];
      assert !Contains(head, sep) by {
        forall j | 0 <= j <= |head| - |sep| ensures !OccursAt(head, sep, j) {
          assert !OccursAt(s, sep, j);
          assert head[j..j + |sep|] == s[j..j + |sep|];
        }
      }
      [head] + Split(s[i + |sep|..], sep)
  }

  /** Joining what `split` cut restores the string: `sep.join(s.split(sep)) == s`. */
  lemma {:induction false} JoinSplit(s: string, sep: string)
    requires |sep| > 0
    ensures Join(Split(s, sep), sep) == s
    decreases |s|
  {
    match Find(s, sep)
    case None =>
    case Some(i) =>
      var rest := s[i + |sep|..];
      var parts := Split(s, sep);
      var tail := Split(rest, sep);
      SplitAtFind(s, sep, i);
      assert parts[1..] == tail;
      JoinCons(s[..i], tail, sep);
      JoinSplit(rest, sep);
      assert s[i..i + |sep|] == sep;
      assert s == s[..i] + sep + rest;
  }

  /** `split` cuts at the first occurrence of the separator. */
  lemma SplitAtFind(s: string, sep: string, i: nat)
    requires |sep| > 0 && Find(s, sep) == Some(i)
    ensures Split(s, sep) == [s[..i]] + Split(s[i + |sep|..], sep)
  {
  }

  /** The first occurrence of `c` in `head + [c] + rest` is right after `head` when `head` has none. */
  lemma FindCharAfter(head: string, c: char, rest: string)
    requires c !in head
    ensures Find(head + [c] + rest, [c]) == Some(|head|)
  {
    var s := head + [c] + rest;
    assert OccursAt(s, [c], |head|);
    forall j | 0 <= j < |head| ensures !OccursAt(s, [c], j) {
      assert s[j..j + 1] == [head[j]];
    }
  }

  /** A string without `c` is one part when split on `c`. */
  lemma SplitNoChar(s: string, c: char)
    requires c !in s
    ensures Split(s, [c]) == [s]
  {
    assert !Contains(s, [c]) by {
      forall j | 0 <= j <= |s| - 1 ensures !OccursAt(s, [c], j) {
        assert s[j..j + 1] == [s[j]];
      }
    }
    FindContains(s, [c]);
  }

  /** Splitting a join on a one-character separator that no part contains gives the parts back. */
  lemma {:induction false} SplitJoinChar(parts: seq<string>, c: char)
    requires |parts| >= 1
    requires forall k | 0 <= k < |parts| :: c !in parts[k]
    ensures Split(Join(parts, [c]), [c]) == parts
  {
    if |parts| == 1 {
      SplitNoChar(parts[0], c);
    } else {
      var rest := Join(parts[1..], [c]);
      var s := parts[0] + [c] + rest;
      assert Join(parts, [c]) == s;
      FindCharAfter(parts[0], c, rest);
      SplitAtFind(s, [c], |parts[0]|);
      assert s[..|parts[0]|] == parts[0];
      assert s[|parts[0]| + 1..] == rest;
      SplitJoinChar(parts[1..], c);
      assert parts == [parts[0]] + parts[1..];
    }
  }

  /** Index of the first line-break character of `s`, or `|s|`. */
  function FirstBreak(s: string): (i: nat)
    ensures i <= |s|
    ensures i < |s| ==> IsLineBreak(s[i])
    ensures NoLineBreak(s[..i])
  {
    if s == [] || IsLineBreak(s[0]) then 0
    else
      var k := FirstBreak(s[1..]);
      assert s[..1 + k] == [s[0]] + s[1..][..k];
      1 + k
  }

  /** `s.splitlines()`: lines without their terminators ("\r\n" is one terminator). */
  function SplitLines(s: string): (lines: seq<string>)
    ensures forall k | 0 <= k < |lines| :: NoLineBreak(lines[k])
    ensures s == [] <==> lines == []
    decreases |s|
  {
    if s == [] then []
    else
      var i := FirstBreak(s);
      if i == |s| then [s]
      else
        var next := if s[i] == '\r' && i + 1 < |s| && s[i + 1] == '\n' then i + 2 else i + 1;
        [s[..i]] + SplitLines(s[next..])
  }

  /** A break-free line followed by "\n" is the first line of whatever follows. */
  lemma SplitLinesCons(line: string, rest: string)
    requires NoLineBreak(line)
    ensures SplitLines(line + "\n" + rest) == [line] + SplitLines(rest)
  {
    var s := line + "\n" + rest;
    assert s == line + ("\n" + rest);
    FirstBreakOf(line, "\n" + rest);
    assert s[|line|] == '\n';
    assert s[..|line|] == line;
    assert s[|line| + 1..] == rest;
    assert SplitLines(s) == [s[..|line|]] + SplitLines(s[|line| + 1..]);
  }

  lemma FirstBreakOf(line: string, rest: string)
    requires NoLineBreak(line)
    requires rest == [] || IsLineBreak(rest[0])
    ensures FirstBreak(line + rest) == |line|
    decreases |line|
  {
    if line != [] {
      assert (line + rest)[1..] == line[1..] + rest;
      FirstBreakOf(line[1..], rest);
    }
  }

  lemma NoLineBreakAppend(a: string, b: string)
    requires NoLineBreak(a) && NoLineBreak(b)
    ensures NoLineBreak(a + b)
  {
    forall i | 0 <= i < |a + b| ensures !IsLineBreak((a + b)[i]) {
      if i >= |a| { assert (a + b)[i] == b[i - |a|]; }
    }
  }

  /** Two break-free lines, each ended by "\n", come first in what follows. */
  lemma SplitLinesTwo(a: string, b: string, rest: string)
    requires NoLineBreak(a) && NoLineBreak(b)
    ensures SplitLines(a + "\n" + b + "\n" + rest) == [a, b] + SplitLines(rest)
  {
    var tail := b + "\n" + rest;
    RegroupTail(a, "\n", b, "\n", rest);
    SplitLinesCons(a, tail);
    SplitLinesCons(b, rest);
  }

  lemma RegroupTail<T>(a: seq<T>, x: seq<T>, b: seq<T>, y: seq<T>, rest: seq<T>)
    ensures a + x + b + y + rest == a + x + (b + y + rest)
  {
  }

  /** Two header lines, then lines written with `"\n".join(lines) + "\n"`, read back line for line. */
  lemma SplitLinesAfterTwo(a: string, b: string, lines: seq<string>)
    requires NoLineBreak(a) && NoLineBreak(b)
    requires forall k | 0 <= k < |lines| :: NoLineBreak(lines[k])
    ensures SplitLines(a + "\n" + b + "\n" + Join(lines, "\n") + "\n") ==
      [a, b] + (if lines == [] then [""] else lines)
  {
    var rest := Join(lines, "\n") + "\n";
    var text := a + "\n" + b + "\n" + Join(lines, "\n") + "\n";
    assert text == a + "\n" + b + "\n" + rest;
    SplitLinesTwo(a, b, rest);
    if lines == [] {
      SplitLinesCons("", "");
      assert rest == "" + "\n" + "";
      assert SplitLines(text) == [a, b] + [""];
    } else {
      SplitLinesOfWritten(lines);
      assert SplitLines(text) == [a, b] + lines;
    }
  }

  /** A non-empty line without breaks is one line. */
  lemma SplitLinesSingle(line: string)
    requires line != [] && NoLineBreak(line)
    ensures SplitLines(line) == [line]
  {
    FirstBreakOf(line, "");
    assert line + "" == line;
  }

  /** A file written as `"\n".join(lines) + "\n"` reads back as exactly those lines. */
  lemma {:induction false} SplitLinesOfWritten(lines: seq<string>)
    requires |lines| >= 1
    requires forall k | 0 <= k < |lines| :: NoLineBreak(lines[k])
    ensures SplitLines(Join(lines, "\n") + "\n") == lines
  {
    if |lines| == 1 {
      SplitLinesCons(lines[0], "");
      assert lines[0] + "\n" + "" == Join(lines, "\n") + "\n";
    } else {
      var tail := lines[1..];
      assert lines == [lines[0]] + tail;
      JoinCons(lines[0], tail, "\n");
      assert Join(lines, "\n") + "\n" == lines[0] + "\n" + (Join(tail, "\n") + "\n");
      SplitLinesCons(lines[0], Join(tail, "\n") + "\n");
      SplitLinesOfWritten(tail);
    }
  }

  /** `"\n".join(lines)` reads back as those lines when the last one is not empty. */
  lemma {:induction false} SplitLinesOfJoined(lines: seq<string>)
    requires |lines| >= 1 && lines[|lines| - 1] != ""
    requires forall k | 0 <= k < |lines| :: NoLineBreak(lines[k])
    ensures SplitLines(Join(lines, "\n")) == lines
  {
    if |lines| == 1 {
      SplitLinesSingle(lines[0]);
    } else {
      var tail := lines[1..];
      assert lines == [lines[0]] + tail;
      JoinCons(lines[0], tail, "\n");
      SplitLinesCons(lines[0], Join(tail, "\n"));
      SplitLinesOfJoined(tail);
    }
  }

  /** `s.lstrip(chars)` where `drop` tells which characters are in `chars`. */
  function LStrip(s: string, drop: char -> bool): (r: string)
    ensures |r| <= |s| && r == s[|s| - |r|..]
    ensures r == [] || !drop(r[0])
    ensures forall i | 0 <= i < |s| - |r| :: drop(s[i])
    decreases |s|
  {
    if s != [] && drop(s[0]) then
      var r := LStrip(s[1..], drop);
      assert s[1..][|s| - 1 - |r|..] == s[|s| - |r|..];
      assert forall i | 1 <= i < |s| - |r| :: s[i] == s[1..][i - 1];
      r
    else s
  }

  /** `s.rstrip(chars)` */
  function RStrip(s: string, drop: char -> bool): (r: string)
    ensures |r| <= |s| && r == s[..|r|]
    ensures r == [] || !drop(r[|r| - 1])
    ensures forall i | |r| <= i < |s| :: drop(s[i])
    decreases |s|
  {
    if s != [] && drop(s[|s| - 1]) then
      var r := RStrip(s[..|s| - 1], drop);
      assert s[..|s| - 1][..|r|] == s[..|r|];
      r
    else s
  }

  /** `s.strip(chars)` */
  function Strip(s: string, drop: char -> bool): (r: string)
    ensures r == [] || (!drop(r[0]) && !drop(r[|r| - 1]))
  {
    RStrip(LStrip(s, drop), drop)
  }

  /** Stripping twice strips nothing more. */
  lemma StripIdempotent(s: string, drop: char -> bool)
    ensures Strip(Strip(s, drop), drop) == Strip(s, drop)
  {
  }

  /** `s.strip()` (whitespace). */
  function Trim(s: string): string {
    Strip(s, IsSpace)
  }

  /** Text with no whitespace at either end is its own strip. */
  lemma TrimUnchanged(s: string)
    requires |s| > 0 && !IsSpace(s[0]) && !IsSpace(s[|s| - 1])
    ensures Trim(s) == s
  {
    assert LStrip(s, IsSpace) == s;
  }

  /** `s.replace(c, repl)` for a single character `c`. */
  function ReplaceChar(s: string, c: char, repl: string): string {
    if s == [] then []
    else (if s[0] == c then repl else [s[0]]) + ReplaceChar(s[1..], c, repl)
  }

  /** What `replace` leaves: no `c` unless `repl` brings one, characters only from `s` or `repl`. */
  lemma {:induction false} ReplaceCharFacts(s: string, c: char, repl: string)
    ensures c !in repl ==> c !in ReplaceChar(s, c, repl)
    ensures forall d | d in ReplaceChar(s, c, repl) :: (d in s && d != c) || d in repl
    ensures c !in s ==> ReplaceChar(s, c, repl) == s
    decreases |s|
  {
    if s != [] {
      ReplaceCharFacts(s[1..], c, repl);
      var h := if s[0] == c then repl else [s[0]];
      assert ReplaceChar(s, c, repl) == h + ReplaceChar(s[1..], c, repl);
      assert s == [s[0]] + s[1..];
    }
  }

  function LowerChar(c: char): char {
    if 'A' <= c <= 'Z' then (c as int + 32) as char else c
  }

  function UpperChar(c: char): char {
    if 'a' <= c <= 'z' then (c as int - 32) as char else c
  }

  /** `s.lower()` on ASCII letters. */
  function Lower(s: string): (r: string)
    ensures |r| == |s| && forall i | 0 <= i < |s| :: r[i] == LowerChar(s[i])
  {
    seq(|s|, i requires 0 <= i < |s| => LowerChar(s[i]))
  }

  /** `s.upper()` on ASCII letters. */
  function Upper(s: string): (r: string)
    ensures |r| == |s| && forall i | 0 <= i < |s| :: r[i] == UpperChar(s[i])
  {
    seq(|s|, i requires 0 <= i < |s| => UpperChar(s[i]))
  }

  function DigitChar(d: nat): (c: char)
    requires d < 10
    ensures IsDigit(c)
  {
    ('0' as int + d) as char
  }

  function DigitValue(c: char): (d: nat)
    requires IsDigit(c)
    ensures d < 10
  {
    c as int - '0' as int
  }

  /** `str(n)` for a non-negative integer. */
  function NatToString(n: nat): (s: string)
    ensures IsDigits(s)
    ensures n >= 10 <==> |s| >= 2
    decreases n
  {
    if n < 10 then [DigitChar(n)] else NatToString(n / 10) + [DigitChar(n % 10)]
  }

  /** `str(i)` */
  function IntToString(i: int): string {
    if i < 0 then "-" + NatToString(-i) else NatToString(i)
  }

  /** `int(s)` for a string of ASCII digits. */
  function ParseDigits(s: string): nat
    requires AllDigits(s)
    decreases |s|
  {
    if s == [] then 0 else ParseDigits(s[..|s| - 1]) * 10 + DigitValue(s[|s| - 1])
  }

  /** `int(str(n)) == n` */
  lemma {:induction false} ParseNatToString(n: nat)
    ensures ParseDigits(NatToString(n)) == n
    decreases n
  {
    if n >= 10 {
      var s := NatToString(n);
      assert s[..|s| - 1] == NatToString(n / 10);
      ParseNatToString(n / 10);
    }
  }

  /** Different numbers print differently. */
  lemma NatToStringInjective(a: nat, b: nat)
    ensures NatToString(a) == NatToString(b) ==> a == b
  {
    ParseNatToString(a);
    ParseNatToString(b);
  }

  /** `f"{n:02d}"` */
  function Pad2(n: nat): (s: string)
    ensures |s| >= 2 && IsDigits(s)
  {
    if n < 10 then "0" + NatToString(n) else NatToString(n)
  }

  lemma ParsePad2(n: nat)
    ensures ParseDigits(Pad2(n)) == n
  {
    ParseNatToString(n);
    if n < 10 {
      assert Pad2(n) == ['0', DigitChar(n)];
      assert Pad2(n)[..1] == "0";
    }
  }
}
