/**
 * Running a helper program and reading what it printed: the stderr tail kept
 * for diagnostics, the two capture wrappers, the ffprobe duration probe and
 * the sample-rate check. A finished process is a value (its exit code and
 * its two output streams); spawning, time-outs and signals are not modelled.
 */
module Probes {
  import opened Wrappers
  import opened Strings
  import opened Numbers

  function Min(a: int, b: int): int {
    if a <= b then a else b
  }

  /** `lines[-n:]` with Python's slice rules: `[-0:]` is the whole list, a negative `n` drops from the front. */
  function TailLines(lines: seq<string>, n: int): (r: seq<string>)
    ensures |r| <= |lines|
    ensures n > 0 ==> |r| == Min(n, |lines|)
    ensures n >= 0 ==> r == lines[|lines| - |r|..]
    ensures n == 0 ==> r == lines
    ensures n < 0 ==> r == lines[Min(-n, |lines|)..]
  {
    if n > 0 then (if n >= |lines| then lines else lines[|lines| - n..])
    else if n == 0 then lines
    else lines[Min(-n, |lines|)..]
  }

  /** `_last_lines(s, n)`: the last `n` lines of `s`, joined with `\n`. */
  function LastLines(s: string, n: int): string {
    Join(TailLines(SplitLines(s), n), "\n")
  }

  /** The default number of lines `_last_lines` keeps. */
  const TailLength: int := 12

  /**
   * For a positive `n` the tail is at most `n` lines, a suffix of the text's
   * own lines in their original order, and it reads back as those lines
   * (when the last is not empty).
   */
  lemma {:induction false} LastLinesSuffix(s: string, n: int)
    requires n > 0
    ensures var lines := SplitLines(s);
      var tail := TailLines(lines, n);
      && |tail| <= n
      && tail == lines[|lines| - |tail|..]
      && (tail != [] && tail[|tail| - 1] != "" ==> SplitLines(LastLines(s, n)) == tail)
  {
    var lines := SplitLines(s);
    var tail := TailLines(lines, n);
    if tail != [] && tail[|tail| - 1] != "" {
      TailNoLineBreak(lines, tail);
      SplitLinesOfJoined(tail);
    }
  }

  lemma {:induction false} TailNoLineBreak(lines: seq<string>, tail: seq<string>)
    requires |tail| <= |lines| && tail == lines[|lines| - |tail|..]
    requires forall k | 0 <= k < |lines| :: NoLineBreak(lines[k])
    ensures forall k | 0 <= k < |tail| :: NoLineBreak(tail[k])
  {
    forall k | 0 <= k < |tail| ensures NoLineBreak(tail[k]) {
      assert tail[k] == lines[|lines| - |tail| + k];
    }
  }

  /** Text with no more than `n` lines is kept whole (with its line ends normalised to `\n`). */
  lemma LastLinesShort(s: string, n: int)
    requires n > 0 && |SplitLines(s)| <= n
    ensures LastLines(s, n) == Join(SplitLines(s), "\n")
  {
  }

  /** A single line without breaks is its own tail. */
  lemma LastLinesOneLine(s: string, n: int)
    requires n > 0 && s != [] && NoLineBreak(s)
    ensures LastLines(s, n) == s
  {
    SplitLinesSingle(s);
  }

  /** A finished process: its exit code and what it wrote on stdout and stderr. */
  datatype Proc = Proc(rc: int, out: string, err: string)

  /**
   * `run_quiet` on a process that finished: its exit code and its stderr
   * tail, whatever the exit code (a failed spawn is not modelled).
   */
  function RunQuiet(p: Proc): (r: (int, string))
    ensures r.0 == p.rc
    ensures r.1 == LastLines(p.err, TailLength)
  {
    (p.rc, LastLines(p.err, TailLength))
  }

  /** Why a capture raised. */
  datatype CaptureError =
    | UnexpectedKeyword                  // TypeError: `_run_capture` takes no `env`/`text`
    | CalledProcess(rc: int, tail: string) // CalledProcessError carrying the stderr tail

  /**
   * `run_capture` as written: it forwards `env=` and `text=` to
   * `_run_capture`, whose keyword-only parameters are `timeout`, `check` and
   * `cwd`, so the call raises before any process starts.
   */
  function RunCaptureAsWritten(p: Proc): Result<string, CaptureError> {
    Err(UnexpectedKeyword)
  }

  /**
   * `run_capture` as intended: `_run_capture` with `check=True` raises on a
   * non-zero exit code with the stderr tail; otherwise stdout is returned.
   */
  function RunCapture(p: Proc): (r: Result<string, CaptureError>)
    ensures r.Ok? <==> p.rc == 0
    ensures r.Ok? ==> r.value == p.out
    ensures r.Err? ==> r.error == CalledProcess(p.rc, LastLines(p.err, TailLength))
  {
    if p.rc != 0 then Err(CalledProcess(p.rc, LastLines(p.err, TailLength))) else Ok(p.out)
  }

  /** As written, no probe ever sees its process's output: every capture fails the same way. */
  lemma CaptureNeverSucceeds(p: Proc)
    ensures RunCaptureAsWritten(p).Err? && RunCaptureAsWritten(p) != RunCapture(Proc(0, p.out, p.err))
  {
  }

  /**
   * Seconds as an exact decimal, converted to whole milliseconds, rounding
   * half to even below a millisecond.
   */
  function MsOfDecimal(d: Decimal): (r: int)
    ensures d.negative ==> r <= 0
    ensures !d.negative ==> r >= 0
  {
    var sign := if d.negative then -1 else 1;
    if d.exponent + 3 >= 0 then sign * d.mantissa * Pow10(d.exponent + 3)
    else
      var den := Pow10(-(d.exponent + 3));
      var r := RoundHalfEven(sign * d.mantissa, den);
      RoundKeepsSign(sign * d.mantissa, den, r);
      r
  }

  /** Rounding `n / den` to the nearest integer never changes the sign. */
  lemma RoundKeepsSign(n: int, den: int, r: int)
    requires den > 0 && -den <= 2 * (n - r * den) <= den
    ensures n <= 0 ==> r <= 0
    ensures n >= 0 ==> r >= 0
  {
  }

  /** `1000 * |d| == ScaledNum(d) / ScaledDen(d)`, with both parts whole. */
  function ScaledNum(d: Decimal): nat {
    d.mantissa * Pow10(if d.exponent + 3 >= 0 then d.exponent + 3 else 0)
  }

  function ScaledDen(d: Decimal): nat {
    Pow10(if d.exponent + 3 >= 0 then 0 else -(d.exponent + 3))
  }

  /** A non-negative decimal becomes the millisecond count nearest to it, ties to even. */
  lemma MsNearest(d: Decimal)
    requires !d.negative
    ensures var num: int, den: int, ms: int := ScaledNum(d), ScaledDen(d), MsOfDecimal(d);
      && -den <= 2 * (num - ms * den) <= den
      && (2 * (num - ms * den) == den || 2 * (num - ms * den) == -den ==> ms % 2 == 0)
  {
    if d.exponent + 3 >= 0 {
      assert ScaledDen(d) == 1;
      assert MsOfDecimal(d) == ScaledNum(d);
    }
  }

  /**
   * `_ffprobe_duration_seconds`, in milliseconds: a failed capture, text
   * `float` rejects, NaN and infinities all give 0, and a negative duration
   * is clamped to 0.
   */
  function ProbeDurationMs(capture: Result<string, CaptureError>): (ms: nat)
    ensures capture.Err? ==> ms == 0
    ensures capture.Ok? && ParseDecimal(capture.value).None? ==> ms == 0
    ensures capture.Ok? && ParseDecimal(capture.value).Some? && ParseDecimal(capture.value).value.negative ==> ms == 0
  {
    match capture
    case Err(_) => 0
    case Ok(out) =>
      match ParseDecimal(out)
      case None => 0
      case Some(d) => if MsOfDecimal(d) < 0 then 0 else MsOfDecimal(d)
  }

  /** A parsed duration that is not negative is read through `MsOfDecimal`. */
  lemma ProbeOfParsed(out: string, d: Decimal)
    requires ParseDecimal(out) == Some(d) && !d.negative
    ensures ProbeDurationMs(Ok(out)) == MsOfDecimal(d)
  {
  }

  /**
   * A non-negative duration is read as the whole number of milliseconds
   * nearest to it, ties to even: the printed value is `ScaledNum(d) /
   * ScaledDen(d)` milliseconds, and `ms` lies within half of `ScaledDen(d)`
   * of it.
   */
  lemma ProbeDurationNearest(out: string, d: Decimal)
    requires ParseDecimal(out) == Some(d) && !d.negative
    ensures var num: int, den: int, ms: int := ScaledNum(d), ScaledDen(d), ProbeDurationMs(Ok(out));
      && -den <= 2 * (num - ms * den) <= den
      && (2 * (num - ms * den) == den || 2 * (num - ms * den) == -den ==> ms % 2 == 0)
  {
    ProbeOfParsed(out, d);
    MsNearest(d);
  }

  /** A whole number of seconds printed by ffprobe is read exactly. */
  lemma ProbeWholeSeconds(n: nat)
    ensures ProbeDurationMs(Ok(NatToString(n))) == 1000 * n
  {
    ParseNatText(NatToString(n));
    ParseNatToString(n);
    assert Pow10(3) == 1000;
  }

  /** Seconds with up to three fraction digits (`183.456`) are read as exact milliseconds. */
  lemma ProbeMilliseconds(a: string, f: string)
    requires IsDigits(a) && AllDigits(f) && |f| <= 3
    ensures ProbeDurationMs(Ok(a + "." + f)) == (ParseDigits(a) * Pow10(|f|) + ParseDigits(f)) * Pow10(3 - |f|)
  {
    SecondsFractionText(a, f);
    var m := ParseDigits(a + f);
    var d := Decimal(false, m, -|f|);
    ProbeOfParsed(a + "." + f, d);
    MsOfWhole(d, 3 - |f|);
    assert m == ParseDigits(a) * Pow10(|f|) + ParseDigits(f);
  }

  /** Without digits below a millisecond the value is exact. */
  lemma MsOfWhole(d: Decimal, k: nat)
    requires !d.negative && d.exponent + 3 == k
    ensures MsOfDecimal(d) == d.mantissa * Pow10(k)
  {
  }

  /** Three fraction digits: `s.fff` seconds are `1000 * s + fff` milliseconds. */
  lemma ProbeThreeDigits(a: string, f: string)
    requires IsDigits(a) && AllDigits(f) && |f| == 3
    ensures ProbeDurationMs(Ok(a + "." + f)) == 1000 * ParseDigits(a) + ParseDigits(f)
  {
    ProbeMilliseconds(a, f);
    assert Pow10(3) == 1000 && Pow10(0) == 1;
    assert Pow10(|f|) == 1000 && Pow10(3 - |f|) == 1 by { assert |f| == 3 && 3 - |f| == 0; }
    Scale(ParseDigits(a), ParseDigits(f), Pow10(|f|), Pow10(3 - |f|));
  }

  lemma Scale(x: int, y: int, p: int, q: int)
    requires p == 1000 && q == 1
    ensures (x * p + y) * q == 1000 * x + y
  {
  }

  /**
   * The six fraction digits ffprobe prints (`183.456789`): with `us` the
   * duration in microseconds, the result is the nearest millisecond, ties
   * to even.
   */
  lemma ProbeSixDigits(a: string, f: string)
    requires IsDigits(a) && AllDigits(f) && |f| == 6
    ensures var us := ParseDigits(a) * 1000000 + ParseDigits(f);
      var ms := ProbeDurationMs(Ok(a + "." + f));
      && -1000 <= 2 * (us - 1000 * ms) <= 1000
      && (2 * (us - 1000 * ms) == 1000 || 2 * (us - 1000 * ms) == -1000 ==> ms % 2 == 0)
  {
    SecondsFractionText(a, f);
    var d := Decimal(false, ParseDigits(a + f), -6);
    assert Pow10(6) == 1000000;
    assert Pow10(3) == 1000;
    assert ScaledNum(d) == ParseDigits(a + f) && ScaledDen(d) == 1000;
    ProbeDurationNearest(a + "." + f, d);
  }

  /** As written, every duration probe reads 0 whatever the file. */
  lemma DurationAsWrittenIsZero(p: Proc)
    ensures ProbeDurationMs(RunCaptureAsWritten(p)) == 0
  {
  }

  /** The probe of one file for the sample-rate check. */
  datatype RateProbe = RateProbe(name: string, capture: Result<string, CaptureError>)

  /** `int(str(out).strip() or 0)`: blank output reads as 0; text `int` rejects gives none (the file is skipped). */
  function SampleRateOf(capture: Result<string, CaptureError>): Option<int> {
    match capture
    case Err(_) => None
    case Ok(out) => if Trim(out) == "" then Some(0) else ParseInt(out)
  }

  /** Blank output reads as 0, and a printed rate reads back as itself. */
  lemma SampleRateCases(out: string, sr: int)
    ensures Trim(out) == "" ==> SampleRateOf(Ok(out)) == Some(0)
    ensures SampleRateOf(Ok(IntToString(sr))) == Some(sr)
  {
    ParseIntOfText(sr);
    TrimIntText(sr);
  }

  /** A rate worth a warning: known (non-zero) and different from the expected one. */
  predicate IsMismatch(sr: int, expected: int) {
    sr != 0 && sr != expected
  }

  /** One loop step: the file and its rate, when the rate was read and is worth a warning. */
  function MismatchOf(p: RateProbe, expected: int): Option<(string, int)> {
    var sr := SampleRateOf(p.capture);
    if sr.Some? && IsMismatch(sr.value, expected) then Some((p.name, sr.value)) else None
  }

  /** The mismatching files, in input order, with the rate each reported. */
  function Mismatches(probes: seq<RateProbe>, expected: int): seq<(string, int)> {
    FilterMap(p => MismatchOf(p, expected), probes)
  }

  /**
   * Every reported pair is a file whose rate was read and mismatches, and
   * every such file is reported; there are never more reports than files.
   */
  lemma MismatchesExact(probes: seq<RateProbe>, expected: int)
    ensures |Mismatches(probes, expected)| <= |probes|
    ensures forall m | m in Mismatches(probes, expected) ::
      exists i | 0 <= i < |probes| :: (probes[i].name == m.0 && SampleRateOf(probes[i].capture) == Some(m.1)
        && IsMismatch(m.1, expected))
    ensures forall i | 0 <= i < |probes| && SampleRateOf(probes[i].capture).Some?
        && IsMismatch(SampleRateOf(probes[i].capture).value, expected) ::
      (probes[i].name, SampleRateOf(probes[i].capture).value) in Mismatches(probes, expected)
  {
    var f := p => MismatchOf(p, expected);
    FilterMapExact(f, probes);
    forall m | m in Mismatches(probes, expected)
      ensures exists i | 0 <= i < |probes| :: (probes[i].name == m.0 && SampleRateOf(probes[i].capture) == Some(m.1)
        && IsMismatch(m.1, expected))
    {
      var i :| 0 <= i < |probes| && f(probes[i]) == Some(m);
      assert MismatchOf(probes[i], expected) == Some(m);
    }
    forall i | 0 <= i < |probes| && SampleRateOf(probes[i].capture).Some?
        && IsMismatch(SampleRateOf(probes[i].capture).value, expected)
      ensures (probes[i].name, SampleRateOf(probes[i].capture).value) in Mismatches(probes, expected)
    {
      assert f(probes[i]).Some?;
    }
  }

  /** When every capture fails, as it does with `run_capture` as written, nothing is reported. */
  lemma MismatchesAllFailed(probes: seq<RateProbe>, expected: int)
    requires forall i | 0 <= i < |probes| :: probes[i].capture.Err?
    ensures Mismatches(probes, expected) == []
  {
    var f := p => MismatchOf(p, expected);
    assert forall i | 0 <= i < |probes| :: f(probes[i]).None?;
    FilterMapNone(f, probes);
  }

  /** ` - <name>: <sr> Hz (expected <expected>)` */
  function WarningLine(name: string, sr: int, expected: int): string {
    " - " + name + ": " + IntToString(sr) + " Hz (expected " + IntToString(expected) + ")"
  }

  /** The heading logged before the warnings. */
  function WarningHeading(): string {
    "Validation warnings (sample_rate mismatch):"
  }

  /** One warning line per mismatch, in order. */
  function WarningLines(mismatches: seq<(string, int)>, expected: int): seq<string> {
    Map((m: (string, int)) => WarningLine(m.0, m.1, expected), mismatches)
  }

  /** The log lines for a list of mismatches: nothing at all when there are none. */
  function WarningLog(mismatches: seq<(string, int)>, expected: int): seq<string> {
    if mismatches == [] then [] else [WarningHeading()] + WarningLines(mismatches, expected)
  }

  /**
   * `validate_sample_rates`: collects the mismatches, then logs the heading
   * and one line per mismatch; `log` is what it passes to its logger.
   */
  method ValidateSampleRates(probes: seq<RateProbe>, expected: int)
    returns (mismatches: seq<(string, int)>, log: seq<string>)
    ensures mismatches == Mismatches(probes, expected)
    ensures log == WarningLog(mismatches, expected)
    ensures |log| == if mismatches == [] then 0 else |mismatches| + 1
  {
    mismatches := FilterMapLoop(p => MismatchOf(p, expected), probes);
    log := [];
    if mismatches != [] {
      var lines := MapLoop((m: (string, int)) => WarningLine(m.0, m.1, expected), mismatches);
      log := [WarningHeading()] + lines;
    }
  }
}
