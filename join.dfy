/**
 * Joining several audio files into one MP3: each input is decoded to a
 * temporary WAV, the WAVs are concatenated through an ffmpeg concat list,
 * the result is encoded with LAME, and the temporary files are removed on
 * every exit path. The three kinds of ffmpeg run are an oracle: each yields
 * the pair `(rc, stderr_tail)` that `run_quiet` returns. Paths are names in
 * the output directory.
 */
module Join {
  import opened Wrappers
  import opened Strings
  import Paths

  /** What `run_quiet` returns for one ffmpeg run. */
  type StepResult = (int, string)

  /**
   * The test `rc != 0` the source applies to `rc = run_quiet(...)`: `rc` is
   * the whole pair, and a tuple never equals the integer 0.
   */
  predicate StepFailsAsWritten(r: StepResult) {
    true
  }

  /** The intended test: the exit code is non-zero. */
  predicate StepFails(r: StepResult) {
    r.0 != 0
  }

  /** Why a join raised. */
  datatype JoinError = TranscodeFailed(name: string) | ConcatFailed | EncodeFailed

  /** Everything a join does that the model tracks. */
  datatype JoinRun = JoinRun(
    result: Result<string, JoinError>, // the joined file's name, or what was raised
    progress: seq<int>,                // the percentages passed to `progress`
    tempWavs: seq<string>,             // the WAVs recorded for cleanup, in order
    listText: Option<string>,          // the concat list, when it was written
    removed: seq<string>)              // the files `finally` tries to delete, in order

  /** `max(1, len(files) + 2)`, which for a list length is always `len(files) + 2`. */
  function TotalSteps(n: nat): nat {
    n + 2
  }

  /** `int((step / total_steps) * 100)`, computed exactly. */
  function Pct(step: nat, total: nat): int
    requires total > 0
  {
    (100 * step) / total
  }

  /** No step of a join reports 100 percent or more, nor a negative one. */
  lemma PctBelowHundred(step: nat, n: nat)
    requires step <= n
    ensures 0 <= Pct(step, TotalSteps(n)) < 100
  {
    var t := TotalSteps(n);
    assert 100 * step < 100 * t;
    DivBelow(100 * step, t, 100);
  }

  lemma DivBelow(a: nat, t: nat, bound: nat)
    requires t > 0 && a < bound * t
    ensures 0 <= a / t < bound
  {
  }

  /** Later steps never report less. */
  lemma PctMonotone(a: nat, b: nat, total: nat)
    requires total > 0 && a <= b
    ensures Pct(a, total) <= Pct(b, total)
  {
    DivMonotone(100 * a, 100 * b, total);
  }

  lemma DivMonotone(x: nat, y: nat, t: nat)
    requires t > 0 && x <= y
    ensures x / t <= y / t
  {
    var qx, qy := x / t, y / t;
    assert qx * t <= x;
    assert y < qy * t + t;
    assert qx * t < (qy + 1) * t;
    MulCancel(qx, qy + 1, t);
  }

  lemma MulCancel(a: int, b: int, t: int)
    requires t > 0 && a * t < b * t
    ensures a < b
  {
  }

  /** `._tmp_<stem>.wav` */
  function TempWav(file: string): string {
    "._tmp_" + Paths.Stem(file) + ".wav"
  }

  /** The concat list's line for one WAV: `file '<name>'`. */
  function ListLine(wav: string): string {
    "file '" + wav + "'"
  }

  /** The concat list: one line per WAV, joined by `\n`, without a final newline. */
  function ConcatList(wavs: seq<string>): string {
    Join(Map(ListLine, wavs), "\n")
  }

  /** The intermediate files in the output directory. */
  function ConcatWav(): string { "._concat.wav" }
  function ConcatListFile(): string { "._concat_list.txt" }

  /** `f"{join_name or 'joined'}.mp3"` */
  function OutputName(joinName: string): (r: string)
    ensures joinName != "" ==> r == joinName + ".mp3"
    ensures joinName == "" ==> r == "joined.mp3"
  {
    (if joinName == "" then "joined" else joinName) + ".mp3"
  }

  /** What `finally` deletes: nothing with `keep_temp`, otherwise the recorded WAVs, then the concat files. */
  function Cleanup(keepTemp: bool, tempWavs: seq<string>): seq<string> {
    if keepTemp then [] else tempWavs + [ConcatWav(), ConcatListFile()]
  }

  /**
   * The joined MP3 is never among the files the `finally` block deletes:
   * it ends in `.mp3`, while every temporary WAV ends in `.wav` and the
   * concat list in `.txt`.
   */
  lemma OutputSurvivesCleanup(joinName: string, keepTemp: bool, files: seq<string>)
    ensures OutputName(joinName) !in Cleanup(keepTemp, Map(TempWav, files))
  {
    var out := OutputName(joinName);
    assert out[|out| - 1] == '3';
    forall x | x in Cleanup(keepTemp, Map(TempWav, files)) ensures x != out {
      if x in Map(TempWav, files) {
        var k :| 0 <= k < |files| && Map(TempWav, files)[k] == x;
        assert x[|x| - 1] == 'v';
      } else {
        assert x == ConcatWav() || x == ConcatListFile();
      }
    }
  }

  /** The index of the first failing decode, or the number of decodes when none fails. */
  function FirstFailing(fails: StepResult -> bool, decodes: seq<StepResult>): (k: nat)
    ensures k <= |decodes|
    ensures k < |decodes| ==> fails(decodes[k])
    ensures forall j | 0 <= j < k :: !fails(decodes[j])
    decreases |decodes|
  {
    if decodes == [] then 0
    else if fails(decodes[0]) then 0
    else
      var k := FirstFailing(fails, decodes[1..]);
      assert forall j | 1 <= j < k + 1 :: decodes[j] == decodes[1..][j - 1];
      k + 1
  }

  /** The percentages reported before decoding files `0 .. k - 1`. */
  function DecodeReports(k: nat, total: nat): (r: seq<int>)
    requires total > 0
  {
    if k == 0 then [] else DecodeReports(k - 1, total) + [Pct(k - 1, total)]
  }

  /** Report `i` of the decode loop is taken at step `i`. */
  lemma {:induction false} DecodeReportsAt(k: nat, total: nat)
    requires total > 0
    ensures |DecodeReports(k, total)| == k
    ensures forall i | 0 <= i < k :: DecodeReports(k, total)[i] == Pct(i, total)
  {
    if k > 0 {
      DecodeReportsAt(k - 1, total);
    }
  }

  /** The percentages reported: one before each decode attempted, then two more after the last decode. */
  function JoinProgress(n: nat, k: nat, reporting: bool): seq<int> {
    if !reporting then []
    else if k < n then DecodeReports(k + 1, TotalSteps(n))
    else DecodeReports(n, TotalSteps(n)) + [Pct(n, TotalSteps(n)), Pct(n, TotalSteps(n))]
  }

  /** The outcome, given the index `k` of the first failing decode. */
  function JoinResult(files: seq<string>, joinName: string, k: nat, concat: StepResult, encode: StepResult,
                      fails: StepResult -> bool): Result<string, JoinError>
  {
    if k < |files| then Err(TranscodeFailed(files[k]))
    else if fails(concat) then Err(ConcatFailed)
    else if fails(encode) then Err(EncodeFailed)
    else Ok(OutputName(joinName))
  }

  /**
   * The join as a value: the decodes run in order until one fails; when
   * none does, the list is written and the concat and encode runs follow.
   * `fails` is the test applied to each run's result.
   */
  function JoinPlan(files: seq<string>, joinName: string, keepTemp: bool, reporting: bool,
                    decodes: seq<StepResult>, concat: StepResult, encode: StepResult,
                    fails: StepResult -> bool): JoinRun
    requires |decodes| == |files|
  {
    var k := FirstFailing(fails, decodes);
    var tmp := Map(TempWav, files[..k]);
    JoinRun(JoinResult(files, joinName, k, concat, encode, fails), JoinProgress(|files|, k, reporting),
            tmp, if k < |files| then None else Some(ConcatList(tmp)), Cleanup(keepTemp, tmp))
  }

  /**
   * The decode loop: reports progress, decodes each input to its temporary
   * WAV and records it, and stops at the first failing run.
   */
  method DecodeLoop(files: seq<string>, decodes: seq<StepResult>, fails: StepResult -> bool, reporting: bool)
    returns (idx: nat, tmpWavs: seq<string>, progress: seq<int>)
    requires |decodes| == |files|
    ensures idx == FirstFailing(fails, decodes)
    ensures tmpWavs == Map(TempWav, files[..idx])
    ensures progress == if !reporting then [] else DecodeReports(if idx < |files| then idx + 1 else idx, TotalSteps(|files|))
  {
    var total := TotalSteps(|files|);
    var step := 0;
    tmpWavs := [];
    progress := [];
    idx := 0;
    while idx < |files|
      invariant idx <= |files| && step == idx
      invariant idx <= FirstFailing(fails, decodes)
      invariant tmpWavs == Map(TempWav, files[..idx])
      invariant progress == if reporting then DecodeReports(idx, total) else []
    {
      if reporting {
        DecodeReportsNext(step, total);
        progress := progress + [Pct(step, total)];
      }
      if fails(decodes[idx]) {
        return;
      }
      RecordWav(files, idx);
      tmpWavs := tmpWavs + [TempWav(files[idx])];
      step := step + 1;
      idx := idx + 1;
    }
  }

  /** One more report of the decode loop is the report at the current step. */
  lemma DecodeReportsNext(k: nat, total: nat)
    requires total > 0
    ensures DecodeReports(k + 1, total) == DecodeReports(k, total) + [Pct(k, total)]
  {
  }

  /** Recording the WAV of one more input extends the recorded list by its name. */
  lemma RecordWav(files: seq<string>, i: nat)
    requires i < |files|
    ensures Map(TempWav, files[..i + 1]) == Map(TempWav, files[..i]) + [TempWav(files[i])]
  {
    TakeOneMore(files, i);
    MapAppend(TempWav, files[..i], files[i]);
  }

  /** The `finally` block: each recorded WAV, then the two concat files, unless `keep_temp`. */
  method CleanupLoop(keepTemp: bool, tmpWavs: seq<string>) returns (removed: seq<string>)
    ensures removed == Cleanup(keepTemp, tmpWavs)
  {
    removed := [];
    if !keepTemp {
      for i := 0 to |tmpWavs|
        invariant removed == tmpWavs[..i]
      {
        TakeOneMore(tmpWavs, i);
        removed := removed + [tmpWavs[i]];
      }
      TakeAll(tmpWavs);
      removed := removed + [ConcatWav(), ConcatListFile()];
    }
  }

  /**
   * `join_via_wav_then_lame` run step by step: the decode loop, then the
   * concat list, the concat and encode runs, and the cleanup that
   * `finally` performs on every exit path. `files` is already in join
   * order (a shuffle is the caller's permutation).
   */
  method JoinViaWavThenLame(files: seq<string>, joinName: string, keepTemp: bool, reporting: bool,
                            decodes: seq<StepResult>, concat: StepResult, encode: StepResult,
                            fails: StepResult -> bool)
    returns (run: JoinRun)
    requires |decodes| == |files|
    ensures run == JoinPlan(files, joinName, keepTemp, reporting, decodes, concat, encode, fails)
  {
    var idx, tmpWavs, progress := DecodeLoop(files, decodes, fails, reporting);
    var result: Result<string, JoinError>;
    var listText: Option<string> := None;
    if idx < |files| {
      result := Err(TranscodeFailed(files[idx]));
    } else {
      progress := ConcatAndEncodeReports(progress, |files|, reporting);
      listText := Some(ConcatList(tmpWavs));
      result := ConcatAndEncode(joinName, concat, encode, fails);
    }
    var removed := CleanupLoop(keepTemp, tmpWavs);
    run := JoinRun(result, progress, tmpWavs, listText, removed);
  }

  /** The two reports made after the last decode, both at step `len(files)`. */
  method ConcatAndEncodeReports(progress: seq<int>, n: nat, reporting: bool) returns (p: seq<int>)
    ensures p == if reporting then progress + [Pct(n, TotalSteps(n)), Pct(n, TotalSteps(n))] else progress
  {
    p := progress;
    if reporting {
      var pct := Pct(n, TotalSteps(n));
      p := p + [pct];
      p := p + [pct];
    }
  }

  /** The concat run, then the encode run, each checked with `fails`. */
  method ConcatAndEncode(joinName: string, concat: StepResult, encode: StepResult, fails: StepResult -> bool)
    returns (result: Result<string, JoinError>)
    ensures result == if fails(concat) then Err(ConcatFailed) else if fails(encode) then Err(EncodeFailed)
      else Ok(OutputName(joinName))
  {
    if fails(concat) {
      result := Err(ConcatFailed);
    } else if fails(encode) {
      result := Err(EncodeFailed);
    } else {
      result := Ok(OutputName(joinName));
    }
  }

  lemma MapAppend<T, U>(f: T -> U, xs: seq<T>, x: T)
    ensures Map(f, xs + [x]) == Map(f, xs) + [f(x)]
  {
    assert |Map(f, xs + [x])| == |Map(f, xs) + [f(x)]|;
    forall k | 0 <= k < |xs| + 1 ensures Map(f, xs + [x])[k] == (Map(f, xs) + [f(x)])[k] {
      if k < |xs| { assert (xs + [x])[k] == xs[k]; }
    }
  }

  /** The index the loop stopped at is the first failing decode. */
  lemma FirstFailingIs(fails: StepResult -> bool, decodes: seq<StepResult>, k: nat)
    requires k <= |decodes|
    requires k < |decodes| ==> fails(decodes[k])
    requires forall j | 0 <= j < k :: !fails(decodes[j])
    ensures FirstFailing(fails, decodes) == k
  {
  }

  // ---------------------------------------------------------------------
  // What a join promises
  // ---------------------------------------------------------------------

  /**
   * Every reported percentage lies in `[0, 100)`, and the reports never
   * decrease.
   */
  lemma ProgressBounded(files: seq<string>, joinName: string, keepTemp: bool, reporting: bool,
                        decodes: seq<StepResult>, concat: StepResult, encode: StepResult,
                        fails: StepResult -> bool)
    requires |decodes| == |files|
    ensures var p := JoinPlan(files, joinName, keepTemp, reporting, decodes, concat, encode, fails).progress;
      && (forall i | 0 <= i < |p| :: 0 <= p[i] < 100)
      && (forall i, j | 0 <= i <= j < |p| :: p[i] <= p[j])
  {
    var n := |files|;
    var p := JoinProgress(n, FirstFailing(fails, decodes), reporting);
    ProgressSteps(n, FirstFailing(fails, decodes), reporting);
    forall i | 0 <= i < |p| ensures 0 <= p[i] < 100 {
      PctBelowHundred(Min(i, n), n);
    }
    forall i, j | 0 <= i <= j < |p| ensures p[i] <= p[j] {
      PctMonotone(Min(i, n), Min(j, n), TotalSteps(n));
    }
  }

  function Min(a: int, b: int): int {
    if a <= b then a else b
  }

  /** Report `i` is taken at step `min(i, n)`. */
  lemma ProgressSteps(n: nat, k: nat, reporting: bool)
    requires k <= n
    ensures var p := JoinProgress(n, k, reporting);
      forall i | 0 <= i < |p| :: Min(i, n) >= 0 && p[i] == Pct(Min(i, n), TotalSteps(n))
  {
    DecodeReportsAt(k + 1, TotalSteps(n));
    DecodeReportsAt(n, TotalSteps(n));
  }

  /**
   * With the intended test, a join succeeds exactly when every run exits
   * with 0, and then it returns `<join_name or "joined">.mp3` and has
   * recorded one temporary WAV per input, named after it, in order.
   */
  lemma JoinSucceedsIff(files: seq<string>, joinName: string, keepTemp: bool, reporting: bool,
                        decodes: seq<StepResult>, concat: StepResult, encode: StepResult)
    requires |decodes| == |files|
    ensures var run := JoinPlan(files, joinName, keepTemp, reporting, decodes, concat, encode, StepFails);
      && (run.result.Ok? <==> (forall i | 0 <= i < |decodes| :: decodes[i].0 == 0) && concat.0 == 0 && encode.0 == 0)
      && (run.result.Ok? ==> (run.result.value == OutputName(joinName)
            && run.tempWavs == Map(TempWav, files)))
  {
    var k := FirstFailing(StepFails, decodes);
    assert k == |files| ==> files[..k] == files;
  }

  /**
   * A failed decode names the first input whose run failed; the WAVs
   * recorded are exactly those of the inputs before it, and no list is
   * written.
   */
  lemma JoinStopsAtFirstFailure(files: seq<string>, joinName: string, keepTemp: bool, reporting: bool,
                                decodes: seq<StepResult>, concat: StepResult, encode: StepResult,
                                fails: StepResult -> bool)
    requires |decodes| == |files|
    ensures var run := JoinPlan(files, joinName, keepTemp, reporting, decodes, concat, encode, fails);
      run.result.Err? && run.result.error.TranscodeFailed? ==>
        exists k | 0 <= k < |files| :: (run.result.error.name == files[k] && fails(decodes[k])
          && (forall j | 0 <= j < k :: !fails(decodes[j]))
          && run.tempWavs == Map(TempWav, files[..k]) && run.listText.None?)
  {
  }

  /**
   * Unless `keep_temp` is set, cleanup removes every WAV recorded so far
   * and both concat files, whatever the outcome; with it, nothing.
   */
  lemma CleanupOnEveryPath(files: seq<string>, joinName: string, keepTemp: bool, reporting: bool,
                           decodes: seq<StepResult>, concat: StepResult, encode: StepResult,
                           fails: StepResult -> bool)
    requires |decodes| == |files|
    ensures var run := JoinPlan(files, joinName, keepTemp, reporting, decodes, concat, encode, fails);
      && (keepTemp ==> run.removed == [])
      && (!keepTemp ==> ((forall w | w in run.tempWavs :: w in run.removed)
            && ConcatWav() in run.removed && ConcatListFile() in run.removed))
  {
  }

  /** The concat list reads back as one `file '<wav>'` line per recorded WAV, in order. */
  lemma {:induction false} ListNamesEachWav(wavs: seq<string>)
    requires wavs != [] && forall k | 0 <= k < |wavs| :: NoLineBreak(wavs[k])
    ensures SplitLines(ConcatList(wavs)) == Map(ListLine, wavs)
  {
    var lines := Map(ListLine, wavs);
    forall k | 0 <= k < |lines| ensures NoLineBreak(lines[k]) {
      ListLineNoBreak(wavs[k]);
    }
    var last := wavs[|wavs| - 1];
    assert lines[|lines| - 1] == ListLine(last);
    assert ListLine(last) != "";
    SplitLinesOfJoined(lines);
  }

  lemma ListLineNoBreak(wav: string)
    requires NoLineBreak(wav)
    ensures NoLineBreak(ListLine(wav))
  {
    NoLineBreakAppend("file '", wav);
    NoLineBreakAppend("file '" + wav, "'");
  }

  /**
   * As written every join fails: the first decode's result is a pair, so
   * the transcode check always raises before any WAV is recorded; with no
   * input at all the concat check raises instead.
   */
  lemma JoinAsWrittenAlwaysFails(files: seq<string>, joinName: string, keepTemp: bool, reporting: bool,
                                 decodes: seq<StepResult>, concat: StepResult, encode: StepResult)
    requires |decodes| == |files|
    ensures var run := JoinPlan(files, joinName, keepTemp, reporting, decodes, concat, encode, StepFailsAsWritten);
      && run.result.Err?
      && run.tempWavs == []
      && (files != [] ==> run.result == Err(TranscodeFailed(files[0])))
      && (files == [] ==> run.result == Err(ConcatFailed))
  {
    assert files[..0] == [];
  }

  /** A successful run of the intended join exists for every input list: the finding is not vacuous. */
  lemma IntendedJoinCanSucceed(files: seq<string>, joinName: string)
    ensures JoinPlan(files, joinName, false, true, seq(|files|, i => (0, "")), (0, ""), (0, ""), StepFails).result
      == Ok(OutputName(joinName))
  {
    var decodes := seq(|files|, i => (0, ""));
    assert FirstFailing(StepFails, decodes) == |files| by {
      FirstFailingIs(StepFails, decodes, |files|);
    }
  }
}
