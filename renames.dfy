/**
 * The two renaming passes over the downloaded files: removing a repeated
 * artist from a name, and giving every file a sanitized name that collides
 * with nothing. The files live in one directory, modelled as the set of
 * names it holds; whether the operating system carries out a rename is an
 * oracle.
 */
module Renames {
  import opened Wrappers
  import opened Strings
  import opened Paths
  import opened Filenames

  /** Whether renaming the first name to the second succeeds, when the first exists. */
  type RenameOracle = (string, string) -> bool

  /** A rename succeeds only when its source exists and the oracle allows it. */
  predicate Moves(dir: set<string>, ok: RenameOracle, from: string, to: string) {
    from in dir && ok(from, to)
  }

  /** The directory after a rename. */
  function Moved(dir: set<string>, from: string, to: string): set<string> {
    dir - {from} + {to}
  }

  /** Moving an existing name to a name that does not exist keeps the number of files. */
  lemma MovedSize(dir: set<string>, from: string, to: string)
    requires from in dir && to !in dir
    ensures |Moved(dir, from, to)| == |dir|
    ensures from !in Moved(dir, from, to) && to in Moved(dir, from, to)
  {
  }

  /** The output names of a pass and the directory after it. */
  datatype Pass = Pass(out: seq<string>, dir: set<string>)

  // ---------------------------------------------------------------------
  // _dedup_artist_in_filenames

  /** `p.with_name(new_stem + p.suffix)` when the stem matches the pattern. */
  function DedupTarget(name: string): Option<string> {
    match MatchDedup(Stem(name))
    case None => None
    case Some(m) => Some(DedupStem(m) + Suffix(name))
  }

  /**
   * Whether the loop renames `p`: it matches, its target does not exist,
   * and the replace succeeds. The loop is stated for any `target`; the
   * source's is `DedupTarget`.
   */
  predicate DedupRenames(dir: set<string>, ok: RenameOracle, target: string -> Option<string>, p: string) {
    var t := target(p);
    t.Some? && t.value !in dir && Moves(dir, ok, p, t.value)
  }

  /** One pass of the loop body: the path appended to `out`. */
  function DedupName(dir: set<string>, ok: RenameOracle, target: string -> Option<string>, p: string): string {
    if DedupRenames(dir, ok, target, p) then target(p).value else p
  }

  /** The directory after one pass of the loop body. */
  function DedupDir(dir: set<string>, ok: RenameOracle, target: string -> Option<string>, p: string): set<string> {
    if DedupRenames(dir, ok, target, p) then Moved(dir, p, target(p).value) else dir
  }

  /** The whole loop over `files`, one file after the other. */
  function DedupAll(dir: set<string>, ok: RenameOracle, target: string -> Option<string>, files: seq<string>): Pass
    decreases |files|
  {
    if files == [] then Pass([], dir)
    else
      var before := DedupAll(dir, ok, target, files[..|files| - 1]);
      var p := files[|files| - 1];
      Pass(before.out + [DedupName(before.dir, ok, target, p)], DedupDir(before.dir, ok, target, p))
  }

  /**
   * `_dedup_artist_in_filenames`: each matching file whose target does not
   * exist is replaced by its target; every other file, and every file whose
   * replace fails, is kept as it is.
   */
  method DedupArtistInFilenames(files: seq<string>, dir: set<string>, ok: RenameOracle)
    returns (out: seq<string>, after: set<string>)
    ensures Pass(out, after) == DedupAll(dir, ok, DedupTarget, files)
  {
    out, after := DedupLoop(files, dir, ok, DedupTarget);
  }

  /** The loop itself, for any way of naming a file's target. */
  method DedupLoop(files: seq<string>, dir: set<string>, ok: RenameOracle, target: string -> Option<string>)
    returns (out: seq<string>, after: set<string>)
    ensures Pass(out, after) == DedupAll(dir, ok, target, files)
  {
    out := [];
    after := dir;
    for i := 0 to |files|
      invariant Pass(out, after) == DedupAll(dir, ok, target, files[..i])
    {
      assert files[..i + 1][..i] == files[..i];
      var p := files[i];
      var t := target(p);
      if t.Some? && t.value !in after && Moves(after, ok, p, t.value) {
        after := Moved(after, p, t.value);
        out := out + [t.value];
      } else {
        out := out + [p];
      }
    }
    assert files[..|files|] == files;
  }

  /**
   * A file is renamed only to its target, only when the target does not
   * exist and the file does, and then the directory holds the target
   * instead of the file; whenever those conditions hold, the file is renamed.
   */
  lemma DedupOneSpec(dir: set<string>, ok: RenameOracle, target: string -> Option<string>, p: string)
    ensures var o := DedupName(dir, ok, target, p);
      && (o == p || (target(p) == Some(o) && o !in dir && p in dir && ok(p, o)))
      && (o == p ==> DedupDir(dir, ok, target, p) == dir)
      && (o != p ==> DedupDir(dir, ok, target, p) == Moved(dir, p, o))
      && (DedupRenames(dir, ok, target, p) ==> o == target(p).value)
      && |DedupDir(dir, ok, target, p)| == |dir|
      && (p in dir ==> o in DedupDir(dir, ok, target, p))
  {
    if DedupRenames(dir, ok, target, p) {
      MovedSize(dir, p, target(p).value);
    }
  }

  /**
   * The output has one path per input, in order: each the input itself or
   * its de-duplicated target; no file is lost or overwritten.
   */
  lemma {:induction false} DedupAllShape(dir: set<string>, ok: RenameOracle, target: string -> Option<string>, files: seq<string>)
    ensures |DedupAll(dir, ok, target, files).out| == |files|
    ensures forall i | 0 <= i < |files| ::
      DedupAll(dir, ok, target, files).out[i] == files[i] || target(files[i]) == Some(DedupAll(dir, ok, target, files).out[i])
    ensures |DedupAll(dir, ok, target, files).dir| == |dir|
    decreases |files|
  {
    if files != [] {
      var init := files[..|files| - 1];
      DedupAllShape(dir, ok, target, init);
      var before := DedupAll(dir, ok, target, init);
      DedupOneSpec(before.dir, ok, target, files[|files| - 1]);
      forall i | 0 <= i < |files| - 1
        ensures DedupAll(dir, ok, target, files).out[i] == before.out[i] && files[i] == init[i]
      {
      }
    }
  }

  /** `A - a - rest.ext`, `a` being `A` in any case, is renamed to `A - rest.ext` when that name is free. */
  lemma DedupTargetPlain(name: string, a: string, a2: string, rest: string)
    requires Stem(name) == a + " - " + a2 + " - " + rest
    requires a != "" && '-' !in a && !IsDigit(a[0]) && SameIgnoringCase(a2, a) && rest != "" && '\n' !in rest
    ensures DedupTarget(name) == Some(Trim(a) + " - " + Trim(rest) + Suffix(name))
  {
    DedupPlain(a, a2, rest);
    UnnumberedStem(a, rest);
  }

  /** `NN - A - a - rest.ext` is renamed to `NN - A - rest.ext` when that name is free. */
  lemma DedupTargetNumbered(name: string, n: string, a: string, a2: string, rest: string)
    requires Stem(name) == n + " - " + a + " - " + a2 + " - " + rest
    requires IsDigits(n)
    requires a != "" && '-' !in a && !IsSpace(a[0]) && SameIgnoringCase(a2, a) && rest != "" && '\n' !in rest
    ensures DedupTarget(name) == Some(n + " - " + Trim(a) + " - " + Trim(rest) + Suffix(name))
  {
    DedupNumbered(n, a, a2, rest);
  }

  // ---------------------------------------------------------------------
  // _sanitize_and_rename

  /** The collision probes: `base + suffix`, then `base_1 + suffix`, `base_2 + suffix`, ... */
  function Probe(base: string, suffix: string, i: nat): string {
    if i == 0 then base + suffix else base + "_" + NatToString(i) + suffix
  }

  /** Different probes are different names. */
  lemma ProbeInjective(base: string, suffix: string, i: nat, j: nat)
    ensures i != j ==> Probe(base, suffix, i) != Probe(base, suffix, j)
  {
    var x, y := Probe(base, suffix, i), Probe(base, suffix, j);
    if i != j && i != 0 && j != 0 && |x| == |y| {
      var b := |base| + 1;
      assert x[b..b + |NatToString(i)|] == NatToString(i);
      assert y[b..b + |NatToString(j)|] == NatToString(j);
      NatToStringInjective(i, j);
    }
  }

  /** The probes before the `k`-th. */
  function Probed(base: string, suffix: string, k: nat): set<string> {
    set i | 0 <= i < k :: Probe(base, suffix, i)
  }

  lemma ProbedStep(base: string, suffix: string, k: nat)
    ensures Probed(base, suffix, k + 1) == Probed(base, suffix, k) + {Probe(base, suffix, k)}
    ensures Probe(base, suffix, k) !in Probed(base, suffix, k)
  {
    forall i | 0 <= i < k ensures Probe(base, suffix, i) != Probe(base, suffix, k) {
      ProbeInjective(base, suffix, i, k);
    }
  }

  /** A probe the loop must pass over: an existing name, other than `keep`. */
  predicate Taken(dir: set<string>, keep: Option<string>, x: string) {
    x in dir && keep != Some(x)
  }

  /**
   * The first probe from the `k`-th on that is not taken. The directory is
   * finite and the probes are distinct, so one is reached.
   */
  function FirstFree(dir: set<string>, base: string, suffix: string, keep: Option<string>, k: nat): (r: nat)
    ensures r >= k && !Taken(dir, keep, Probe(base, suffix, r))
    ensures forall i | k <= i < r :: Taken(dir, keep, Probe(base, suffix, i))
    decreases dir - Probed(base, suffix, k)
  {
    if !Taken(dir, keep, Probe(base, suffix, k)) then k
    else
      ProbedStep(base, suffix, k);
      FirstFree(dir, base, suffix, keep, k + 1)
  }

  /** The directory and the names given out so far (`seen`). */
  datatype RunState = RunState(dir: set<string>, seen: set<string>)

  /**
   * The name probing settles on: the first probe of the sanitized stem that
   * does not exist or is `p` itself. The pass is stated for any `sanitize`;
   * the source's is `Sanitize`.
   */
  function Candidate(dir: set<string>, sanitize: string -> string, p: string): string {
    var san := sanitize(Stem(p));
    Probe(san, Suffix(p), FirstFree(dir, san, Suffix(p), Some(p), 0))
  }

  /** Whether `p` is renamed to its candidate. */
  predicate FirstRenames(dir: set<string>, ok: RenameOracle, sanitize: string -> string, p: string) {
    Candidate(dir, sanitize, p) != p && Moves(dir, ok, p, Candidate(dir, sanitize, p))
  }

  /** The path after the first rename: the candidate, or `p` when the rename fails or is not needed. */
  function AfterFirst(dir: set<string>, ok: RenameOracle, sanitize: string -> string, p: string): string {
    if FirstRenames(dir, ok, sanitize, p) then Candidate(dir, sanitize, p) else p
  }

  function DirAfterFirst(dir: set<string>, ok: RenameOracle, sanitize: string -> string, p: string): set<string> {
    if FirstRenames(dir, ok, sanitize, p) then Moved(dir, p, Candidate(dir, sanitize, p)) else dir
  }

  /** `<stem>_<j><suffix>` for the first `j >= 1` whose name does not exist. */
  function DuplicateAlt(dir: set<string>, cand: string): string {
    Probe(Stem(cand), Suffix(cand), FirstFree(dir, Stem(cand), Suffix(cand), None, 1))
  }

  /** Whether a name already given out is moved on to its alternative. */
  predicate Adjusts(st: RunState, ok: RenameOracle, cand: string) {
    cand in st.seen && Moves(st.dir, ok, cand, DuplicateAlt(st.dir, cand))
  }

  /** The path appended to `out` for `cand`, after the duplicate check. */
  function Adjusted(st: RunState, ok: RenameOracle, cand: string): string {
    if Adjusts(st, ok, cand) then DuplicateAlt(st.dir, cand) else cand
  }

  function DirAdjusted(st: RunState, ok: RenameOracle, cand: string): set<string> {
    if Adjusts(st, ok, cand) then Moved(st.dir, cand, DuplicateAlt(st.dir, cand)) else st.dir
  }

  /** One pass of the loop body: the path it appends. */
  function SanitizedName(st: RunState, ok: RenameOracle, sanitize: string -> string, p: string): string {
    var cand := AfterFirst(st.dir, ok, sanitize, p);
    Adjusted(RunState(DirAfterFirst(st.dir, ok, sanitize, p), st.seen), ok, cand)
  }

  /** One pass of the loop body: the state after it. */
  function SanitizedState(st: RunState, ok: RenameOracle, sanitize: string -> string, p: string): RunState {
    var cand := AfterFirst(st.dir, ok, sanitize, p);
    var mid := RunState(DirAfterFirst(st.dir, ok, sanitize, p), st.seen);
    RunState(DirAdjusted(mid, ok, cand), st.seen + {Adjusted(mid, ok, cand)})
  }

  /** The outputs so far and the state after them. */
  datatype Run = Run(out: seq<string>, state: RunState)

  /** The whole loop over `files`, starting from `dir` with nothing seen. */
  function SanitizeAll(dir: set<string>, ok: RenameOracle, sanitize: string -> string, files: seq<string>): Run
    decreases |files|
  {
    if files == [] then Run([], RunState(dir, {}))
    else
      var before := SanitizeAll(dir, ok, sanitize, files[..|files| - 1]);
      var p := files[|files| - 1];
      Run(before.out + [SanitizedName(before.state, ok, sanitize, p)], SanitizedState(before.state, ok, sanitize, p))
  }

  /**
   * `_sanitize_and_rename`: for each file, probe `san`, `san_1`, ... for a
   * name that does not exist (or is the file itself) and rename to it;
   * then, if that name was already given out, probe `<stem>_1`, ... and
   * rename again.
   */
  method SanitizeAndRename(files: seq<string>, dir: set<string>, ok: RenameOracle)
    returns (out: seq<string>, after: set<string>)
    ensures Pass(out, after) == Pass(SanitizeAll(dir, ok, Sanitize, files).out, SanitizeAll(dir, ok, Sanitize, files).state.dir)
  {
    out := [];
    after := dir;
    var seen: set<string> := {};
    for k := 0 to |files|
      invariant Run(out, RunState(after, seen)) == SanitizeAll(dir, ok, Sanitize, files[..k])
    {
      assert files[..k + 1][..k] == files[..k];
      var p := files[k];
      var cand := FirstProbe(after, p);
      if cand != p {
        if Moves(after, ok, p, cand) {
          after := Moved(after, p, cand);
        } else {
          cand := p;
        }
      }
      if cand in seen {
        var alt := AltProbe(after, cand);
        if Moves(after, ok, cand, alt) {
          after := Moved(after, cand, alt);
          cand := alt;
        }
      }
      seen := seen + {cand};
      out := out + [cand];
    }
    assert files[..|files|] == files;
  }

  /** The first collision loop: `san`, `san_1`, ... until a name does not exist or is `p` itself. */
  method FirstProbe(dir: set<string>, p: string) returns (cand: string)
    ensures cand == Candidate(dir, Sanitize, p)
  {
    var san := Sanitize(Stem(p));
    cand := san + Suffix(p);
    var i := 1;
    while cand in dir && cand != p
      invariant i >= 1 && cand == Probe(san, Suffix(p), i - 1)
      invariant FirstFree(dir, san, Suffix(p), Some(p), i - 1) == FirstFree(dir, san, Suffix(p), Some(p), 0)
      decreases dir - Probed(san, Suffix(p), i - 1)
    {
      ProbedStep(san, Suffix(p), i - 1);
      cand := san + "_" + NatToString(i) + Suffix(p);
      i := i + 1;
    }
  }

  /** The duplicate loop: `<stem>_1`, `<stem>_2`, ... until a name does not exist. */
  method AltProbe(dir: set<string>, cand: string) returns (alt: string)
    ensures alt == DuplicateAlt(dir, cand)
  {
    var j := 1;
    alt := Stem(cand) + "_" + NatToString(j) + Suffix(cand);
    while alt in dir
      invariant j >= 1 && alt == Probe(Stem(cand), Suffix(cand), j)
      invariant FirstFree(dir, Stem(cand), Suffix(cand), None, j) == FirstFree(dir, Stem(cand), Suffix(cand), None, 1)
      decreases dir - Probed(Stem(cand), Suffix(cand), j)
    {
      ProbedStep(Stem(cand), Suffix(cand), j);
      j := j + 1;
      alt := Stem(cand) + "_" + NatToString(j) + Suffix(cand);
    }
  }

  /**
   * The candidate is the `i`-th probe of the sanitized stem for the first
   * `i` whose name does not exist or is the file itself: it is never an
   * existing file other than `p`, and it starts with the sanitized stem.
   */
  lemma CandidateSpec(dir: set<string>, sanitize: string -> string, p: string)
    ensures var san := sanitize(Stem(p));
      var i := FirstFree(dir, san, Suffix(p), Some(p), 0);
      var c := Candidate(dir, sanitize, p);
      && c == Probe(san, Suffix(p), i)
      && (c == p || c !in dir)
      && (forall j | 0 <= j < i :: Probe(san, Suffix(p), j) in dir && Probe(san, Suffix(p), j) != p)
      && |san| <= |c| && c[..|san|] == san
  {
    var san := sanitize(Stem(p));
    var i := FirstFree(dir, san, Suffix(p), Some(p), 0);
    var c := Candidate(dir, sanitize, p);
    if i == 0 {
      assert c == san + Suffix(p);
    } else {
      assert c == san + ("_" + NatToString(i) + Suffix(p));
    }
  }

  /** With the source's sanitizer, the candidate starts with a name that passes every sanitizer check. */
  lemma CandidateSanitized(dir: set<string>, p: string)
    ensures var san := Sanitize(Stem(p));
      IsSanitized(san) && |san| <= |Candidate(dir, Sanitize, p)| && Candidate(dir, Sanitize, p)[..|san|] == san
  {
    CandidateSpec(dir, Sanitize, p);
    SanitizeShape(Stem(p));
  }

  /** The alternative for a duplicate is `<stem>_<j><suffix>` for some `j >= 1`, and it does not exist. */
  lemma DuplicateAltSpec(dir: set<string>, cand: string)
    ensures var j := FirstFree(dir, Stem(cand), Suffix(cand), None, 1);
      && j >= 1
      && DuplicateAlt(dir, cand) == Stem(cand) + "_" + NatToString(j) + Suffix(cand)
      && DuplicateAlt(dir, cand) !in dir
  {
  }

  /**
   * One file of `_sanitize_and_rename`: its name is added to `seen`; a
   * failed rename keeps the original path; a name not given out before is
   * kept as it is after the first rename; a name already given out is moved
   * on to a `_<j>` alternative that did not exist, or kept when that rename
   * fails. No file is lost or overwritten, and an existing file ends under
   * the name returned for it.
   */
  lemma SanitizedStep(st: RunState, ok: RenameOracle, sanitize: string -> string, p: string)
    ensures var name := SanitizedName(st, ok, sanitize, p);
      var after := SanitizedState(st, ok, sanitize, p);
      var cand := AfterFirst(st.dir, ok, sanitize, p);
      var c := Candidate(st.dir, sanitize, p);
      && after.seen == st.seen + {name}
      && (cand == c || cand == p)
      && (c != p && !Moves(st.dir, ok, p, c) ==> cand == p)
      && (cand !in st.seen ==> name == cand)
      && (cand in st.seen && name != cand ==>
            exists j: nat | j >= 1 :: name == Stem(cand) + "_" + NatToString(j) + Suffix(cand))
      && |after.dir| == |st.dir|
      && (p in st.dir ==> name in after.dir)
  {
    var mid := RunState(DirAfterFirst(st.dir, ok, sanitize, p), st.seen);
    FirstStep(st.dir, ok, sanitize, p);
    AdjustStep(mid, ok, AfterFirst(st.dir, ok, sanitize, p));
  }

  /** The first rename: to the candidate, or nothing; it keeps the number of files and the file's presence. */
  lemma FirstStep(dir: set<string>, ok: RenameOracle, sanitize: string -> string, p: string)
    ensures var cand := AfterFirst(dir, ok, sanitize, p);
      var c := Candidate(dir, sanitize, p);
      && (cand == c || cand == p)
      && (c != p && !Moves(dir, ok, p, c) ==> cand == p)
      && |DirAfterFirst(dir, ok, sanitize, p)| == |dir|
      && (p in dir ==> cand in DirAfterFirst(dir, ok, sanitize, p))
  {
    if FirstRenames(dir, ok, sanitize, p) {
      CandidateSpec(dir, sanitize, p);
      MovedSize(dir, p, Candidate(dir, sanitize, p));
    }
  }

  /** The duplicate adjustment: only a name given out before moves, and only to a `_<j>` name that did not exist. */
  lemma AdjustStep(mid: RunState, ok: RenameOracle, cand: string)
    ensures var name := Adjusted(mid, ok, cand);
      && (cand !in mid.seen ==> name == cand)
      && (name != cand ==>
            && cand in mid.seen && name !in mid.dir
            && exists j: nat | j >= 1 :: name == Stem(cand) + "_" + NatToString(j) + Suffix(cand))
      && |DirAdjusted(mid, ok, cand)| == |mid.dir|
      && (cand in mid.dir ==> name in DirAdjusted(mid, ok, cand))
  {
    if Adjusts(mid, ok, cand) {
      DuplicateAltSpec(mid.dir, cand);
      MovedSize(mid.dir, cand, DuplicateAlt(mid.dir, cand));
    }
  }

  /** The names given out: every element of `out`. */
  function Given(out: seq<string>): set<string> {
    set i | 0 <= i < |out| :: out[i]
  }

  lemma GivenAppend(out: seq<string>, x: string)
    ensures Given(out + [x]) == Given(out) + {x}
  {
    var o := out + [x];
    forall y | y in Given(o) ensures y in Given(out) + {x} {
      var i :| 0 <= i < |o| && o[i] == y;
      if i < |out| {
        assert y == out[i];
      }
    }
    forall y | y in Given(out) ensures y in Given(o) {
      var i :| 0 <= i < |out| && out[i] == y;
      assert o[i] == y;
    }
    assert o[|out|] == x;
  }

  /**
   * The output has one path per input, in order; `seen` holds exactly the
   * names returned; no file is lost or overwritten.
   */
  lemma {:induction false} SanitizeAllShape(dir: set<string>, ok: RenameOracle, sanitize: string -> string, files: seq<string>)
    ensures |SanitizeAll(dir, ok, sanitize, files).out| == |files|
    ensures SanitizeAll(dir, ok, sanitize, files).state.seen == Given(SanitizeAll(dir, ok, sanitize, files).out)
    ensures |SanitizeAll(dir, ok, sanitize, files).state.dir| == |dir|
    decreases |files|
  {
    if files != [] {
      var init := files[..|files| - 1];
      SanitizeAllShape(dir, ok, sanitize, init);
      var before := SanitizeAll(dir, ok, sanitize, init);
      var p := files[|files| - 1];
      SanitizedStep(before.state, ok, sanitize, p);
      GivenAppend(before.out, SanitizedName(before.state, ok, sanitize, p));
    }
  }

  /** The `k`-th output is one step from the state the first `k` files left. */
  lemma {:induction false} SanitizeAllAt(dir: set<string>, ok: RenameOracle, sanitize: string -> string, files: seq<string>, k: nat)
    requires k < |files|
    ensures k < |SanitizeAll(dir, ok, sanitize, files).out|
    ensures SanitizeAll(dir, ok, sanitize, files).out[k] ==
      SanitizedName(SanitizeAll(dir, ok, sanitize, files[..k]).state, ok, sanitize, files[k])
    decreases |files|
  {
    TakeTake(files, |files| - 1, k);
    SanitizeAllLast(dir, ok, sanitize, files, k);
    if k < |files| - 1 {
      SanitizeAllAt(dir, ok, sanitize, files[..|files| - 1], k);
    }
  }

  /** The last file's output follows the outputs of the files before it. */
  lemma SanitizeAllLast(dir: set<string>, ok: RenameOracle, sanitize: string -> string, files: seq<string>, k: nat)
    requires k < |files|
    ensures var before := SanitizeAll(dir, ok, sanitize, files[..|files| - 1]);
      var out := SanitizeAll(dir, ok, sanitize, files).out;
      && |before.out| == |files| - 1 && |out| == |files|
      && (k < |files| - 1 ==> out[k] == before.out[k])
      && (k == |files| - 1 ==> out[k] == SanitizedName(before.state, ok, sanitize, files[k]))
  {
    SanitizeAllShape(dir, ok, sanitize, files[..|files| - 1]);
  }

  /** A prefix of a prefix is a prefix. */
  lemma TakeTake<T>(s: seq<T>, n: nat, k: nat)
    requires k <= n <= |s|
    ensures s[..n][..k] == s[..k]
  {
  }
}
