/**
 * Locating external programs (ffmpeg, ffprobe, mp3gain, yt-dlp): the PATH
 * lookup first, then a fixed, platform-dependent list of install locations.
 * The process environment, `shutil.which` and the file system's `exists`
 * are parameters.
 */
module Tools {
  import opened Wrappers
  import opened Strings
  import opened Paths

  /** The two platform tests the lookup makes: `os.name == "nt"` and `sys.platform == "darwin"`. */
  datatype Platform = Platform(windows: bool, darwin: bool)

  /** `os.environ.get(key, default)`. */
  function EnvGet(env: map<string, string>, key: string, default: string): (r: string)
    ensures key in env ==> r == env[key]
    ensures key !in env ==> r == default
  {
    if key in env then env[key] else default
  }

  /**
   * `os.path.join(path, part)`: an absolute part replaces what came before;
   * otherwise the separator is inserted unless `path` is empty or already
   * ends in one.
   */
  function JoinOne(windows: bool, path: string, part: string): string {
    if |part| > 0 && IsPathSep(windows, part[0]) then part
    else if |path| == 0 || IsPathSep(windows, path[|path| - 1]) then path + part
    else path + [if windows then '\\' else '/'] + part
  }

  /** An absolute part wins; a relative one is appended after exactly one separator. */
  lemma JoinOneRule(windows: bool, path: string, part: string)
    ensures |part| > 0 && IsPathSep(windows, part[0]) ==> JoinOne(windows, path, part) == part
    ensures (|part| == 0 || !IsPathSep(windows, part[0])) && |path| > 0 && IsPathSep(windows, path[|path| - 1]) ==>
      JoinOne(windows, path, part) == path + part
    ensures (|part| == 0 || !IsPathSep(windows, part[0])) && |path| > 0 && !IsPathSep(windows, path[|path| - 1]) ==>
      JoinOne(windows, path, part) == path + [if windows then '\\' else '/'] + part
  {
  }

  /** `os.path.join(base, *parts)`, folded from the left. */
  function JoinPath(windows: bool, base: string, parts: seq<string>): string
    decreases |parts|
  {
    if parts == [] then base
    else JoinPath(windows, JoinOne(windows, base, parts[0]), parts[1..])
  }

  /** The `<exe>.exe` file name the Windows locations look for. */
  function ExeName(exe: string): string {
    exe + ".exe"
  }

  /** `%LOCALAPPDATA%\Microsoft\WinGet\Links\<exe>.exe`. */
  function WinGetShim(local: string, exe: string): string {
    JoinPath(true, local, ["Microsoft", "WinGet", "Links", ExeName(exe)])
  }

  /** `%ProgramData%\chocolatey\bin\<exe>.exe`. */
  function ChocolateyShim(programData: string, exe: string): string {
    JoinPath(true, programData, ["chocolatey", "bin", ExeName(exe)])
  }

  /** `%USERPROFILE%\scoop\shims\<exe>.exe`. */
  function ScoopShim(userprofile: string, exe: string): string {
    JoinPath(true, userprofile, ["scoop", "shims", ExeName(exe)])
  }

  /** `<base>\MP3Gain\mp3gain.exe`. */
  function Mp3GainInstall(base: string): string {
    JoinPath(true, base, ["MP3Gain", "mp3gain.exe"])
  }

  /** `<base>\FFmpeg\bin\<exe>.exe`. */
  function FfmpegInstall(base: string, exe: string): string {
    JoinPath(true, base, ["FFmpeg", "bin", ExeName(exe)])
  }

  /** The environment variables the Windows locations are built from. */
  datatype WinDirs = WinDirs(local: string, programData: string, userprofile: string,
                             programFiles: string, programFilesX86: string)

  /** The variables as the source reads them: empty when unset, except `ProgramData`. */
  function WinDirsOf(env: map<string, string>): WinDirs {
    WinDirs(EnvGet(env, "LOCALAPPDATA", ""), EnvGet(env, "ProgramData", "C:\\ProgramData"),
            EnvGet(env, "USERPROFILE", ""), EnvGet(env, "ProgramFiles", ""),
            EnvGet(env, "ProgramFiles(x86)", ""))
  }

  /** The package-manager shims: WinGet, Chocolatey, Scoop. */
  function ShimCandidates(exe: string, d: WinDirs): seq<string> {
    (if d.local != "" then [WinGetShim(d.local, exe)] else [])
    + [ChocolateyShim(d.programData, exe)]
    + (if d.userprofile != "" then [ScoopShim(d.userprofile, exe)] else [])
  }

  /** The MP3Gain install directories, consulted for `mp3gain` only (x86 first). */
  function AppCandidates(exe: string, d: WinDirs): seq<string> {
    if Lower(exe) == "mp3gain" then
      (if d.programFilesX86 != "" then [Mp3GainInstall(d.programFilesX86)] else [])
      + (if d.programFiles != "" then [Mp3GainInstall(d.programFiles)] else [])
    else []
  }

  /** The WinGet, Chocolatey, Scoop, MP3Gain and FFmpeg locations, in the order they are tried. */
  function WindowsCandidates(exe: string, d: WinDirs): seq<string> {
    ShimCandidates(exe, d) + AppCandidates(exe, d) + FfmpegDirs(exe, [d.programFiles, d.programFilesX86])
  }

  /** The Homebrew directories, tried on macOS only. */
  function DarwinCandidates(exe: string): seq<string> {
    [JoinOne(false, "/opt/homebrew/bin", exe), JoinOne(false, "/usr/local/bin", exe)]
  }

  /** The Unix directories, tried on every platform (joined with the platform's own separator). */
  function CommonCandidates(windows: bool, exe: string): seq<string> {
    [JoinOne(windows, "/usr/bin", exe), JoinOne(windows, "/usr/local/bin", exe)]
  }

  /** Every fallback location, in the order the lookup tries them. */
  function SearchOrder(exe: string, plat: Platform, env: map<string, string>): seq<string> {
    (if plat.windows then WindowsCandidates(exe, WinDirsOf(env)) else [])
    + ((if plat.darwin then DarwinCandidates(exe) else []) + CommonCandidates(plat.windows, exe))
  }

  /** A candidate the lookup accepts. */
  predicate Usable(present: string -> bool, c: string) {
    c != "" && present(c)
  }

  /** The first usable candidate. */
  function FirstHit(present: string -> bool, cands: seq<string>): Option<string>
    decreases |cands|
  {
    if cands == [] then None
    else if Usable(present, cands[0]) then Some(cands[0])
    else FirstHit(present, cands[1..])
  }

  /** The first hit is usable and every candidate before it is not; no hit means none is usable. */
  lemma {:induction false} FirstHitIsFirst(present: string -> bool, cands: seq<string>)
    ensures FirstHit(present, cands).Some? ==>
      exists k | 0 <= k < |cands| :: cands[k] == FirstHit(present, cands).value && Usable(present, cands[k])
        && forall j | 0 <= j < k :: !Usable(present, cands[j])
    ensures FirstHit(present, cands).None? <==> forall j | 0 <= j < |cands| :: !Usable(present, cands[j])
    decreases |cands|
  {
    if cands != [] && !Usable(present, cands[0]) {
      FirstHitIsFirst(present, cands[1..]);
      if FirstHit(present, cands[1..]).Some? {
        var k :| 0 <= k < |cands| - 1 && cands[1..][k] == FirstHit(present, cands[1..]).value
          && Usable(present, cands[1..][k]) && forall j | 0 <= j < k :: !Usable(present, cands[1..][j]);
        assert cands[k + 1] == cands[1..][k];
        forall j | 0 <= j < k + 1 ensures !Usable(present, cands[j]) {
          if j > 0 { assert cands[j] == cands[1..][j - 1]; }
        }
      } else {
        forall j | 0 <= j < |cands| ensures !Usable(present, cands[j]) {
          if j > 0 { assert cands[j] == cands[1..][j - 1]; }
        }
      }
    }
  }

  /** Searching two lists in turn is searching their concatenation. */
  lemma {:induction false} FirstHitAppend(present: string -> bool, a: seq<string>, b: seq<string>)
    ensures FirstHit(present, a + b) == if FirstHit(present, a).Some? then FirstHit(present, a) else FirstHit(present, b)
    decreases |a|
  {
    if a == [] {
      assert a + b == b;
    } else {
      assert (a + b)[0] == a[0] && (a + b)[1..] == a[1..] + b;
      FirstHitAppend(present, a[1..], b);
    }
  }

  /** A non-empty PATH hit, as `if p:` tests it. */
  predicate PathHit(which: string -> Option<string>, exe: string) {
    which(exe).Some? && which(exe).value != ""
  }

  /** What `resolve_tool_path` returns. */
  function Resolve(exe: string, plat: Platform, env: map<string, string>,
                   which: string -> Option<string>, present: string -> bool): Option<string>
  {
    if PathHit(which, exe) then which(exe) else FirstHit(present, SearchOrder(exe, plat, env))
  }

  /** A PATH hit wins before any install location is consulted. */
  lemma ResolvePrefersPath(exe: string, plat: Platform, env: map<string, string>,
                           which: string -> Option<string>, present: string -> bool)
    requires PathHit(which, exe)
    ensures Resolve(exe, plat, env, which, present) == which(exe)
  {
  }

  /**
   * Without a PATH hit the result is the first existing location of the
   * search order, or `None` when none exists.
   */
  lemma ResolveFallback(exe: string, plat: Platform, env: map<string, string>,
                        which: string -> Option<string>, present: string -> bool)
    requires !PathHit(which, exe)
    ensures var r := Resolve(exe, plat, env, which, present);
      var order := SearchOrder(exe, plat, env);
      && (r.Some? ==> (exists k | 0 <= k < |order| :: (order[k] == r.value && Usable(present, order[k])
            && forall j | 0 <= j < k :: !Usable(present, order[j]))))
      && (r.None? <==> forall j | 0 <= j < |order| :: !Usable(present, order[j]))
  {
    FirstHitIsFirst(present, SearchOrder(exe, plat, env));
  }

  /** On Linux the two Unix directories are the whole fallback, `/usr/bin` first. */
  lemma LinuxOrder(exe: string, env: map<string, string>)
    requires exe != "" && exe[0] != '/'
    ensures SearchOrder(exe, Platform(false, false), env) == ["/usr/bin/" + exe, "/usr/local/bin/" + exe]
  {
    JoinOneRule(false, "/usr/bin", exe);
    JoinOneRule(false, "/usr/local/bin", exe);
    assert [] + CommonCandidates(false, exe) == CommonCandidates(false, exe);
    assert "/usr/bin" + "/" + exe == "/usr/bin/" + exe;
    assert "/usr/local/bin" + "/" + exe == "/usr/local/bin/" + exe;
  }

  /** The first usable candidate of `cands`, by a scan that stops at the first hit. */
  method FirstExisting(present: string -> bool, cands: seq<string>) returns (r: Option<string>)
    ensures r == FirstHit(present, cands)
  {
    var i := 0;
    while i < |cands|
      invariant 0 <= i <= |cands|
      invariant FirstHit(present, cands) == FirstHit(present, cands[i..])
    {
      assert cands[i..][0] == cands[i] && cands[i..][1..] == cands[i + 1..];
      if cands[i] != "" && present(cands[i]) {
        return Some(cands[i]);
      }
      i := i + 1;
    }
    return None;
  }

  /** The shims, appended one by one. */
  method ShimList(exe: string, d: WinDirs) returns (shims: seq<string>)
    ensures shims == ShimCandidates(exe, d)
  {
    shims := [];
    if d.local != "" {
      shims := shims + [WinGetShim(d.local, exe)];
    }
    shims := shims + [ChocolateyShim(d.programData, exe)];
    if d.userprofile != "" {
      shims := shims + [ScoopShim(d.userprofile, exe)];
    }
  }

  /** The MP3Gain directories, appended one by one. */
  method AppList(exe: string, d: WinDirs) returns (app: seq<string>)
    ensures app == AppCandidates(exe, d)
  {
    app := [];
    if Lower(exe) == "mp3gain" {
      if d.programFilesX86 != "" {
        app := app + [Mp3GainInstall(d.programFilesX86)];
      }
      if d.programFiles != "" {
        app := app + [Mp3GainInstall(d.programFiles)];
      }
    }
  }

  /** The Windows list, built candidate by candidate as the source appends to it. */
  method WindowsCandidateList(exe: string, d: WinDirs) returns (win: seq<string>)
    ensures win == WindowsCandidates(exe, d)
  {
    var shims := ShimList(exe, d);
    var app := AppList(exe, d);
    win := AppendFfmpegDirs(exe, shims + app, [d.programFiles, d.programFilesX86]);
  }

  /** The `for base in ...: if base: append` loop over the FFmpeg base directories. */
  method AppendFfmpegDirs(exe: string, start: seq<string>, bases: seq<string>) returns (win: seq<string>)
    ensures win == start + FfmpegDirs(exe, bases)
  {
    win := start;
    for b := 0 to |bases|
      invariant win == start + FfmpegDirs(exe, bases[..b])
    {
      assert bases[..b + 1] == bases[..b] + [bases[b]];
      FfmpegDirsAppend(exe, bases[..b], bases[b]);
      FfmpegDirsOne(exe, bases[b]);
      if bases[b] != "" {
        win := win + [FfmpegInstall(bases[b], exe)];
      }
    }
    assert bases[..|bases|] == bases;
  }

  /**
   * The lookup as the source runs it: PATH, then the Windows list, then
   * Homebrew, then the Unix directories, each scanned to its first hit.
   */
  method ResolveToolPath(exe: string, plat: Platform, env: map<string, string>,
                         which: string -> Option<string>, present: string -> bool)
    returns (r: Option<string>)
    ensures r == Resolve(exe, plat, env, which, present)
  {
    var p := which(exe);
    if p.Some? && p.value != "" {
      return p;
    }
    var win: seq<string> := [];
    var mac: seq<string> := [];
    var common := CommonCandidates(plat.windows, exe);
    if plat.darwin {
      mac := DarwinCandidates(exe);
    }
    FirstHitAppend(present, win, mac + common);
    FirstHitAppend(present, mac, common);
    if plat.windows {
      win := WindowsCandidateList(exe, WinDirsOf(env));
      FirstHitAppend(present, win, mac + common);
      r := FirstExisting(present, win);
      if r.Some? {
        return r;
      }
    }
    if plat.darwin {
      r := FirstExisting(present, mac);
      if r.Some? {
        return r;
      }
    }
    r := FirstExisting(present, common);
  }

  /** The `FFmpeg\bin` location under each non-empty base, in order. */
  function FfmpegDirs(exe: string, bases: seq<string>): seq<string>
    decreases |bases|
  {
    if bases == [] then []
    else (if bases[0] != "" then [FfmpegInstall(bases[0], exe)] else [])
         + FfmpegDirs(exe, bases[1..])
  }

  lemma FfmpegDirsOne(exe: string, base: string)
    ensures FfmpegDirs(exe, [base]) == if base != "" then [FfmpegInstall(base, exe)] else []
  {
    assert [base][1..] == [];
  }

  lemma {:induction false} FfmpegDirsAppend(exe: string, bases: seq<string>, b: string)
    ensures FfmpegDirs(exe, bases + [b]) == FfmpegDirs(exe, bases) + FfmpegDirs(exe, [b])
    decreases |bases|
  {
    if bases == [] {
      assert bases + [b] == [b];
    } else {
      assert (bases + [b])[0] == bases[0] && (bases + [b])[1..] == bases[1..] + [b];
      FfmpegDirsAppend(exe, bases[1..], b);
    }
  }

  /** `have`: a program is available exactly when some lookup step finds a usable path. */
  function Have(exe: string, plat: Platform, env: map<string, string>,
                which: string -> Option<string>, present: string -> bool): (r: bool)
    ensures r <==> PathHit(which, exe) || exists j | 0 <= j < |SearchOrder(exe, plat, env)| :: Usable(present, SearchOrder(exe, plat, env)[j])
  {
    FirstHitIsFirst(present, SearchOrder(exe, plat, env));
    Resolve(exe, plat, env, which, present).Some?
  }
}
