/**
 * The `pathlib` rules the core uses (Python 3.12): `name` of a whole path,
 * and `suffix`, `stem`, `with_suffix` and `with_name` on a final name
 * component.
 */
module Paths {

  import opened Strings

  /** A path separator of the platform's flavour: `/`, and also `\` on Windows. */
  predicate IsPathSep(windows: bool, c: char) {
    c == '/' || (windows && c == '\\')
  }

  /** The index of the last separator, or -1. */
  function LastSep(windows: bool, s: string): (r: int)
    ensures -1 <= r < |s|
    ensures r >= 0 ==> IsPathSep(windows, s[r])
    ensures forall j | r < j < |s| :: !IsPathSep(windows, s[j])
  {
    if s == [] then -1
    else if IsPathSep(windows, s[|s| - 1]) then |s| - 1
    else LastSep(windows, s[..|s| - 1])
  }

  /** The path without its trailing separators. */
  function TrimSeps(windows: bool, s: string): (r: string)
    ensures |r| <= |s|
    ensures s != [] && !IsPathSep(windows, s[|s| - 1]) ==> r == s
  {
    if s != [] && IsPathSep(windows, s[|s| - 1]) then TrimSeps(windows, s[..|s| - 1]) else s
  }

  /** `PurePath.name`: the last component of a path, trailing separators ignored. */
  function FinalName(windows: bool, path: string): string {
    var t := TrimSeps(windows, path);
    t[LastSep(windows, t) + 1..]
  }

  /** A name without separators, placed after a directory, is the path's final name. */
  lemma FinalNameOf(windows: bool, dir: string, name: string)
    requires name != [] && forall k | 0 <= k < |name| :: !IsPathSep(windows, name[k])
    ensures FinalName(windows, dir + "/" + name) == name
  {
    var path := dir + "/" + name;
    assert path[|path| - 1] == name[|name| - 1];
    forall j | |dir| < j < |path| ensures !IsPathSep(windows, path[j]) {
      assert path[j] == name[j - |dir| - 1];
    }
    LastSepAt(windows, path, |dir|);
    assert path[|dir| + 1..] == name;
  }

  lemma LastSepAt(windows: bool, s: string, i: nat)
    requires i < |s| && IsPathSep(windows, s[i])
    requires forall j | i < j < |s| :: !IsPathSep(windows, s[j])
    ensures LastSep(windows, s) == i
    decreases |s|
  {
    if i < |s| - 1 {
      LastSepAt(windows, s[..|s| - 1], i);
    }
  }

  /** `<dir>/<x>.<ext>` has the suffix `.<ext>` when `x` is not empty. */
  lemma PathSuffix(windows: bool, dir: string, x: string, ext: string)
    requires x != [] && ext != [] && '.' !in ext
    requires forall k | 0 <= k < |x| :: !IsPathSep(windows, x[k])
    requires forall k | 0 <= k < |ext| :: !IsPathSep(windows, ext[k])
    ensures Suffix(FinalName(windows, dir + "/" + x + "." + ext)) == "." + ext
  {
    var name := x + "." + ext;
    forall k | 0 <= k < |name| ensures !IsPathSep(windows, name[k]) {
      if k > |x| { assert name[k] == ext[k - |x| - 1]; }
    }
    assert dir + "/" + x + "." + ext == dir + "/" + name;
    FinalNameOf(windows, dir, name);
    StemSuffixOf(x, ext);
  }

  /** `<dir>/.<ext>` is a dot file: its final name has no suffix. */
  lemma DotFileSuffix(windows: bool, dir: string, ext: string)
    requires ext != [] && '.' !in ext
    requires forall k | 0 <= k < |ext| :: !IsPathSep(windows, ext[k])
    ensures Suffix(FinalName(windows, dir + "/" + "." + ext)) == ""
  {
    var name := "." + ext;
    assert dir + "/" + "." + ext == dir + "/" + name;
    forall k | 0 <= k < |name| ensures !IsPathSep(windows, name[k]) {
      if k > 0 { assert name[k] == ext[k - 1]; }
    }
    FinalNameOf(windows, dir, name);
    assert LastIndexOf(name, '.') == 0 by {
      assert forall j | 0 < j < |name| :: name[j] == ext[j - 1];
      LastIndexAfter(name, '.', 0);
    }
  }

  /** `s.rfind(c)`: the last index holding `c`, or -1. */
  function LastIndexOf(s: string, c: char): (r: int)
    ensures -1 <= r < |s|
    ensures r >= 0 ==> s[r] == c
    ensures forall j | r < j < |s| :: s[j] != c
  {
    if s == [] then -1
    else if s[|s| - 1] == c then |s| - 1
    else LastIndexOf(s[..|s| - 1], c)
  }

  /** The last dot counts when it is neither the first nor the last character. */
  predicate HasSuffix(name: string) {
    var i := LastIndexOf(name, '.');
    0 < i < |name| - 1
  }

  /** `Path.suffix` */
  function Suffix(name: string): string {
    var i := LastIndexOf(name, '.');
    if 0 < i < |name| - 1 then name[i..] else ""
  }

  /** `Path.stem` */
  function Stem(name: string): string {
    var i := LastIndexOf(name, '.');
    if 0 < i < |name| - 1 then name[..i] else name
  }

  /**
   * A suffix is a dot and at least one more character, ends the name and
   * holds no other dot; a name without one has the empty suffix. The stem
   * is everything before it.
   */
  lemma SuffixShape(name: string)
    ensures var r := Suffix(name);
      && (HasSuffix(name) ==> |r| >= 2 && r[0] == '.' && '.' !in r[1..] && EndsWith(name, r))
      && (!HasSuffix(name) ==> r == "")
      && Stem(name) + r == name
  {
  }

  /** `Path.with_suffix(suffix)` on a non-empty name. */
  function WithSuffix(name: string, suffix: string): string {
    Stem(name) + suffix
  }

  /** A name built as `base + "." + ext` splits back into `base` and `"." + ext`. */
  lemma StemSuffixOf(base: string, ext: string)
    requires |base| > 0 && |ext| > 0 && '.' !in ext
    ensures Suffix(base + "." + ext) == "." + ext
    ensures Stem(base + "." + ext) == base
  {
    var name := base + "." + ext;
    assert name[|base|] == '.';
    assert forall j | |base| < j < |name| :: name[j] == ext[j - |base| - 1];
    assert LastIndexOf(name, '.') == |base| by {
      LastIndexAfter(name, '.', |base|);
    }
    assert name[|base|..] == "." + ext;
    assert name[..|base|] == base;
  }

  lemma LastIndexAfter(s: string, c: char, i: nat)
    requires i < |s| && s[i] == c
    requires forall j | i < j < |s| :: s[j] != c
    ensures LastIndexOf(s, c) == i
    decreases |s|
  {
    if i < |s| - 1 {
      LastIndexAfter(s[..|s| - 1], c, i);
    }
  }

  /** `p.with_suffix(p.suffix + tail)` appends `tail` to the whole name. */
  lemma WithOwnSuffix(name: string, tail: string)
    ensures WithSuffix(name, Suffix(name) + tail) == name + tail
  {
    var st, su := Stem(name), Suffix(name);
    SuffixShape(name);
    assert st + (su + tail) == (st + su) + tail;
  }
}
