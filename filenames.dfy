/**
 * File-name logic of the post-processing steps: the sanitising substitution
 * chain, the `artist - title` parser used for tagging, the download file-name
 * template, the artist de-duplication match, and the two renaming passes. A
 * directory is the set of names in it; whether one rename succeeds is an
 * oracle.
 */
module Filenames {
  import opened Wrappers
  import opened Strings
  import Paths

  // ---------------------------------------------------------------------
  // _sanitize_filename_component
  // ---------------------------------------------------------------------

  /** What the first pass removes: characters below U+0020, and U+007F. */
  predicate IsControl(c: char) {
    c < ' ' || c == '\U{7f}'
  }

  /** `[<>:"/\\|?*]`: reserved by file systems. */
  predicate IsReserved(c: char) {
    c == '<' || c == '>' || c == ':' || c == '"' || c == '/' || c == '\\' || c == '|' || c == '?' || c == '*'
  }

  /** `[&;$'\"()!]`: special to shells. */
  predicate IsShellSpecial(c: char) {
    c == '&' || c == ';' || c == '$' || c == '\'' || c == '"' || c == '(' || c == ')' || c == '!'
  }

  /** `[\[\]{}#%,]`: troublesome for playlists and players. */
  predicate IsQuirk(c: char) {
    c == '[' || c == ']' || c == '{' || c == '}' || c == '#' || c == '%' || c == ','
  }

  /** Any character one of the three substitutions turns into `-`. */
  predicate IsRisky(c: char) {
    IsReserved(c) || IsShellSpecial(c) || IsQuirk(c)
  }

  /** `[-\s]`: a separator character. */
  predicate IsSep(c: char) {
    c == '-' || IsSpace(c)
  }

  /** The characters `strip(" .-_")` removes. */
  predicate IsStripChar(c: char) {
    c == ' ' || c == '.' || c == '-' || c == '_'
  }

  /** No two neighbouring characters both satisfy `p`. */
  predicate NoAdjacent(s: string, p: char -> bool) {
    forall i | 0 <= i < |s| - 1 :: !(p(s[i]) && p(s[i + 1]))
  }

  /** `"".join(ch for ch in name if ch >= " " and ch != "\x7f")` */
  function DropControls(s: string): string
    decreases |s|
  {
    if s == [] then []
    else (if IsControl(s[0]) then [] else [s[0]]) + DropControls(s[1..])
  }

  /** `re.sub("[…]", "-", s)` for a one-character class. */
  function Substitute(s: string, cls: char -> bool): (r: string)
    ensures |r| == |s|
    ensures forall i | 0 <= i < |s| :: r[i] == if cls(s[i]) then '-' else s[i]
  {
    seq(|s|, i requires 0 <= i < |s| => if cls(s[i]) then '-' else s[i])
  }

  /** The length of the run of `p` characters that starts `s`. */
  function RunLength(s: string, p: char -> bool): (k: nat)
    ensures k <= |s|
    ensures forall i | 0 <= i < k :: p(s[i])
    ensures k < |s| ==> !p(s[k])
    decreases |s|
  {
    if s == [] || !p(s[0]) then 0 else 1 + RunLength(s[1..], p)
  }

  /**
   * `re.sub(r"<class>{minLen,}", " ", s)`: every maximal run of `p`
   * characters at least `minLen` long becomes one space; a class pattern is
   * greedy, so the runs it replaces are the maximal ones.
   */
  function Collapse(s: string, p: char -> bool, minLen: nat): string
    decreases |s|
  {
    if s == [] then []
    else if p(s[0]) then
      var k := RunLength(s, p);
      (if k >= minLen then " " else s[..k]) + Collapse(s[k..], p, minLen)
    else [s[0]] + Collapse(s[1..], p, minLen)
  }

  /** The three substitutions of risky characters by `-`, in the source's order. */
  function Dashed(s: string): string {
    Substitute(Substitute(Substitute(s, IsReserved), IsShellSpecial), IsQuirk)
  }

  /** `name or "untitled"` */
  function Guard(t: string): string {
    if t == "" then "untitled" else t
  }

  /** `_sanitize_filename_component` */
  function Sanitize(name: string): string {
    Guard(Strip(Collapse(Collapse(Dashed(DropControls(name)), IsSpace, 1), IsSep, 2), IsStripChar))
  }

  /** Every character of `s` satisfies `ok`. */
  predicate All(s: string, ok: char -> bool) {
    forall i | 0 <= i < |s| :: ok(s[i])
  }

  predicate NotControl(c: char) { !IsControl(c) }

  /** Neither a control character nor a risky one. */
  predicate IsSafe(c: char) { !IsControl(c) && !IsRisky(c) }

  /** Whitespace only as the plain space. */
  predicate PlainSpace(c: char) { IsSpace(c) ==> c == ' ' }

  /** Removing control characters keeps every other character and only those. */
  lemma {:induction false} DropControlsFacts(s: string)
    ensures forall c | c in DropControls(s) :: c in s && !IsControl(c)
    ensures (forall i | 0 <= i < |s| :: !IsControl(s[i])) ==> DropControls(s) == s
    decreases |s|
  {
    if s != [] {
      DropControlsFacts(s[1..]);
      assert s == [s[0]] + s[1..];
    }
  }

  /** A collapse introduces no character but the space. */
  lemma {:induction false} CollapseChars(s: string, p: char -> bool, minLen: nat)
    ensures forall c | c in Collapse(s, p, minLen) :: c == ' ' || (c in s && (minLen <= 1 ==> !p(c)))
    decreases |s|
  {
    if s != [] {
      if p(s[0]) {
        var k := RunLength(s, p);
        CollapseChars(s[k..], p, minLen);
        forall c | c in s[k..] ensures c in s {
          var i :| 0 <= i < |s[k..]| && s[k..][i] == c;
          assert s[k + i] == c;
        }
        if k < minLen {
          forall c | c in s[..k] ensures c in s && (minLen <= 1 ==> !p(c)) {
            var i :| 0 <= i < k && s[..k][i] == c;
            assert s[i] == c;
          }
        }
      } else {
        CollapseChars(s[1..], p, minLen);
      }
    }
  }

  /**
   * With a run length of at most two and a space that belongs to the class,
   * the collapsed text has no two neighbouring class characters; it is empty
   * only for empty input and starts with a class character exactly when the
   * input does.
   */
  lemma {:induction false} CollapseNoAdjacent(s: string, p: char -> bool, minLen: nat)
    requires 1 <= minLen <= 2 && p(' ')
    ensures var r := Collapse(s, p, minLen);
      && NoAdjacent(r, p)
      && (s == [] <==> r == [])
      && (s != [] ==> (p(r[0]) <==> p(s[0])))
    decreases |s|
  {
    if s != [] {
      if p(s[0]) {
        var k := RunLength(s, p);
        var head := if k >= minLen then " " else s[..k];
        assert |head| == 1 && p(head[0]);
        CollapseNoAdjacent(s[k..], p, minLen);
        var rest := Collapse(s[k..], p, minLen);
        assert rest != [] ==> !p(rest[0]);
        NoAdjacentCons(head[0], rest, p);
        assert head == [head[0]];
      } else {
        CollapseNoAdjacent(s[1..], p, minLen);
        NoAdjacentCons(s[0], Collapse(s[1..], p, minLen), p);
      }
    }
  }

  lemma NoAdjacentCons(c: char, rest: string, p: char -> bool)
    requires NoAdjacent(rest, p)
    requires rest != [] && p(c) ==> !p(rest[0])
    ensures NoAdjacent([c] + rest, p)
  {
    var s := [c] + rest;
    forall i | 0 <= i < |s| - 1 ensures !(p(s[i]) && p(s[i + 1])) {
      if i > 0 {
        assert s[i] == rest[i - 1] && s[i + 1] == rest[i];
      }
    }
  }

  /** Text whose class characters stand alone (and are spaces, for runs of one) is left as it is. */
  lemma {:induction false} CollapseIdentity(s: string, p: char -> bool, minLen: nat)
    requires 1 <= minLen && NoAdjacent(s, p)
    requires minLen == 1 ==> forall i | 0 <= i < |s| :: p(s[i]) ==> s[i] == ' '
    ensures Collapse(s, p, minLen) == s
    decreases |s|
  {
    if s != [] {
      var k := if p(s[0]) then RunLength(s, p) else 1;
      if p(s[0]) {
        if |s| > 1 {
          assert !p(s[1]);
          assert s[1..][0] == s[1];
        }
        assert k == 1;
        assert (if k >= minLen then " " else s[..k]) == [s[0]];
      }
      NoAdjacentTail(s, p);
      CollapseIdentity(s[1..], p, minLen);
      assert s == [s[0]] + s[1..];
    }
  }

  lemma NoAdjacentTail(s: string, p: char -> bool)
    requires s != [] && NoAdjacent(s, p)
    ensures NoAdjacent(s[1..], p)
  {
    forall i | 0 <= i < |s| - 2 ensures !(p(s[1..][i]) && p(s[1..][i + 1])) {
      assert s[1..][i] == s[i + 1] && s[1..][i + 1] == s[i + 2];
    }
  }

  /** A stretch cut out of text with no neighbouring class characters has none either. */
  lemma NoAdjacentSlice(s: string, p: char -> bool, a: nat, b: nat)
    requires a <= b <= |s| && NoAdjacent(s, p)
    ensures NoAdjacent(s[a..b], p)
  {
    forall i | 0 <= i < b - a - 1 ensures !(p(s[a..b][i]) && p(s[a..b][i + 1])) {
      assert s[a..b][i] == s[a + i] && s[a..b][i + 1] == s[a + i + 1];
    }
  }

  /** `strip` keeps a stretch of the text. */
  lemma StripSlice(s: string, drop: char -> bool)
    ensures exists a: nat, b: nat | a <= b <= |s| :: Strip(s, drop) == s[a..b]
  {
    var l := LStrip(s, drop);
    var r := RStrip(l, drop);
    var a := |s| - |l|;
    assert l == s[a..];
    assert r == s[a..][..|r|] == s[a..a + |r|];
  }

  lemma AllSlice(s: string, ok: char -> bool, a: nat, b: nat)
    requires a <= b <= |s| && All(s, ok)
    ensures All(s[a..b], ok)
  {
    forall i | 0 <= i < b - a ensures ok(s[a..b][i]) {
      assert s[a..b][i] == s[a + i];
    }
  }

  /** Dropping control characters leaves none. */
  lemma DroppedNoControl(s: string)
    ensures All(DropControls(s), NotControl)
  {
    var r := DropControls(s);
    DropControlsFacts(s);
    forall i | 0 <= i < |r| ensures NotControl(r[i]) {
      assert r[i] in r;
    }
  }

  /** After the three substitutions no risky character is left, and none comes in. */
  lemma DashedSafe(s: string)
    requires All(s, NotControl)
    ensures All(Dashed(s), IsSafe)
  {
  }

  /** A collapse keeps any property the space has and the input's characters have. */
  lemma CollapseKeeps(s: string, p: char -> bool, minLen: nat, ok: char -> bool)
    requires ok(' ') && All(s, ok)
    ensures All(Collapse(s, p, minLen), ok)
  {
    var r := Collapse(s, p, minLen);
    CollapseChars(s, p, minLen);
    forall i | 0 <= i < |r| ensures ok(r[i]) {
      assert r[i] in r;
      if r[i] != ' ' {
        var j :| 0 <= j < |s| && s[j] == r[i];
      }
    }
  }

  /** After `\s+` became one space, the only whitespace left is the plain space. */
  lemma SpacedPlain(s: string)
    ensures All(Collapse(s, IsSpace, 1), PlainSpace)
  {
    var r := Collapse(s, IsSpace, 1);
    CollapseChars(s, IsSpace, 1);
    forall i | 0 <= i < |r| ensures PlainSpace(r[i]) {
      assert r[i] in r;
    }
  }

  /** The shape every sanitised name has. */
  predicate IsSanitized(r: string) {
    && r != ""
    && All(r, IsSafe) && All(r, PlainSpace)
    && NoAdjacent(r, IsSep)
    && !IsStripChar(r[0]) && !IsStripChar(r[|r| - 1])
  }

  /**
   * A sanitised name is never empty, holds no control character and none of
   * the three risky classes, has no two neighbouring separators (`-` or
   * whitespace) and neither starts nor ends with one of ` .-_`.
   */
  lemma SanitizeShape(name: string)
    ensures IsSanitized(Sanitize(name))
  {
    var kept := DropControls(name);
    DroppedNoControl(name);
    var dashed := Dashed(kept);
    DashedSafe(kept);
    var spaced := Collapse(dashed, IsSpace, 1);
    CollapseKeeps(dashed, IsSpace, 1, IsSafe);
    SpacedPlain(dashed);
    var joined := Collapse(spaced, IsSep, 2);
    CollapseKeeps(spaced, IsSep, 2, IsSafe);
    CollapseKeeps(spaced, IsSep, 2, PlainSpace);
    CollapseNoAdjacent(spaced, IsSep, 2);
    var trimmed := Strip(joined, IsStripChar);
    StripSlice(joined, IsStripChar);
    var a: nat, b: nat :| a <= b <= |joined| && trimmed == joined[a..b];
    NoAdjacentSlice(joined, IsSep, a, b);
    AllSlice(joined, IsSafe, a, b);
    AllSlice(joined, PlainSpace, a, b);
    if trimmed == "" {
      UntitledShape();
    }
  }

  lemma UntitledShape()
    ensures IsSanitized("untitled")
  {
    var u := "untitled";
    assert forall i | 0 <= i < |u| :: 'a' <= u[i] <= 'z';
  }

  /** Sanitising a sanitised name changes nothing. */
  lemma SanitizeIdempotent(name: string)
    ensures Sanitize(Sanitize(name)) == Sanitize(name)
  {
    var r := Sanitize(name);
    SanitizeShape(name);
    SanitizedFixed(r);
  }

  lemma SubstituteNone(s: string, cls: char -> bool)
    requires forall i | 0 <= i < |s| :: !cls(s[i])
    ensures Substitute(s, cls) == s
  {
  }

  /** Every pass of the chain leaves a name of the sanitised shape as it is. */
  lemma SanitizedFixed(r: string)
    requires IsSanitized(r)
    ensures Sanitize(r) == r
  {
    DropControlsFacts(r);
    assert DropControls(r) == r;
    SubstituteNone(r, IsReserved);
    SubstituteNone(r, IsShellSpecial);
    SubstituteNone(r, IsQuirk);
    assert Dashed(r) == r;
    assert NoAdjacent(r, IsSpace) by {
      forall i | 0 <= i < |r| - 1 ensures !(IsSpace(r[i]) && IsSpace(r[i + 1])) {
        assert !(IsSep(r[i]) && IsSep(r[i + 1]));
      }
    }
    CollapseIdentity(r, IsSpace, 1);
    CollapseIdentity(r, IsSep, 2);
    assert LStrip(r, IsStripChar) == r;
    assert RStrip(r, IsStripChar) == r;
  }

  // ---------------------------------------------------------------------
  // _parse_artist_title_trackno
  // ---------------------------------------------------------------------

  /** What the tagger reads from a file's stem: artist, title and track number, each possibly absent. */
  datatype Parsed = Parsed(artist: Option<string>, title: Option<string>, trackno: Option<string>)

  /** `s or None` */
  function NoneIfEmpty(s: string): Option<string> {
    if s == "" then None else Some(s)
  }

  /**
   * `_parse_artist_title_trackno` on a stem: split on `" - "`; an all-digit
   * first part is the track number and is skipped; with two parts or more
   * left, the first is the artist and the rest, re-joined, the title.
   */
  function ParseArtistTitleTrackno(stem: string): Parsed {
    var parts := Split(stem, " - ");
    var i := if IsDigits(parts[0]) then 1 else 0;
    var trackno := if i == 1 then Some(parts[0]) else None;
    if |parts| - i >= 2 then
      Parsed(NoneIfEmpty(Trim(parts[i])), NoneIfEmpty(Trim(Join(parts[i + 1..], " - "))), trackno)
    else Parsed(None, Some(stem), trackno)
  }

  /** The first `" - "` of `a + " - " + rest` is the one after `a` when `a` has no `-`. */
  lemma SplitAfterDashless(a: string, rest: string)
    requires '-' !in a
    ensures Split(a + " - " + rest, " - ") == [a] + Split(rest, " - ")
  {
    var s := a + " - " + rest;
    var sep := " - ";
    assert OccursAt(s, sep, |a|) by {
      assert s[|a|..|a| + 3] == sep;
    }
    forall j | 0 <= j < |a| ensures !OccursAt(s, sep, j) {
      assert s[j + 1] != '-' by {
        if j + 1 < |a| {
          assert s[j + 1] == a[j + 1];
        }
      }
      assert j + 3 <= |s| ==> s[j..j + 3][1] == s[j + 1];
    }
    assert Find(s, sep) == Some(|a|);
    SplitAtFind(s, sep, |a|);
    assert s[..|a|] == a;
    assert s[|a| + 3..] == rest;
  }

  /**
   * `artist - title` reads back as that artist and title, with no track
   * number, when the artist is trimmed, holds no `-` and is not a number.
   */
  lemma ParseArtistTitle(artist: string, title: string)
    requires artist != "" && Trim(artist) == artist && '-' !in artist && !IsDigits(artist)
    requires title != "" && Trim(title) == title
    ensures ParseArtistTitleTrackno(artist + " - " + title) == Parsed(Some(artist), Some(title), None)
  {
    SplitAfterDashless(artist, title);
    var parts := Split(artist + " - " + title, " - ");
    assert parts[1..] == Split(title, " - ");
    JoinSplit(title, " - ");
  }

  /** `NN - artist - title` reads back as all three, the track number kept as text. */
  lemma ParseNumbered(trackno: string, artist: string, title: string)
    requires IsDigits(trackno)
    requires artist != "" && Trim(artist) == artist && '-' !in artist
    requires title != "" && Trim(title) == title
    ensures ParseArtistTitleTrackno(trackno + " - " + artist + " - " + title)
      == Parsed(Some(artist), Some(title), Some(trackno))
  {
    var parts := Split(trackno + " - " + artist + " - " + title, " - ");
    NumberedParts(trackno, artist, title);
    assert parts[2..] == Split(title, " - ");
    JoinSplit(title, " - ");
  }

  lemma NumberedParts(trackno: string, artist: string, title: string)
    requires IsDigits(trackno) && '-' !in artist
    ensures Split(trackno + " - " + artist + " - " + title, " - ") == [trackno, artist] + Split(title, " - ")
  {
    var tail := artist + " - " + title;
    AppendAssoc(trackno + " - ", artist + " - ", title);
    AppendAssoc(trackno + " - ", artist, " - ");
    assert '-' !in trackno by {
      forall i | 0 <= i < |trackno| ensures trackno[i] != '-' {
        assert IsDigit(trackno[i]);
      }
    }
    SplitAfterDashless(trackno, tail);
    SplitAfterDashless(artist, title);
  }

  /** A stem without `" - "` has no artist and is its own title; an all-digit one is also the track number. */
  lemma ParseUnseparated(stem: string)
    requires !Contains(stem, " - ")
    ensures ParseArtistTitleTrackno(stem)
      == Parsed(None, Some(stem), if IsDigits(stem) then Some(stem) else None)
  {
    FindContains(stem, " - ");
  }

  // ---------------------------------------------------------------------
  // App._build_outtmpl
  // ---------------------------------------------------------------------

  function TemplateCore(): string { "%(uploader,channel)s - %(title)s" }
  function TemplateNumber(): string { "%(playlist_index,autonumber)03d - " }
  function TemplateId(): string { " [%(id)s]" }
  function TemplateExt(): string { ".%(ext)s" }

  /** `_build_outtmpl(numbering, fallback_numbering, include_id)` */
  function OutputTemplate(numbering: bool, fallbackNumbering: bool, includeId: bool): string {
    (if numbering then TemplateNumber() else "") + TemplateCore() + (if includeId then TemplateId() else "")
      + TemplateExt()
  }

  /** A string none of whose characters is `t[k]` does not contain `t`. */
  lemma MissingChar(r: string, t: string, k: nat)
    requires k < |t| && t[k] !in r
    ensures !Contains(r, t)
  {
    forall j | 0 <= j <= |r| - |t| ensures !OccursAt(r, t, j) {
      assert r[j..j + |t|][k] == r[j + k];
      assert r[j + k] in r;
    }
  }

  lemma NotInAppend(a: string, b: string, c: char)
    requires c !in a && c !in b
    ensures c !in a + b
  {
  }

  /** `b` occurs in `a + b + c` right after `a`. */
  lemma OccursInMiddle(a: string, b: string, c: string)
    ensures OccursAt(a + b + c, b, |a|)
  {
    assert (a + b + c)[|a|..|a| + |b|] == b;
  }

  /** The template's shape, for any four pieces with the distinguishing characters the real ones have. */
  lemma AssembledShape(num: string, core: string, idf: string, ext: string, numbering: bool, includeId: bool)
    requires |idf| > 1 && idf[1] !in num && idf[1] !in core && idf[1] !in ext
    requires |num| > 2 && |core| > 2 && num[2] != core[2] && |num| <= |core| + |ext|
    ensures var r := (if numbering then num else "") + core + (if includeId then idf else "") + ext;
      && Contains(r, core)
      && EndsWith(r, ext)
      && (StartsWith(r, num) <==> numbering)
      && (Contains(r, idf) <==> includeId)
  {
    var pre := if numbering then num else "";
    var id := if includeId then idf else "";
    var r := pre + core + id + ext;
    assert r == pre + core + (id + ext);
    OccursInMiddle(pre, core, id + ext);
    assert EndsWith(r, ext);
    if !numbering {
      assert r[..|num|][2] == core[2];
    }
    if includeId {
      OccursInMiddle(pre + core, idf, ext);
    } else {
      NotInAppend(pre, core, idf[1]);
      NotInAppend(pre + core, ext, idf[1]);
      assert r == pre + core + ext;
      MissingChar(r, idf, 1);
    }
  }

  lemma IdFieldOpens()
    ensures |TemplateId()| > 1 && TemplateId()[1] == '['
  {
  }

  lemma NoBracketInNumber()
    ensures '[' !in TemplateNumber()
  {
    var t := TemplateNumber();
    assert forall i | 0 <= i < |t| :: t[i] != '[';
  }

  lemma NoBracketInCore()
    ensures '[' !in TemplateCore()
  {
    var t := TemplateCore();
    assert forall i | 0 <= i < |t| :: t[i] != '[';
  }

  lemma NoBracketInExt()
    ensures '[' !in TemplateExt()
  {
    var t := TemplateExt();
    assert forall i | 0 <= i < |t| :: t[i] != '[';
  }

  lemma NumberAndCoreDiffer()
    ensures |TemplateNumber()| > 2 && |TemplateCore()| > 2 && TemplateNumber()[2] != TemplateCore()[2]
    ensures |TemplateNumber()| <= |TemplateCore()| + |TemplateExt()|
  {
  }

  /**
   * The template always holds the uploader-and-title core and ends with the
   * extension field; it starts with the number field exactly when
   * `numbering` is set, holds the id field exactly when `include_id` is set,
   * and does not depend on `fallback_numbering`.
   */
  lemma OutputTemplateShape(numbering: bool, fallbackNumbering: bool, includeId: bool)
    ensures var r := OutputTemplate(numbering, fallbackNumbering, includeId);
      && Contains(r, TemplateCore())
      && EndsWith(r, TemplateExt())
      && (StartsWith(r, TemplateNumber()) <==> numbering)
      && (Contains(r, TemplateId()) <==> includeId)
      && r == OutputTemplate(numbering, !fallbackNumbering, includeId)
  {
    IdFieldOpens();
    NoBracketInNumber();
    NoBracketInCore();
    NoBracketInExt();
    NumberAndCoreDiffer();
    AssembledShape(TemplateNumber(), TemplateCore(), TemplateId(), TemplateExt(), numbering, includeId);
  }

  // ---------------------------------------------------------------------
  // _dedup_artist_in_filenames: the pattern
  //   ^(?:(?P<num>\d+)\s*-\s*)?(?P<a>[^-]+?)\s-\s(?P=a)\s-\s(?P<rest>.+)$
  // with IGNORECASE, matched against a stem
  // ---------------------------------------------------------------------

  /** The index of the first `c` at or after `from`, or `|s|`. */
  function CharFrom(s: string, c: char, from: nat): (k: nat)
    requires from <= |s|
    ensures from <= k <= |s|
    ensures k < |s| ==> s[k] == c
    ensures forall i | from <= i < k :: s[i] != c
    decreases |s| - from
  {
    if from == |s| || s[from] == c then from else CharFrom(s, c, from + 1)
  }

  /**
   * `(?P<rest>.+)$` at `q`: `.` stops at a newline and `$` matches at the end
   * or just before a final newline, so the rest runs to the first newline,
   * which must be the last character or absent.
   */
  function RestAt(s: string, q: nat): Option<string>
    requires q <= |s|
  {
    var k := CharFrom(s, '\n', q);
    if k > q && (k == |s| || k == |s| - 1) then Some(s[q..k]) else None
  }

  /** ASCII case-insensitive equality, as the back-reference `(?P=a)` compares under IGNORECASE. */
  predicate SameIgnoringCase(x: string, y: string) {
    Lower(x) == Lower(y)
  }

  /**
   * The pattern after the optional number, tried with the artist starting at
   * `st`. `[^-]+?` cannot cross a `-` and must be followed by `\s-`, so the
   * only artist it can take ends just before the space ahead of the first
   * `-` after `st`; the rest of the pattern is then fixed.
   */
  function MatchFrom(s: string, st: nat): Option<(string, string)>
    requires st <= |s|
  {
    var f := CharFrom(s, '-', st);
    var len := f - 1 - st;
    var g := f + len + 3;
    if f < st + 2 || !DashBetweenSpaces(s, f) || !DashBetweenSpaces(s, g) then None
    else if !SameIgnoringCase(s[f + 2..f + 2 + len], s[st..st + len]) then None
    else
      match RestAt(s, g + 2)
      case None => None
      case Some(rest) => Some((s[st..st + len], rest))
  }

  /** `\s-\s` with the `-` at `i`. */
  predicate DashBetweenSpaces(s: string, i: int) {
    0 < i && i + 1 < |s| && IsSpace(s[i - 1]) && s[i] == '-' && IsSpace(s[i + 1])
  }

  /**
   * `(?P<num>\d+)\s*-\s*`: the digit run's length and the range of artist
   * starts the optional group allows. Only the whole digit run and the whole
   * space run before the `-` can be followed by `-`; the spaces after it
   * are given back one at a time, so the starts run from `hi` down to `lo`.
   */
  function NumberPrefix(s: string): Option<(nat, nat, nat)> {
    PrefixRange(s, IsDigit, IsSpace)
  }

  /** `(dig+)(sp*)-(sp*)` in the same terms, for any two classes. */
  function PrefixRange(s: string, dig: char -> bool, sp: char -> bool): (r: Option<(nat, nat, nat)>)
    ensures r.Some? ==> 0 < r.value.0 < r.value.1 <= r.value.2 <= |s|
  {
    var d := RunLength(s, dig);
    if d == 0 then None
    else
      var w := RunLength(s[d..], sp);
      if d + w < |s| && s[d + w] == '-' then
        var w2 := RunLength(s[d + w + 1..], sp);
        Some((d, d + w + 1, d + w + 1 + w2))
      else None
  }

  /** The first artist start, from `hi` down to `lo`, at which the rest matches. */
  function TryStarts(s: string, lo: nat, hi: nat): Option<(nat, (string, string))>
    requires lo <= hi
  {
    LastSome(MatchAt(s), lo, hi)
  }

  /** `MatchFrom` as a function of the start, with no match past the end. */
  function MatchAt(s: string): nat -> Option<(string, string)> {
    (st: nat) => if st <= |s| then MatchFrom(s, st) else None
  }

  /** The first of `f(hi)`, `f(hi - 1)`, ..., `f(lo)` that is present, with where it was found. */
  function LastSome<X>(f: nat -> Option<X>, lo: nat, hi: nat): (r: Option<(nat, X)>)
    requires lo <= hi
    ensures r.Some? ==> lo <= r.value.0 <= hi && f(r.value.0) == Some(r.value.1)
    decreases hi - lo
  {
    match f(hi)
    case Some(m) => Some((hi, m))
    case None => if hi == lo then None else LastSome(f, lo, hi - 1)
  }

  /** What a successful match captured: the number (when the group took part), the artist and the rest. */
  datatype DedupMatch = DedupMatch(num: Option<string>, artist: string, rest: string)

  /** `pat.match(stem)`: with the number group first, then without it. */
  function MatchDedup(s: string): Option<DedupMatch> {
    var withNum :=
      match NumberPrefix(s)
      case None => None
      case Some((d, lo, hi)) =>
        match TryStarts(s, lo, hi)
        case None => None
        case Some((_, m)) => Some(DedupMatch(Some(s[..d]), m.0, m.1));
    if withNum.Some? then withNum
    else
      match MatchFrom(s, 0)
      case None => None
      case Some(m) => Some(DedupMatch(None, m.0, m.1))
  }

  /** `f"{prefix}{a.strip()} - {rest.strip()}"` with `prefix = num + " - "` when there is a number. */
  function DedupStem(m: DedupMatch): string {
    NumPrefix(m.num) + Trim(m.artist) + " - " + Trim(m.rest)
  }

  function NumPrefix(num: Option<string>): string {
    match num
    case Some(n) => n + " - "
    case None => ""
  }

  /** Without a number the new stem is just `A - rest`, each part stripped. */
  lemma UnnumberedStem(a: string, rest: string)
    ensures DedupStem(DedupMatch(None, a, rest)) == Trim(a) + " - " + Trim(rest)
  {
    var x, y := Trim(a), Trim(rest);
    EmptyPrefix(x + " - " + y);
    AppendAssoc("", x, " - ");
    AppendAssoc("" + x, " - ", y);
    AppendAssoc("", x + " - ", y);
  }

  lemma EmptyPrefix<T>(x: seq<T>)
    ensures [] + x == x
  {
  }

  /**
   * `s` read from `st` as the pattern after the number: a `-`-free artist,
   * a space, `-`, a space, the artist again (ignoring case), a space, `-`,
   * a space, and a non-empty rest without newline that ends the stem or is
   * followed by one final newline.
   */
  predicate ArtistRepeatAt(s: string, st: nat, artist: string, rest: string) {
    var len := |artist|;
    && len >= 1 && '-' !in artist && st + 2 * len + 6 <= |s|
    && s[st..st + len] == artist
    && DashBetweenSpaces(s, st + len + 1)
    && SameIgnoringCase(s[st + len + 3..st + 2 * len + 3], artist)
    && DashBetweenSpaces(s, st + 2 * len + 4)
    && rest != "" && '\n' !in rest
    && (s[st + 2 * len + 6..] == rest || s[st + 2 * len + 6..] == rest + "\n")
  }

  /** What `RestAt` finds is a newline-free rest that reaches the end or a final newline. */
  lemma RestAtSound(s: string, q: nat)
    requires q <= |s| && RestAt(s, q).Some?
    ensures var rest := RestAt(s, q).value;
      rest != "" && '\n' !in rest && (s[q..] == rest || s[q..] == rest + "\n")
  {
    var k := CharFrom(s, '\n', q);
    var rest := s[q..k];
    forall i | 0 <= i < |rest| ensures rest[i] != '\n' {
      assert rest[i] == s[q + i];
    }
    if k == |s| - 1 {
      assert s[q..] == rest + [s[k]];
    }
  }

  lemma RestAtComplete(s: string, q: nat, rest: string)
    requires q <= |s| && rest != "" && '\n' !in rest && (s[q..] == rest || s[q..] == rest + "\n")
    ensures RestAt(s, q) == Some(rest)
  {
    var k := q + |rest|;
    forall i | q <= i < k ensures s[i] != '\n' {
      assert s[i] == s[q..][i - q] == rest[i - q];
    }
    if k < |s| {
      assert s[k] == s[q..][|rest|] == '\n';
    }
    assert CharFrom(s, '\n', q) == k;
    assert s[q..k] == s[q..][..|rest|];
    if s[q..] != rest {
      assert s[q..] == rest + "\n";
      assert (rest + "\n")[..|rest|] == rest;
    }
    assert s[q..k] == rest;
    assert k == |s| || k == |s| - 1;
  }

  /** A match from `st` is a reading of the stem that the pattern allows. */
  lemma MatchFromSound(s: string, st: nat)
    requires st <= |s| && MatchFrom(s, st).Some?
    ensures ArtistRepeatAt(s, st, MatchFrom(s, st).value.0, MatchFrom(s, st).value.1)
  {
    var f := CharFrom(s, '-', st);
    var len := f - 1 - st;
    var g := f + len + 3;
    RestAtSound(s, g + 2);
    RepeatAtIntro(s, st, len, RestAt(s, g + 2).value);
  }

  /** The pieces `MatchFrom` checks, put together as a reading from `st`. */
  lemma RepeatAtIntro(s: string, st: nat, len: nat, rest: string)
    requires len >= 1 && st + 2 * len + 6 <= |s|
    requires forall i | st <= i < st + len :: s[i] != '-'
    requires DashBetweenSpaces(s, st + len + 1) && DashBetweenSpaces(s, st + 2 * len + 4)
    requires SameIgnoringCase(s[st + len + 3..st + 2 * len + 3], s[st..st + len])
    requires rest != "" && '\n' !in rest && (s[st + 2 * len + 6..] == rest || s[st + 2 * len + 6..] == rest + "\n")
    ensures ArtistRepeatAt(s, st, s[st..st + len], rest)
  {
    var artist := s[st..st + len];
    assert '-' !in artist by {
      forall i | 0 <= i < len ensures artist[i] != '-' {
        assert artist[i] == s[st + i];
      }
    }
  }

  /** Every reading from `st` that the pattern allows is the match from `st`. */
  lemma MatchFromComplete(s: string, st: nat, artist: string, rest: string)
    requires ArtistRepeatAt(s, st, artist, rest)
    ensures MatchFrom(s, st) == Some((artist, rest))
  {
    var len := |artist|;
    FirstDashAfterArtist(s, st, artist);
    RestAtComplete(s, st + 2 * len + 6, rest);
    MatchFromIs(s, st, len, rest);
  }

  /** `MatchFrom` when the first `-` after `st` is `len + 1` on and every later piece is in place. */
  lemma MatchFromIs(s: string, st: nat, len: nat, rest: string)
    requires len >= 1 && st + 2 * len + 6 <= |s| && CharFrom(s, '-', st) == st + len + 1
    requires DashBetweenSpaces(s, st + len + 1) && DashBetweenSpaces(s, st + 2 * len + 4)
    requires SameIgnoringCase(s[st + len + 3..st + 2 * len + 3], s[st..st + len])
    requires RestAt(s, st + 2 * len + 6) == Some(rest)
    ensures MatchFrom(s, st) == Some((s[st..st + len], rest))
  {
  }

  lemma FirstDashAfterArtist(s: string, st: nat, artist: string)
    requires st + |artist| + 2 <= |s| && s[st..st + |artist|] == artist && '-' !in artist
    requires DashBetweenSpaces(s, st + |artist| + 1)
    ensures CharFrom(s, '-', st) == st + |artist| + 1
  {
    var len := |artist|;
    forall i | st <= i < st + len + 1 ensures s[i] != '-' {
      if i < st + len {
        assert s[i] == s[st..st + len][i - st] == artist[i - st];
      }
    }
  }

  /** `\s*-\s*`: spaces, one `-`, spaces. */
  predicate SpacedDash(t: string) {
    DashAmong(t, IsSpace)
  }

  /** One `-`, and `sp` characters around it. */
  predicate DashAmong(t: string, sp: char -> bool) {
    exists q | 0 <= q < |t| :: t[q] == '-' && forall i | 0 <= i < |t| && i != q :: sp(t[i])
  }

  /** `s` read with the number group: digits `n`, then `\s*-\s*` up to `st`, then the rest of the pattern from `st`. */
  predicate NumberedReading(s: string, n: string, st: nat, artist: string, rest: string) {
    && IsDigits(n) && |n| <= st <= |s| && s[..|n|] == n
    && SpacedDash(s[|n|..st]) && ArtistRepeatAt(s, st, artist, rest)
  }

  lemma RunLengthIs(s: string, p: char -> bool, k: nat)
    requires k <= |s| && (forall i | 0 <= i < k :: p(s[i])) && (k < |s| ==> !p(s[k]))
    ensures RunLength(s, p) == k
  {
  }

  lemma RunLengthAtLeast(s: string, p: char -> bool, k: nat)
    requires k <= |s| && forall i | 0 <= i < k :: p(s[i])
    ensures RunLength(s, p) >= k
  {
  }

  /** Every artist start the number group allows follows digits and `\s*-\s*`. */
  lemma NumberPrefixSound(s: string, st: nat)
    requires NumberPrefix(s).Some? && NumberPrefix(s).value.1 <= st <= NumberPrefix(s).value.2
    ensures var d := NumberPrefix(s).value.0; IsDigits(s[..d]) && SpacedDash(s[d..st])
  {
    PrefixRangeSound(s, IsDigit, IsSpace, st);
  }

  lemma PrefixRangeSound(s: string, dig: char -> bool, sp: char -> bool, st: nat)
    requires PrefixRange(s, dig, sp).Some?
    requires PrefixRange(s, dig, sp).value.1 <= st <= PrefixRange(s, dig, sp).value.2
    ensures var d := PrefixRange(s, dig, sp).value.0;
      (forall i | 0 <= i < d :: dig(s[..d][i])) && DashAmong(s[d..st], sp)
  {
    var d := RunLength(s, dig);
    var w := RunLength(s[d..], sp);
    var w2 := RunLength(s[d + w + 1..], sp);
    var t := s[d..st];
    assert t[w] == '-';
    forall i | 0 <= i < |t| && i != w ensures sp(t[i]) {
      if i < w {
        assert t[i] == s[d..][i];
      } else {
        assert t[i] == s[d + w + 1..][i - w - 1];
      }
    }
    assert forall i | 0 <= i < d :: s[..d][i] == s[i];
  }

  /** Every reading with the number group falls in the range of starts the prefix allows. */
  lemma NumberPrefixComplete(s: string, n: string, st: nat)
    requires IsDigits(n) && |n| <= st <= |s| && s[..|n|] == n && SpacedDash(s[|n|..st])
    ensures NumberPrefix(s).Some?
    ensures NumberPrefix(s).value.0 == |n| && NumberPrefix(s).value.1 <= st <= NumberPrefix(s).value.2
  {
    forall i | 0 <= i < |n| ensures IsDigit(s[i]) {
      assert s[i] == s[..|n|][i];
    }
    SpaceNotDigit();
    PrefixRangeComplete(s, |n|, st, IsDigit, IsSpace);
  }

  lemma SpaceNotDigit()
    ensures forall c | IsSpace(c) :: !IsDigit(c)
  {
  }

  lemma PrefixRangeComplete(s: string, d: nat, st: nat, dig: char -> bool, sp: char -> bool)
    requires !dig('-') && !sp('-') && forall c | sp(c) :: !dig(c)
    requires 0 < d <= st <= |s| && (forall i | 0 <= i < d :: dig(s[i])) && DashAmong(s[d..st], sp)
    ensures PrefixRange(s, dig, sp).Some?
    ensures PrefixRange(s, dig, sp).value.0 == d
    ensures PrefixRange(s, dig, sp).value.1 <= st <= PrefixRange(s, dig, sp).value.2
  {
    var t := s[d..st];
    var q :| 0 <= q < |t| && t[q] == '-' && forall i | 0 <= i < |t| && i != q :: sp(t[i]);
    assert !dig(s[d]) by {
      assert s[d] == t[0];
    }
    RunLengthIs(s, dig, d);
    SpacesAround(s, d, t, q, sp);
    var w2 := RunLength(s[d + q + 1..], sp);
    PrefixRangeIs(s, dig, sp, d, q, w2);
    assert st == d + |t| && d + q + 1 <= st <= d + q + 1 + w2;
  }

  /** `PrefixRange` from the lengths of its three runs. */
  lemma {:induction false} PrefixRangeIs(s: string, dig: char -> bool, sp: char -> bool, d: nat, w: nat, w2: nat)
    requires d > 0 && RunLength(s, dig) == d && d + w < |s|
    requires RunLength(s[d..], sp) == w && s[d + w] == '-' && RunLength(s[d + w + 1..], sp) == w2
    ensures PrefixRange(s, dig, sp).Some?
    ensures PrefixRange(s, dig, sp).value.0 == d
    ensures PrefixRange(s, dig, sp).value.1 == d + w + 1
    ensures PrefixRange(s, dig, sp).value.2 == d + w + 1 + w2
  {
  }

  /** After the digits, the spaces end at the dash of `t`, and at least the rest of `t` is spaces after it. */
  lemma SpacesAround(s: string, d: nat, t: string, q: nat, sp: char -> bool)
    requires !sp('-') && d + |t| <= |s| && t == s[d..d + |t|]
    requires q < |t| && t[q] == '-' && forall i | 0 <= i < |t| && i != q :: sp(t[i])
    ensures RunLength(s[d..], sp) == q && s[d + q] == '-'
    ensures RunLength(s[d + q + 1..], sp) >= |t| - (q + 1)
  {
    var x := s[d..];
    forall i | 0 <= i < q ensures sp(x[i]) {
      assert x[i] == t[i];
    }
    assert x[q] == t[q];
    RunLengthIs(x, sp, q);
    var u := s[d + q + 1..];
    forall i | 0 <= i < |t| - (q + 1) ensures sp(u[i]) {
      assert u[i] == t[q + 1 + i];
    }
    RunLengthAtLeast(u, sp, |t| - (q + 1));
  }

  /** Trying the starts from `hi` down finds a match whenever one of them matches. */
  lemma {:induction false} LastSomeComplete<X>(f: nat -> Option<X>, lo: nat, hi: nat, st: nat)
    requires lo <= st <= hi && f(st).Some?
    ensures LastSome(f, lo, hi).Some?
    decreases hi - lo
  {
    if f(hi).None? {
      assert st < hi;
      LastSomeComplete(f, lo, hi - 1, st);
    }
  }

  /**
   * A match is a reading the pattern allows: without the number group from
   * the first character, or with it after the digits it captured.
   */
  lemma MatchDedupSound(s: string)
    requires MatchDedup(s).Some?
    ensures var m := MatchDedup(s).value;
      || (m.num.None? && ArtistRepeatAt(s, 0, m.artist, m.rest))
      || (m.num.Some? && exists st | 0 <= st <= |s| :: NumberedReading(s, m.num.value, st, m.artist, m.rest))
  {
    var m := MatchDedup(s).value;
    if m.num.Some? {
      var (d, lo, hi) := NumberPrefix(s).value;
      var (st, pair) := TryStarts(s, lo, hi).value;
      assert MatchAt(s)(st) == Some(pair);
      MatchFromSound(s, st);
      NumberPrefixSound(s, st);
      assert NumberedReading(s, m.num.value, st, m.artist, m.rest);
    } else {
      MatchFromSound(s, 0);
    }
  }

  /**
   * Whenever the pattern allows a reading, the stem matches; a reading with
   * the number group takes precedence, as the optional group is tried first.
   */
  lemma MatchDedupComplete(s: string, n: string, st: nat, artist: string, rest: string)
    requires ArtistRepeatAt(s, 0, artist, rest) || NumberedReading(s, n, st, artist, rest)
    ensures MatchDedup(s).Some?
    ensures NumberedReading(s, n, st, artist, rest) ==> MatchDedup(s).value.num.Some?
  {
    if NumberedReading(s, n, st, artist, rest) {
      NumberPrefixComplete(s, n, st);
      var (d, lo, hi) := NumberPrefix(s).value;
      MatchFromComplete(s, st, artist, rest);
      assert MatchAt(s)(st).Some?;
      LastSomeComplete(MatchAt(s), lo, hi, st);
    } else {
      MatchFromComplete(s, 0, artist, rest);
    }
  }

  /** The five pieces of a concatenation sit where their lengths say. */
  lemma FivePieces<T>(x: seq<T>, y: seq<T>, z: seq<T>, u: seq<T>, v: seq<T>)
    ensures var t := x + y + z + u + v;
      var i1 := |x|; var i2 := i1 + |y|; var i3 := i2 + |z|; var i4 := i3 + |u|;
      && t[..i1] == x && t[i1..i2] == y && t[i2..i3] == z && t[i3..i4] == u && t[i4..] == v
  {
  }

  /** `\s-\s` at `i` of `s`, seen at `i - st` in `s[st..]`. */
  lemma DashShift(s: string, st: nat, i: nat)
    requires st <= |s| && st < i && DashBetweenSpaces(s[st..], i - st)
    ensures DashBetweenSpaces(s, i)
  {
    var t := s[st..];
    assert s[i - 1] == t[i - st - 1] && s[i] == t[i - st] && s[i + 1] == t[i - st + 1];
  }

  lemma SliceOfDrop<T>(s: seq<T>, st: nat, i: nat, j: nat)
    requires st <= |s| && i <= j <= |s| - st
    ensures s[st..][i..j] == s[st + i..st + j]
  {
  }

  lemma DropOfDrop<T>(s: seq<T>, st: nat, i: nat)
    requires st + i <= |s|
    ensures s[st..][i..] == s[st + i..]
  {
  }

  /** `a - a2 - rest` written from `st` is a reading the pattern allows, with `a2` the artist again. */
  lemma RepeatShape(s: string, st: nat, a: string, a2: string, rest: string)
    requires st <= |s| && s[st..] == a + " - " + a2 + " - " + rest
    requires a != "" && '-' !in a && SameIgnoringCase(a2, a) && rest != "" && '\n' !in rest
    ensures ArtistRepeatAt(s, st, a, rest)
  {
    var len := |a|;
    assert |a2| == len by {
      assert |Lower(a2)| == |Lower(a)|;
    }
    var t := s[st..];
    FivePieces(a, " - ", a2, " - ", rest);
    assert t[len..len + 3] == " - ";
    assert t[2 * len + 3..2 * len + 6] == " - ";
    SliceOfDrop(s, st, 0, len);
    SliceOfDrop(s, st, len + 3, 2 * len + 3);
    DropOfDrop(s, st, 2 * len + 6);
    assert DashBetweenSpaces(t, len + 1) by {
      assert t[len] == ' ' && t[len + 1] == '-' && t[len + 2] == ' ';
    }
    DashShift(s, st, st + len + 1);
    assert DashBetweenSpaces(t, 2 * len + 4) by {
      assert t[2 * len + 3] == ' ' && t[2 * len + 4] == '-' && t[2 * len + 5] == ' ';
    }
    DashShift(s, st, st + 2 * len + 4);
  }

  /** `A - a - rest`, with no leading digit, reads as artist `A` and rest `rest` without a number. */
  lemma DedupPlain(a: string, a2: string, rest: string)
    requires a != "" && '-' !in a && !IsDigit(a[0]) && SameIgnoringCase(a2, a) && rest != "" && '\n' !in rest
    ensures MatchDedup(a + " - " + a2 + " - " + rest) == Some(DedupMatch(None, a, rest))
  {
    var s := a + " - " + a2 + " - " + rest;
    assert s[0..] == s;
    RepeatShape(s, 0, a, a2, rest);
    MatchFromComplete(s, 0, a, rest);
    assert s[0] == a[0];
    RunLengthIs(s, IsDigit, 0);
  }

  /**
   * `NN - A - a - rest` reads as number `NN`, artist `A` and rest `rest`
   * when `A` does not start with a space (the spaces after the first `-`
   * would otherwise be given back to it).
   */
  lemma DedupNumbered(n: string, a: string, a2: string, rest: string)
    requires IsDigits(n)
    requires a != "" && '-' !in a && !IsSpace(a[0]) && SameIgnoringCase(a2, a) && rest != "" && '\n' !in rest
    ensures MatchDedup(n + " - " + a + " - " + a2 + " - " + rest) == Some(DedupMatch(Some(n), a, rest))
  {
    var t := a + " - " + a2 + " - " + rest;
    var s := n + " - " + a + " - " + a2 + " - " + rest;
    assert s == n + " - " + t && t[0] == a[0];
    assert ArtistRepeatAt(s, |n| + 3, a, rest) by {
      assert s[|n| + 3..] == t;
      RepeatShape(s, |n| + 3, a, a2, rest);
    }
    assert s[..|n|] == n;
    NumberedPrefixShape(n, t);
    NumberedMatch(s, n, a, rest);
  }

  /** With the number prefix in place, the match is the reading right after it. */
  lemma NumberedMatch(s: string, n: string, a: string, rest: string)
    requires |n| <= |s| && s[..|n|] == n && NumberPrefix(s) == Some((|n|, |n| + 2, |n| + 3))
    requires ArtistRepeatAt(s, |n| + 3, a, rest)
    ensures MatchDedup(s) == Some(DedupMatch(Some(n), a, rest))
  {
    var d := |n|;
    MatchFromComplete(s, d + 3, a, rest);
    assert MatchAt(s)(d + 3) == Some((a, rest));
    assert TryStarts(s, d + 2, d + 3) == Some((d + 3, (a, rest)));
  }

  /** After `NN - `, the artist starts right after the one space when the next character is not a space. */
  lemma NumberedPrefixShape(n: string, t: string)
    requires IsDigits(n) && t != [] && !IsSpace(t[0])
    ensures NumberPrefix(n + " - " + t) == Some((|n|, |n| + 2, |n| + 3))
  {
    var s := n + " - " + t;
    var d := |n|;
    assert s[d] == ' ' && s[d + 1] == '-' && s[d + 2] == ' ' && s[d + 3] == t[0];
    assert forall i | 0 <= i < d :: s[i] == n[i];
    RunLengthIs(s, IsDigit, d);
    assert s[d..][0] == ' ' && s[d..][1] == '-';
    RunLengthIs(s[d..], IsSpace, 1);
    assert s[d + 2..][0] == ' ' && s[d + 2..][1] == t[0];
    RunLengthIs(s[d + 2..], IsSpace, 1);
  }
}
