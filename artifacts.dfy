/**
 * The derived artifacts written for a joined MP3: the CUE sheet, the ID3v2
 * chapter frames, the VLC segment playlist and the M3U8/M3U playlists.
 * Each writer walks the parts in join order, carrying a running offset.
 * Durations are whole milliseconds (what the duration probe yields); the
 * tags each part carries are inputs.
 */
module Artifacts {
  import opened Wrappers
  import opened Strings
  import opened Numbers
  import opened Paths

  /** What a writer learns about one part: its file name, the TIT2/TPE1 texts its tags supply, and its duration. */
  datatype Part = Part(name: string, tagTitle: Option<string>, tagArtist: Option<string>, durMs: nat)

  /** The title, artist and duration a writer uses for one part. */
  datatype Meta = Meta(title: string, artist: string, durMs: nat)

  /**
   * The title defaults to the stem and the artist to empty; each is taken
   * from the tags when they are read (`haveTags`) and supply it.
   */
  function MetaOf(p: Part, haveTags: bool): Meta {
    var title := if haveTags && p.tagTitle.Some? then p.tagTitle.value else Stem(p.name);
    var artist := if haveTags && p.tagArtist.Some? then p.tagArtist.value else "";
    Meta(title, artist, p.durMs)
  }

  function MetasOf(parts: seq<Part>, haveTags: bool): (r: seq<Meta>)
    ensures |r| == |parts| && forall k | 0 <= k < |parts| :: r[k] == MetaOf(parts[k], haveTags)
  {
    Map((p: Part) => MetaOf(p, haveTags), parts)
  }

  /** A part's duration, the step of most running offsets. */
  function Dur(m: Meta): nat {
    m.durMs
  }

  /** The running offset after the elements so far, each moving it on by `step`. */
  function Offset<X>(step: X -> nat, xs: seq<X>): nat
    decreases |xs|
  {
    if xs == [] then 0 else Offset(step, xs[..|xs| - 1]) + step(xs[|xs| - 1])
  }

  /**
   * The writers' common loop: element `k` (numbered from 1) is rendered as
   * a block of lines at the running offset of the elements before it, and
   * the blocks are appended in order.
   */
  function Rendered<X, T>(render: (nat, X, nat) -> seq<T>, step: X -> nat, xs: seq<X>): seq<T>
    decreases |xs|
  {
    if xs == [] then []
    else
      var init := xs[..|xs| - 1];
      Rendered(render, step, init) + render(|xs|, xs[|xs| - 1], Offset(step, init))
  }

  /** One more element moves the offset on by exactly its step. */
  lemma OffsetStep<X>(step: X -> nat, xs: seq<X>, k: nat)
    requires k < |xs|
    ensures Offset(step, xs[..k + 1]) == Offset(step, xs[..k]) + step(xs[k])
  {
    assert xs[..k + 1][..k] == xs[..k];
  }

  /** Offsets never decrease along the elements. */
  lemma {:induction false} OffsetMonotone<X>(step: X -> nat, xs: seq<X>, j: nat, k: nat)
    requires j <= k <= |xs|
    ensures Offset(step, xs[..j]) <= Offset(step, xs[..k])
    decreases k - j
  {
    if j < k {
      OffsetStep(step, xs, k - 1);
      OffsetMonotone(step, xs, j, k - 1);
    }
  }

  /** One more element appends its block. */
  lemma RenderedStep<X, T>(render: (nat, X, nat) -> seq<T>, step: X -> nat, xs: seq<X>, k: nat)
    requires k < |xs|
    ensures Rendered(render, step, xs[..k + 1]) == Rendered(render, step, xs[..k]) + render(k + 1, xs[k], Offset(step, xs[..k]))
  {
    assert xs[..k + 1][..k] == xs[..k];
  }

  /** A loop's step: from the output and offset after `k` elements to those after `k + 1`. */
  lemma RenderedNext<X, T>(render: (nat, X, nat) -> seq<T>, step: X -> nat, xs: seq<X>, k: nat, done: seq<T>, offset: nat)
    requires k < |xs| && done == Rendered(render, step, xs[..k]) && offset == Offset(step, xs[..k])
    ensures done + render(k + 1, xs[k], offset) == Rendered(render, step, xs[..k + 1])
    ensures offset + step(xs[k]) == Offset(step, xs[..k + 1])
  {
    RenderedStep(render, step, xs, k);
    OffsetStep(step, xs, k);
  }

  /** The output for the first `k` elements begins the output for all of them. */
  lemma {:induction false} RenderedPrefix<X, T>(render: (nat, X, nat) -> seq<T>, step: X -> nat, xs: seq<X>, k: nat)
    requires k <= |xs|
    ensures |Rendered(render, step, xs[..k])| <= |Rendered(render, step, xs)|
    ensures Rendered(render, step, xs)[..|Rendered(render, step, xs[..k])|] == Rendered(render, step, xs[..k])
    decreases |xs| - k
  {
    if k < |xs| {
      RenderedPrefix(render, step, xs, k + 1);
      RenderedStep(render, step, xs, k);
    } else {
      assert xs[..k] == xs;
    }
  }

  /**
   * Element `k` (0-based) is rendered with number `k + 1` at the offset of
   * the elements before it, right after their output.
   */
  lemma RenderedAt<X, T>(render: (nat, X, nat) -> seq<T>, step: X -> nat, xs: seq<X>, k: nat)
    requires k < |xs|
    ensures var at := |Rendered(render, step, xs[..k])|;
      var block := render(k + 1, xs[k], Offset(step, xs[..k]));
      && at + |block| <= |Rendered(render, step, xs)|
      && Rendered(render, step, xs)[at..at + |block|] == block
  {
    RenderedPrefix(render, step, xs, k + 1);
    RenderedStep(render, step, xs, k);
  }

  /** When every block has `w` lines, element `k`'s block starts at line `w * k`. */
  lemma {:induction false} RenderedFixed<X, T>(render: (nat, X, nat) -> seq<T>, step: X -> nat, xs: seq<X>, w: nat, k: nat)
    requires forall i, x, s :: |render(i, x, s)| == w
    requires k <= |xs|
    ensures |Rendered(render, step, xs[..k])| == w * k
    decreases k
  {
    if k > 0 {
      RenderedFixed(render, step, xs, w, k - 1);
      RenderedStep(render, step, xs, k - 1);
    } else {
      assert xs[..0] == [];
    }
  }

  /** With `w`-line blocks the output has `w` lines per element. */
  lemma RenderedLength<X, T>(render: (nat, X, nat) -> seq<T>, step: X -> nat, xs: seq<X>, w: nat)
    requires forall i, x, s :: |render(i, x, s)| == w
    ensures |Rendered(render, step, xs)| == w * |xs|
  {
    RenderedFixed(render, step, xs, w, |xs|);
    TakeAll(xs);
  }

  /** With `w`-line blocks, element `k`'s block is lines `w * k .. w * k + w`. */
  lemma RenderedFixedAt<X, T>(render: (nat, X, nat) -> seq<T>, step: X -> nat, xs: seq<X>, w: nat, k: nat)
    requires forall i, x, s :: |render(i, x, s)| == w
    requires k < |xs|
    ensures w * k + w <= |Rendered(render, step, xs)|
    ensures Rendered(render, step, xs)[w * k..w * k + w] == render(k + 1, xs[k], Offset(step, xs[..k]))
  {
    RenderedFixed(render, step, xs, w, k);
    RenderedAt(render, step, xs, k);
  }

  /** The running offset: the total duration of the parts so far. */
  function TotalMs(metas: seq<Meta>): nat {
    Offset(Dur, metas)
  }

  function Max(a: int, b: int): int {
    if a >= b then a else b
  }

  /** `"\n".join(lines) + "\n"` over the lines as written out. */
  function WrittenText<L>(text: L -> string, lines: seq<L>): string {
    Join(Map(text, lines), "\n") + "\n"
  }

  // ---------------------------------------------------------------------
  // CUE sheet (CDRWIN cue-sheet convention: INDEX times are mm:ss:ff at 75 frames per second)

  const FramesPerSecond: nat := 75

  /** `int(round(t * 75))` for `t` seconds given in milliseconds, ties to even. */
  function CueFrames(ms: nat): nat {
    var f := RoundHalfEven(ms * FramesPerSecond, 1000);
    assert f >= 0 by {
      assert -1000 <= 2 * (ms * FramesPerSecond - f * 1000);
    }
    f
  }

  /** Rounding keeps order: a later offset never gets an earlier index. */
  lemma CueFramesMonotone(a: nat, b: nat)
    requires a <= b
    ensures CueFrames(a) <= CueFrames(b)
  {
  }

  /** `mm`, `ss` and `ff` of an INDEX. */
  datatype CueTime = CueTime(mm: nat, ss: nat, ff: nat)

  function CueTimeOf(frames: nat): CueTime {
    CueTime(frames / (60 * FramesPerSecond), (frames / FramesPerSecond) % 60, frames % FramesPerSecond)
  }

  /** The three fields are a mixed-radix reading of the frame count. */
  lemma CueTimeParts(frames: nat)
    ensures var t := CueTimeOf(frames);
      t.ss < 60 && t.ff < 75 && 4500 * t.mm + 75 * t.ss + t.ff == frames
  {
    var s := frames / 75;
    assert frames == 75 * s + frames % 75;
    assert s == 60 * (s / 60) + s % 60;
    assert frames / 4500 == s / 60;
  }

  /** One line of a CUE sheet, before it is written out as text. */
  datatype CueLine =
    | CueTitle(title: string)
    | CuePerformer(performer: string)
    | CueFileLine(file: string)
    | Track(number: nat)
    | TrackPerformer(performer: string)
    | TrackTitle(title: string)
    | TrackIndex(frames: nat)

  function Quoted(s: string): string {
    "\"" + s + "\""
  }

  /** The text of a CUE line: track numbers and INDEX fields are two-digit, zero-padded. */
  function CueLineText(l: CueLine): string {
    match l
    case CueTitle(t) => "TITLE " + Quoted(t)
    case CuePerformer(a) => "PERFORMER " + Quoted(a)
    case CueFileLine(f) => "FILE " + Quoted(f) + " MP3"
    case Track(i) => "  TRACK " + Pad2(i) + " AUDIO"
    case TrackPerformer(a) => "    PERFORMER " + Quoted(a)
    case TrackTitle(t) => "    TITLE " + Quoted(t)
    case TrackIndex(frames) =>
      var t := CueTimeOf(frames);
      "    INDEX 01 " + Pad2(t.mm) + ":" + Pad2(t.ss) + ":" + Pad2(t.ff)
  }

  /** The lines of track `i` starting at `startMs`. */
  function TrackLines(i: nat, m: Meta, startMs: nat): seq<CueLine> {
    [Track(i)]
    + (if m.artist != "" then [TrackPerformer(m.artist)] else [])
    + [TrackTitle(m.title), TrackIndex(CueFrames(startMs))]
  }

  /** The track lines for the parts, numbered from 1, each indexed at the offset of the parts before it. */
  function CueTracks(metas: seq<Meta>): seq<CueLine> {
    Rendered(TrackLines, Dur, metas)
  }

  /** The album title is the joined file's stem; the album performer is the first part's artist, if any. */
  function CueHeader(joined: string, metas: seq<Meta>): seq<CueLine> {
    [CueTitle(Stem(joined))]
    + (if metas != [] && metas[0].artist != "" then [CuePerformer(metas[0].artist)] else [])
    + [CueFileLine(joined)]
  }

  function CueLines(joined: string, metas: seq<Meta>): seq<CueLine> {
    CueHeader(joined, metas) + CueTracks(metas)
  }

  /** `write_cue_for_joined`: the `.cue` next to the joined MP3 and its text; nothing without the tag library. */
  function WriteCue(joined: string, parts: seq<Part>, haveMutagen: bool): Option<(string, string)> {
    if haveMutagen then
      Some((WithSuffix(joined, ".cue"), WrittenText(CueLineText, CueLines(joined, MetasOf(parts, true)))))
    else None
  }

  /** The track loop: `t` is the running offset, `i` the track number. */
  method CueTrackLoop(metas: seq<Meta>) returns (lines: seq<CueLine>)
    ensures lines == CueTracks(metas)
  {
    lines := [];
    var t: nat := 0;
    for i := 1 to |metas| + 1
      invariant lines == Rendered(TrackLines, Dur, metas[..i - 1]) && t == Offset(Dur, metas[..i - 1])
    {
      var m := metas[i - 1];
      var frames := CueFrames(t);
      var block := [Track(i)];
      if m.artist != "" {
        block := block + [TrackPerformer(m.artist)];
      }
      block := block + [TrackTitle(m.title)];
      block := block + [TrackIndex(frames)];
      assert block == TrackLines(i, m, t);
      RenderedNext(TrackLines, Dur, metas, i - 1, lines, t);
      lines := lines + block;
      t := t + m.durMs;
    }
    TakeAll(metas);
  }

  /**
   * Track `k` (0-based) is the block numbered `k + 1`, placed right after
   * the tracks before it, titled with its part's title, and indexed at the
   * total duration of the parts before it; a later track never gets an
   * earlier index.
   */
  lemma CueTrackAt(metas: seq<Meta>, k: nat)
    requires k < |metas|
    ensures var at := |CueTracks(metas[..k])|;
      var start := TotalMs(metas[..k]);
      var block := TrackLines(k + 1, metas[k], start);
      && at + |block| <= |CueTracks(metas)|
      && CueTracks(metas)[at..at + |block|] == block
      && block[0] == Track(k + 1)
      && block[|block| - 2] == TrackTitle(metas[k].title)
      && block[|block| - 1] == TrackIndex(CueFrames(start))
      && (forall j | 0 <= j < k :: CueFrames(TotalMs(metas[..j])) <= CueFrames(start))
  {
    RenderedAt(TrackLines, Dur, metas, k);
    forall j | 0 <= j < k ensures CueFrames(TotalMs(metas[..j])) <= CueFrames(TotalMs(metas[..k])) {
      OffsetMonotone(Dur, metas, j, k);
      CueFramesMonotone(TotalMs(metas[..j]), TotalMs(metas[..k]));
    }
  }

  /** The parts with an artist, by index. */
  function WithArtist(metas: seq<Meta>): set<nat> {
    set k: nat | k < |metas| && metas[k].artist != ""
  }

  /** The track lines number three per part plus one per part with an artist. */
  lemma {:induction false} CueTracksLength(metas: seq<Meta>)
    ensures |CueTracks(metas)| == 3 * |metas| + |WithArtist(metas)|
    decreases |metas|
  {
    if metas != [] {
      var n := |metas|;
      var init := metas[..n - 1];
      CueTracksLength(init);
      WithArtistStep(metas);
      assert |CueTracks(metas)| == |CueTracks(init)| + |TrackLines(n, metas[n - 1], Offset(Dur, init))|;
    }
  }

  /** One more part adds its index to the parts with an artist exactly when it has one. */
  lemma WithArtistStep(metas: seq<Meta>)
    requires metas != []
    ensures |WithArtist(metas)| == |WithArtist(metas[..|metas| - 1])| + (if metas[|metas| - 1].artist != "" then 1 else 0)
  {
    var n := |metas|;
    var init := metas[..n - 1];
    assert n - 1 !in WithArtist(init);
    assert WithArtist(metas) == WithArtist(init) + (if metas[n - 1].artist != "" then {n - 1} else {});
  }

  // ---------------------------------------------------------------------
  // ID3v2 chapters (ID3v2 Chapter Frame Addendum, section 3.1 CHAP and section 3.2 CTOC)

  /** A CHAP frame: element id, start and end time in milliseconds, and its TIT2 and optional TPE1 sub-frames. */
  datatype Chapter = Chapter(id: string, startMs: nat, endMs: nat, title: string, artist: Option<string>)

  /** The CTOC frame: element id, flags, child element ids in order, and its TIT2. */
  datatype Toc = Toc(id: string, flags: nat, children: seq<string>, title: string)

  /** `chp<k>` */
  function ChapterId(k: nat): string {
    "chp" + NatToString(k)
  }

  lemma ChapterIdInjective(j: nat, k: nat)
    ensures j != k ==> ChapterId(j) != ChapterId(k)
  {
    if ChapterId(j) == ChapterId(k) {
      assert ChapterId(j)[3..] == NatToString(j);
      assert ChapterId(k)[3..] == NatToString(k);
      NatToStringInjective(j, k);
    }
  }

  /** Flags 0x03: the top-level bit (0x02) and the ordered bit (0x01) of section 3.2. */
  const TocFlags: nat := 0x03

  /** Chapter `i`, starting at `startMs` and lasting its part's duration. */
  function ChapterOf(i: nat, m: Meta, startMs: nat): Chapter {
    Chapter(ChapterId(i), startMs, startMs + m.durMs, m.title, if m.artist != "" then Some(m.artist) else None)
  }

  function ChapterBlock(i: nat, m: Meta, startMs: nat): seq<Chapter> {
    [ChapterOf(i, m, startMs)]
  }

  function Chapters(metas: seq<Meta>): seq<Chapter> {
    Rendered(ChapterBlock, Dur, metas)
  }

  function ChapterIds(chapters: seq<Chapter>): (r: seq<string>)
    ensures |r| == |chapters| && forall k | 0 <= k < |chapters| :: r[k] == chapters[k].id
  {
    Map((c: Chapter) => c.id, chapters)
  }

  /** The TOC lists every chapter in join order, titled with the joined file's stem. */
  function TocOf(joinedStem: string, chapters: seq<Chapter>): Toc {
    Toc("toc", TocFlags, ChapterIds(chapters), joinedStem)
  }

  /** `embed_id3_chapters`: the frames added to the joined file; nothing without the tag library. */
  function ChapterFrames(joined: string, parts: seq<Part>, haveMutagen: bool): Option<(seq<Chapter>, Toc)> {
    if haveMutagen then
      var chapters := Chapters(MetasOf(parts, true));
      Some((chapters, TocOf(Stem(joined), chapters)))
    else None
  }

  /** The chapter loop: `start_ms` is the running offset, `ids` the element ids so far. */
  method EmbedChapters(joinedStem: string, metas: seq<Meta>) returns (chapters: seq<Chapter>, toc: Toc)
    ensures chapters == Chapters(metas)
    ensures toc == TocOf(joinedStem, Chapters(metas))
  {
    chapters := [];
    var ids: seq<string> := [];
    var startMs: nat := 0;
    for idx := 1 to |metas| + 1
      invariant chapters == Rendered(ChapterBlock, Dur, metas[..idx - 1]) && startMs == Offset(Dur, metas[..idx - 1])
      invariant ids == ChapterIds(chapters)
    {
      var m := metas[idx - 1];
      var endMs := startMs + m.durMs;
      var chap := Chapter(ChapterId(idx), startMs, endMs, m.title, if m.artist != "" then Some(m.artist) else None);
      ChapterNext(metas, idx, chapters, startMs);
      ChapterIdsAppend(chapters, chap);
      chapters := chapters + [chap];
      ids := ids + [chap.id];
      startMs := endMs;
    }
    TakeAll(metas);
    toc := Toc("toc", TocFlags, ids, joinedStem);
  }

  /** The loop's step: chapter `idx` follows the chapters before it, at the offset they reach. */
  lemma ChapterNext(metas: seq<Meta>, idx: nat, chapters: seq<Chapter>, startMs: nat)
    requires 1 <= idx <= |metas|
    requires chapters == Rendered(ChapterBlock, Dur, metas[..idx - 1]) && startMs == Offset(Dur, metas[..idx - 1])
    ensures chapters + [ChapterOf(idx, metas[idx - 1], startMs)] == Rendered(ChapterBlock, Dur, metas[..idx])
    ensures startMs + metas[idx - 1].durMs == Offset(Dur, metas[..idx])
  {
    RenderedNext(ChapterBlock, Dur, metas, idx - 1, chapters, startMs);
  }

  lemma ChapterIdsAppend(chapters: seq<Chapter>, c: Chapter)
    ensures ChapterIds(chapters + [c]) == ChapterIds(chapters) + [c.id]
  {
  }

  /** Chapter `k` (0-based) is `chp<k+1>` at the total duration of the parts before it. */
  lemma ChapterAt(metas: seq<Meta>, k: nat)
    requires k < |metas|
    ensures |Chapters(metas)| == |metas|
    ensures Chapters(metas)[k] == ChapterOf(k + 1, metas[k], TotalMs(metas[..k]))
  {
    RenderedLength(ChapterBlock, Dur, metas, 1);
    RenderedFixedAt(ChapterBlock, Dur, metas, 1, k);
    var cs := Chapters(metas);
    assert cs[k] == cs[k..k + 1][0];
  }

  /**
   * The chapter intervals are contiguous and in order: the first starts at
   * 0, each ends its part's duration after it starts, and the next starts
   * where it ends.
   */
  lemma ChaptersContiguous(metas: seq<Meta>)
    ensures var cs := Chapters(metas);
      && |cs| == |metas|
      && (cs != [] ==> cs[0].startMs == 0)
      && (forall k | 0 <= k < |cs| :: cs[k].endMs == cs[k].startMs + metas[k].durMs)
      && (forall k | 0 <= k < |cs| - 1 :: cs[k + 1].startMs == cs[k].endMs)
  {
    RenderedLength(ChapterBlock, Dur, metas, 1);
    if metas != [] {
      ChapterAt(metas, 0);
    }
    forall k | 0 <= k < |metas| ensures Chapters(metas)[k].endMs == Chapters(metas)[k].startMs + metas[k].durMs {
      ChapterAt(metas, k);
    }
    forall k | 0 <= k < |metas| - 1 ensures Chapters(metas)[k + 1].startMs == Chapters(metas)[k].endMs {
      ChapterAt(metas, k);
      ChapterAt(metas, k + 1);
      OffsetStep(Dur, metas, k);
    }
  }

  /** No two chapters share an element id. */
  lemma ChapterIdsDistinct(metas: seq<Meta>)
    ensures forall j, k | 0 <= j < k < |Chapters(metas)| :: Chapters(metas)[j].id != Chapters(metas)[k].id
  {
    RenderedLength(ChapterBlock, Dur, metas, 1);
    forall j, k | 0 <= j < k < |metas| ensures Chapters(metas)[j].id != Chapters(metas)[k].id {
      ChapterAt(metas, j);
      ChapterAt(metas, k);
      ChapterIdInjective(j + 1, k + 1);
    }
  }

  /** The TOC is the top-level, ordered table listing `chp1`, `chp2`, ... in join order. */
  lemma TocListsChapters(joinedStem: string, metas: seq<Meta>)
    ensures var toc := TocOf(joinedStem, Chapters(metas));
      && |toc.children| == |metas|
      && (forall k | 0 <= k < |metas| :: toc.children[k] == ChapterId(k + 1))
      && (toc.flags / 2) % 2 == 1 && toc.flags % 2 == 1
  {
    RenderedLength(ChapterBlock, Dur, metas, 1);
    forall k | 0 <= k < |metas| ensures TocOf(joinedStem, Chapters(metas)).children[k] == ChapterId(k + 1) {
      ChapterAt(metas, k);
    }
  }

  // ---------------------------------------------------------------------
  // Display text shared by the VLC and M3U8 writers

  /** `f"{artist + ' - ' if artist else ''}{title}".replace('\n', ' ').lstrip('#').strip()` */
  function Display(title: string, artist: string): string {
    var raw := (if artist != "" then artist + " - " else "") + title;
    Trim(LStrip(ReplaceChar(raw, '\n', " "), IsHash))
  }

  /** The display text has no newline, and neither starts nor ends with whitespace. */
  lemma DisplayClean(title: string, artist: string)
    ensures var d := Display(title, artist);
      && '\n' !in d
      && (d == [] || (!IsSpace(d[0]) && !IsSpace(d[|d| - 1])))
  {
    var raw := (if artist != "" then artist + " - " else "") + title;
    ReplaceCharFacts(raw, '\n', " ");
    StripKeepsOut(ReplaceChar(raw, '\n', " "), IsHash, IsSpace, '\n');
  }

  /** A slice holds no character its sequence does not. */
  lemma SliceKeepsOut(s: string, a: nat, b: nat, c: char)
    requires a <= b <= |s| && c !in s
    ensures c !in s[a..b]
  {
    assert forall i | 0 <= i < b - a :: s[a..b][i] == s[a + i];
  }

  /** Stripping (twice, possibly different characters) brings in no character that was not there. */
  lemma StripKeepsOut(s: string, first: char -> bool, second: char -> bool, c: char)
    requires c !in s
    ensures c !in Strip(LStrip(s, first), second)
  {
    var l := LStrip(s, first);
    SliceKeepsOut(s, |s| - |l|, |s|, c);
    var f := LStrip(l, second);
    SliceKeepsOut(l, |l| - |f|, |l|, c);
    SliceKeepsOut(f, 0, |RStrip(f, second)|, c);
  }

  /** One line of an M3U playlist, before it is written out as text. */
  datatype M3uLine =
    | ExtM3u
    | ExtInf(secs: int, disp: string)
    | VlcStart(secs: int)
    | VlcStop(secs: int)
    | Location(path: string)

  function M3uLineText(l: M3uLine): string {
    match l
    case ExtM3u => "#EXTM3U"
    case ExtInf(secs, disp) => "#EXTINF:" + IntToString(secs) + "," + disp
    case VlcStart(secs) => "#EXTVLCOPT:start-time=" + IntToString(secs)
    case VlcStop(secs) => "#EXTVLCOPT:stop-time=" + IntToString(secs)
    case Location(path) => path
  }

  /** `int(round(x))` for `x` seconds given in milliseconds. */
  function RoundSeconds(ms: nat): int {
    RoundHalfEven(ms, 1000)
  }

  // ---------------------------------------------------------------------
  // VLC segment playlist

  /** What a segment needs of its part: the display text and the duration. */
  datatype Segment = Segment(disp: string, durMs: nat)

  function SegmentOf(m: Meta): Segment {
    Segment(Display(m.title, m.artist), m.durMs)
  }

  function SegmentsOf(metas: seq<Meta>): (r: seq<Segment>)
    ensures |r| == |metas| && forall k | 0 <= k < |metas| :: r[k] == SegmentOf(metas[k])
  {
    Map(SegmentOf, metas)
  }

  /** Each segment spans `max(dur, 0.1)` seconds. */
  function SpanMs(g: Segment): nat {
    Max(g.durMs, 100)
  }

  /** The running start of the VLC segments: the total of the spans so far. */
  function SpanTotal(segs: seq<Segment>): nat {
    Offset(SpanMs, segs)
  }

  /** The four lines of one segment of `joined` from `startMs` on. */
  function SegmentLines(joined: string, g: Segment, startMs: nat): seq<M3uLine> {
    var end := startMs + SpanMs(g);
    [ExtInf(Max(1, RoundSeconds(end - startMs)), g.disp),
     VlcStart(RoundSeconds(startMs)),
     VlcStop(RoundSeconds(end)),
     Location(joined)]
  }

  function SegmentBlock(joined: string): (nat, Segment, nat) -> seq<M3uLine> {
    (i: nat, g: Segment, startMs: nat) => SegmentLines(joined, g, startMs)
  }

  function VlcSegments(joined: string, segs: seq<Segment>): seq<M3uLine> {
    Rendered(SegmentBlock(joined), SpanMs, segs)
  }

  /** `write_vlc_segment_playlist`: the segment playlist's name and text; tags are read only when the tag library is there. */
  function WriteVlc(joined: string, parts: seq<Part>, haveTags: bool): (string, string) {
    (Stem(joined) + ".vlc-segments.m3u",
     WrittenText(M3uLineText, [ExtM3u] + VlcSegments(joined, SegmentsOf(MetasOf(parts, haveTags)))))
  }

  lemma SegmentBlockIs(joined: string, i: nat, g: Segment, startMs: nat)
    ensures SegmentBlock(joined)(i, g, startMs) == SegmentLines(joined, g, startMs)
  {
  }

  /** The segment loop: `start` is the running offset, and four lines are appended per part. */
  method VlcSegmentLoop(joined: string, segs: seq<Segment>) returns (lines: seq<M3uLine>)
    ensures lines == [ExtM3u] + VlcSegments(joined, segs)
  {
    lines := [ExtM3u];
    var start: nat := 0;
    for i := 0 to |segs|
      invariant lines == [ExtM3u] + Rendered(SegmentBlock(joined), SpanMs, segs[..i])
      invariant start == Offset(SpanMs, segs[..i])
    {
      var g := segs[i];
      var end := start + Max(g.durMs, 100);
      var secs := Max(1, RoundSeconds(end - start));
      var block := [ExtInf(secs, g.disp), VlcStart(RoundSeconds(start)), VlcStop(RoundSeconds(end)), Location(joined)];
      assert block == SegmentLines(joined, g, start);
      SegmentBlockIs(joined, i + 1, g, start);
      RenderedNext(SegmentBlock(joined), SpanMs, segs, i, lines[1..], start);
      AppendAssoc([ExtM3u], lines[1..], block);
      lines := lines + block;
      start := end;
    }
    TakeAll(segs);
  }

  /**
   * Exactly four lines per part: segment `k` (0-based) is lines
   * `4k .. 4k + 4`, starting at the total span of the segments before it
   * and stopping its span later, where the next one starts.
   */
  lemma SegmentAt(joined: string, segs: seq<Segment>, k: nat)
    requires k < |segs|
    ensures |VlcSegments(joined, segs)| == 4 * |segs|
    ensures VlcSegments(joined, segs)[4 * k..4 * k + 4] == SegmentLines(joined, segs[k], SpanTotal(segs[..k]))
    ensures SpanTotal(segs[..k + 1]) == SpanTotal(segs[..k]) + SpanMs(segs[k])
  {
    RenderedLength(SegmentBlock(joined), SpanMs, segs, 4);
    RenderedFixedAt(SegmentBlock(joined), SpanMs, segs, 4, k);
    OffsetStep(SpanMs, segs, k);
  }

  /**
   * A segment spans at least 100 ms and at least its part, so segment
   * starts strictly increase; its `#EXTINF` length is at least one second,
   * and its start and stop options are the rounded start and end.
   */
  lemma SpanFacts(joined: string, g: Segment, startMs: nat)
    ensures SpanMs(g) >= 100 && SpanMs(g) >= g.durMs
    ensures var lines := SegmentLines(joined, g, startMs);
      && lines[0].ExtInf? && lines[0].secs >= 1 && lines[0].disp == g.disp
      && lines[1] == VlcStart(RoundSeconds(startMs))
      && lines[2] == VlcStop(RoundSeconds(startMs + SpanMs(g)))
      && lines[3] == Location(joined)
  {
  }

  // ---------------------------------------------------------------------
  // M3U8 / M3U playlists

  /** `(fmt or "M3U8").upper()` */
  function PlaylistFormat(fmt: Option<string>): string {
    Upper(if fmt.None? || fmt.value == "" then "M3U8" else fmt.value)
  }

  predicate WritesM3u8(format: string) {
    format == "M3U8" || format == "BOTH"
  }

  predicate WritesM3u(format: string) {
    format == "M3U" || format == "BOTH"
  }

  /** One playlist entry: file name, whole seconds and display text. */
  datatype Entry = Entry(name: string, durS: int, disp: string)

  function EntryOf(p: Part, haveTags: bool): Entry {
    var m := MetaOf(p, haveTags);
    Entry(p.name, RoundSeconds(p.durMs), Display(m.title, m.artist))
  }

  function EntriesOf(parts: seq<Part>, haveTags: bool): (r: seq<Entry>)
    ensures |r| == |parts| && forall k | 0 <= k < |parts| :: r[k] == EntryOf(parts[k], haveTags)
  {
    Map((p: Part) => EntryOf(p, haveTags), parts)
  }

  /** An entry's two lines; playlists carry no running offset. */
  function EntryLines(i: nat, e: Entry, offset: nat): seq<M3uLine> {
    [ExtInf(e.durS, e.disp), Location(e.name)]
  }

  function NoOffset(e: Entry): nat {
    0
  }

  function M3u8Body(entries: seq<Entry>): seq<M3uLine> {
    Rendered(EntryLines, NoOffset, entries)
  }

  function Names(parts: seq<Part>): (r: seq<string>)
    ensures |r| == |parts| && forall k | 0 <= k < |parts| :: r[k] == parts[k].name
  {
    Map((p: Part) => p.name, parts)
  }

  /** The bare names, one per line, with a final newline. */
  function M3uText(names: seq<string>): string {
    Join(names, "\n") + "\n"
  }

  /** The playlist files written: `<name>.m3u8` and `<name>.m3u`, each with its text, when selected. */
  datatype Playlists = Playlists(m3u8: Option<(string, string)>, m3u: Option<(string, string)>)

  /** `write_playlist` */
  function WritePlaylist(name: string, parts: seq<Part>, fmt: Option<string>, haveTags: bool): Playlists {
    var format := PlaylistFormat(fmt);
    Playlists(
      if WritesM3u8(format) then Some((name + ".m3u8", WrittenText(M3uLineText, [ExtM3u] + M3u8Body(EntriesOf(parts, haveTags))))) else None,
      if WritesM3u(format) then Some((name + ".m3u", M3uText(Names(parts)))) else None)
  }

  /** The M3U8 loop: an `#EXTINF` line and a name line per entry. */
  method M3u8Loop(entries: seq<Entry>) returns (lines: seq<M3uLine>)
    ensures lines == [ExtM3u] + M3u8Body(entries)
  {
    lines := [ExtM3u];
    for i := 0 to |entries|
      invariant lines == [ExtM3u] + Rendered(EntryLines, NoOffset, entries[..i])
    {
      var e := entries[i];
      RenderedStep(EntryLines, NoOffset, entries, i);
      lines := lines + [ExtInf(e.durS, e.disp)];
      lines := lines + [Location(e.name)];
    }
    TakeAll(entries);
  }

  /** Entry `k` is the `#EXTINF` line and the name at lines `2k`, `2k + 1` of the body. */
  lemma EntryAt(entries: seq<Entry>, k: nat)
    requires k < |entries|
    ensures |M3u8Body(entries)| == 2 * |entries|
    ensures M3u8Body(entries)[2 * k] == ExtInf(entries[k].durS, entries[k].disp)
    ensures M3u8Body(entries)[2 * k + 1] == Location(entries[k].name)
  {
    RenderedLength(EntryLines, NoOffset, entries, 2);
    RenderedFixedAt(EntryLines, NoOffset, entries, 2, k);
    var body := M3u8Body(entries);
    assert body[2 * k] == body[2 * k..2 * k + 2][0];
    assert body[2 * k + 1] == body[2 * k..2 * k + 2][1];
  }

  /**
   * The M3U8 file is written iff the format is `M3U8` or `BOTH`, the M3U
   * file iff it is `M3U` or `BOTH`; any other format writes neither.
   */
  lemma PlaylistSelection(name: string, parts: seq<Part>, fmt: Option<string>, haveTags: bool)
    ensures var w := WritePlaylist(name, parts, fmt, haveTags);
      var f := PlaylistFormat(fmt);
      && (w.m3u8.Some? <==> (f == "M3U8" || f == "BOTH"))
      && (w.m3u.Some? <==> (f == "M3U" || f == "BOTH"))
  {
  }

  /** A missing or empty format means M3U8, and the format is read in any case. */
  lemma PlaylistDefault(fmt: Option<string>)
    ensures (fmt.None? || fmt == Some("")) ==> PlaylistFormat(fmt) == "M3U8"
    ensures PlaylistFormat(Some("both")) == "BOTH" && PlaylistFormat(Some("m3u")) == "M3U"
  {
    assert Upper("M3U8") == "M3U8";
    assert Upper("both") == "BOTH";
    assert Upper("m3u") == "M3U";
  }

  /** The M3U file reads back as the file names, when there are any and none holds a line break. */
  lemma M3uReadsBack(names: seq<string>)
    requires |names| >= 1 && forall k | 0 <= k < |names| :: NoLineBreak(names[k])
    ensures SplitLines(M3uText(names)) == names
  {
    SplitLinesOfWritten(names);
  }
}
