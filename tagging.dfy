/**
 * `write_id3_tags_mutagen`: which ID3 text frames the tagger overwrites.
 * A file's tag is a map from frame id to the texts of the frames with
 * that id; mutagen's `delall(id)` and `add(frame)` are the two updates.
 */
module Tagging {

  import opened Wrappers
  import opened Paths
  import opened Filenames

  /** Frame id to the texts of the frames carrying it, in the order they were added. */
  type Frames = map<string, seq<string>>

  const Title: string := "TIT2"
  const Artist: string := "TPE1"
  const Album: string := "TALB"
  const Track: string := "TRCK"

  /** Python truthiness of an optional string: present and not empty. */
  predicate Given(v: Option<string>) {
    v.Some? && v.value != ""
  }

  /** The texts under `id`, none when no frame has it. */
  function TextsOf(frames: Frames, id: string): seq<string> {
    if id in frames then frames[id] else []
  }

  /** `if v: id3.delall(id); id3.add(Frame(text=v))` */
  function Overwrite(frames: Frames, id: string, v: Option<string>): Frames {
    if Given(v) then (frames - {id})[id := [v.value]] else frames
  }

  /** The four guarded overwrites, in the order the tagger applies them. */
  function Tagged(frames: Frames, p: Parsed, album: Option<string>): Frames {
    var t := Overwrite(frames, Title, p.title);
    var a := Overwrite(t, Artist, p.artist);
    var b := Overwrite(a, Album, album);
    Overwrite(b, Track, p.trackno)
  }

  /** A guarded overwrite sets its frame to the one new text when the value is given and changes nothing else. */
  lemma OverwriteFacts(frames: Frames, id: string, v: Option<string>)
    ensures var r := Overwrite(frames, id, v);
      && (Given(v) ==> id in r && r[id] == [v.value])
      && (!Given(v) ==> r == frames)
      && (forall other :: other != id ==> (other in r <==> other in frames))
      && (forall other :: other != id && other in frames ==> r[other] == frames[other])
  {
  }

  /** Frame `id` after `Overwrite` of a different frame is as before. */
  lemma OverwriteOther(frames: Frames, id: string, v: Option<string>, other: string)
    requires other != id
    ensures TextsOf(Overwrite(frames, id, v), other) == TextsOf(frames, other)
    ensures other in Overwrite(frames, id, v) <==> other in frames
  {
  }

  /** What one file's tag holds under `id` after the four overwrites. */
  function Expected(p: Parsed, album: Option<string>, id: string): Option<string> {
    if id == Title then p.title
    else if id == Artist then p.artist
    else if id == Album then album
    else if id == Track then p.trackno
    else None
  }

  /**
   * Each of TIT2, TPE1, TALB and TRCK holds exactly the new text when its
   * value is given and is left as it was otherwise; every other frame is
   * untouched.
   */
  lemma {:induction false} TaggedFrame(frames: Frames, p: Parsed, album: Option<string>, id: string)
    ensures var r := Tagged(frames, p, album);
      var v := Expected(p, album, id);
      && (Given(v) ==> id in r && r[id] == [v.value])
      && (!Given(v) ==> (id in r <==> id in frames) && TextsOf(r, id) == TextsOf(frames, id))
  {
    var t := Overwrite(frames, Title, p.title);
    var a := Overwrite(t, Artist, p.artist);
    var b := Overwrite(a, Album, album);
    if id == Title {
      OverwriteOther(t, Artist, p.artist, id);
      OverwriteOther(a, Album, album, id);
      OverwriteOther(b, Track, p.trackno, id);
    } else if id == Artist {
      OverwriteOther(frames, Title, p.title, id);
      OverwriteOther(a, Album, album, id);
      OverwriteOther(b, Track, p.trackno, id);
    } else if id == Album {
      OverwriteOther(frames, Title, p.title, id);
      OverwriteOther(t, Artist, p.artist, id);
      OverwriteOther(b, Track, p.trackno, id);
    } else if id == Track {
      OverwriteOther(frames, Title, p.title, id);
      OverwriteOther(t, Artist, p.artist, id);
      OverwriteOther(a, Album, album, id);
    } else {
      OverwriteOther(frames, Title, p.title, id);
      OverwriteOther(t, Artist, p.artist, id);
      OverwriteOther(a, Album, album, id);
      OverwriteOther(b, Track, p.trackno, id);
    }
  }

  /** Tagging a file twice with the same values leaves it as tagging it once. */
  lemma TaggedIdempotent(frames: Frames, p: Parsed, album: Option<string>)
    ensures Tagged(Tagged(frames, p, album), p, album) == Tagged(frames, p, album)
  {
    var r := Tagged(frames, p, album);
    var rr := Tagged(r, p, album);
    forall id | id in rr
      ensures id in r && rr[id] == r[id]
    {
      TaggedFrame(frames, p, album, id);
      TaggedFrame(r, p, album, id);
    }
    forall id | id in r
      ensures id in rr
    {
      TaggedFrame(frames, p, album, id);
      TaggedFrame(r, p, album, id);
    }
  }

  /** One file's ID3 tag, as mutagen's `ID3` object holds it between load and save. */
  class Id3 {
    var frames: Frames

    /** `ID3(p)` on a file that has a tag. */
    constructor Load(stored: Frames)
      ensures frames == stored
    {
      frames := stored;
    }

    /** `ID3()` after `ID3NoHeaderError`: no frames. */
    constructor Empty()
      ensures frames == map[]
    {
      frames := map[];
    }

    /** `delall(id)`: every frame with that id goes. */
    method DelAll(id: string)
      modifies this
      ensures frames == old(frames) - {id}
    {
      frames := frames - {id};
    }

    /** `add(frame)`: the frame is stored under its key (a text frame's id), replacing one already there. */
    method Add(id: string, text: string)
      modifies this
      ensures frames == old(frames)[id := [text]]
    {
      frames := frames[id := [text]];
    }

    /** `if v: delall(id); add(...)` */
    method Replace(id: string, v: Option<string>)
      modifies this
      ensures frames == Overwrite(old(frames), id, v)
    {
      if Given(v) {
        DelAll(id);
        Add(id, v.value);
      }
    }

    /** The per-file body of the tagger: title, artist, album, track number. */
    method Tag(p: Parsed, album: Option<string>)
      modifies this
      ensures frames == Tagged(old(frames), p, album)
    {
      Replace(Title, p.title);
      Replace(Artist, p.artist);
      Replace(Album, album);
      Replace(Track, p.trackno);
    }
  }

  /** What the tagger reads from a file: the parse of its stem. */
  function FileMeta(name: string): Parsed {
    ParseArtistTitleTrackno(Stem(name))
  }

  /**
   * The tags on disk after tagging one file: its stored tag (none when it
   * has no ID3 header) with the four overwrites, unless loading or saving
   * it fails, which leaves it as it was.
   */
  function TagOne(disk: map<string, Frames>, name: string, album: Option<string>,
                  fails: string -> bool, meta: string -> Parsed): map<string, Frames> {
    if fails(name) then disk
    else disk[name := Tagged(if name in disk then disk[name] else map[], meta(name), album)]
  }

  /** The tags on disk after the loop over `files`. */
  function TagAll(disk: map<string, Frames>, files: seq<string>, album: Option<string>,
                  fails: string -> bool, meta: string -> Parsed): map<string, Frames>
  {
    if files == [] then disk
    else TagOne(TagAll(disk, files[..|files| - 1], album, fails, meta), files[|files| - 1], album, fails, meta)
  }

  /**
   * `write_id3_tags_mutagen`: nothing happens without mutagen; otherwise
   * each file in turn is loaded (empty without a header), tagged and saved.
   */
  method WriteId3Tags(files: seq<string>, album: Option<string>, installed: bool,
                      disk: map<string, Frames>, fails: string -> bool) returns (saved: map<string, Frames>)
    ensures !installed ==> saved == disk
    ensures installed ==> saved == TagAll(disk, files, album, fails, FileMeta)
  {
    if !installed {
      return disk;
    }
    saved := TagFiles(files, album, disk, fails, FileMeta);
  }

  /** The loop over the files, for any way of reading a file's artist, title and number. */
  method TagFiles(files: seq<string>, album: Option<string>, disk: map<string, Frames>,
                  fails: string -> bool, meta: string -> Parsed) returns (saved: map<string, Frames>)
    ensures saved == TagAll(disk, files, album, fails, meta)
  {
    saved := disk;
    var i := 0;
    while i < |files|
      invariant 0 <= i <= |files|
      invariant saved == TagAll(disk, files[..i], album, fails, meta)
    {
      assert files[..i + 1][..i] == files[..i];
      saved := TagFile(saved, files[i], album, fails, meta);
      i := i + 1;
    }
    assert files[..|files|] == files;
  }

  /** One pass of the loop body: load (or start empty), tag, save; a failure leaves the file as it was. */
  method TagFile(disk: map<string, Frames>, name: string, album: Option<string>,
                 fails: string -> bool, meta: string -> Parsed) returns (saved: map<string, Frames>)
    ensures saved == TagOne(disk, name, album, fails, meta)
  {
    if fails(name) {
      return disk;
    }
    var id3: Id3;
    if name in disk {
      id3 := new Id3.Load(disk[name]);
    } else {
      id3 := new Id3.Empty();
    }
    id3.Tag(meta(name), album);
    saved := disk[name := id3.frames];
  }

  /** A file the loop never names keeps its tag, or its lack of one. */
  lemma {:induction false} TagAllOthers(disk: map<string, Frames>, files: seq<string>, album: Option<string>,
                                         fails: string -> bool, meta: string -> Parsed, name: string)
    requires name !in files
    ensures var r := TagAll(disk, files, album, fails, meta);
      (name in r <==> name in disk) && (name in disk ==> r[name] == disk[name])
  {
    if files != [] {
      var init := files[..|files| - 1];
      assert name !in init by {
        assert forall k :: 0 <= k < |init| ==> init[k] == files[k];
      }
      TagAllOthers(disk, init, album, fails, meta, name);
    }
  }

  /** A file whose load or save fails keeps its tag. */
  lemma {:induction false} TagAllFailed(disk: map<string, Frames>, files: seq<string>, album: Option<string>,
                                         fails: string -> bool, meta: string -> Parsed, name: string)
    requires fails(name)
    ensures var r := TagAll(disk, files, album, fails, meta);
      (name in r <==> name in disk) && (name in disk ==> r[name] == disk[name])
  {
    if files != [] {
      TagAllFailed(disk, files[..|files| - 1], album, fails, meta, name);
    }
  }

  /**
   * A file listed once or more, whose load and save succeed, ends up with
   * its stored tag overwritten exactly once: listing it again changes
   * nothing more.
   */
  lemma {:induction false} TagAllTagged(disk: map<string, Frames>, files: seq<string>, album: Option<string>,
                                         fails: string -> bool, meta: string -> Parsed, name: string)
    requires name in files && !fails(name)
    ensures var r := TagAll(disk, files, album, fails, meta);
      name in r && r[name] == Tagged(if name in disk then disk[name] else map[], meta(name), album)
  {
    var init := files[..|files| - 1];
    var last := files[|files| - 1];
    var before := if name in disk then disk[name] else map[];
    if name == last {
      if name in init {
        TagAllTagged(disk, init, album, fails, meta, name);
        TaggedIdempotent(before, meta(name), album);
      } else {
        TagAllOthers(disk, init, album, fails, meta, name);
      }
    } else {
      assert name in init by {
        var k :| 0 <= k < |files| && files[k] == name;
        assert init[k] == name;
      }
      TagAllTagged(disk, init, album, fails, meta, name);
    }
  }
}
