# YT Audio Workbench, modelled in Dafny

This project models the logic of YT Audio Workbench that does not depend on the GUI: the
text and data transformations of its audio post-processing pipeline and the small helpers
around them. Each part is stated in Dafny and proved against the behaviour its Python
source has.

- **Cookies** (`cookies.dfy`). `prepare_cookies` picks one of three sources for the downloader.
  The Cookie-Editor JSON to Netscape `cookies.txt` converter turns each record into a line:
  - the domain and the include-subdomains flag follow the `hostOnly` rule;
  - name and value are escaped;
  - the expiry comes from `int(float(...))`;
  - a truthy `httpOnly` adds the `#HttpOnly_` prefix.

  `validate_netscape_cookiefile` repairs a missing header by writing a sibling `.withheader` file.
- **Tool lookup** (`tools.dfy`). `resolve_tool_path` searches PATH first, then an ordered list
  of candidates for Windows, macOS and Linux. `have` is true when that search finds something.
- **Probes** (`probes.dfy`). Covers:
  - the stderr tail `_last_lines`;
  - `run_quiet` and `run_capture`;
  - the ffprobe duration probe;
  - `validate_sample_rates`.
- **Join** (`join.dfy`). `join_via_wav_then_lame` taken step by step:
  - the decode loop, with progress percentages and temporary WAV names;
  - the concat list, the concat run and the encode run, and the output name;
  - the cleanup its `finally` performs.
- **File names** (`filenames.dfy`, `renames.dfy`). Covers:
  - the `_sanitize_filename_component` substitution chain;
  - `_parse_artist_title_trackno`;
  - the repeated-artist regular expression of `_dedup_artist_in_filenames`, as a function proved sound and complete against a declarative reading of the pattern;
  - the download name template `_build_outtmpl`;
  - the two renaming passes over a directory, modelled as a set of names.
- **Derived files** (`artifacts.dfy`). Each writer's running offset over per-part durations in milliseconds:
  - the CUE sheet, with `INDEX mm:ss:ff` at 75 frames per second;
  - the ID3v2 CHAP/CTOC chapters (sections 3.1 and 3.2 of the ID3v2 Chapter Frame Addendum);
  - the VLC segment playlist;
  - the M3U8 and M3U playlists.
- **Tagging** (`tagging.dfy`). The frames `write_id3_tags_mutagen` overwrites. The tag is
  modelled as a class over a frame map, with `delall` and `add` as its methods.
- **GUI arithmetic** (`gui.dfy`). The responsive check-box grid of `_relayout_checks` and the
  progress clamp of `_poll_progress`.
- **Help window** (`help.dfy`). Heading and table-of-contents extraction, `jump` by title or by
  selection, `do_search`, and the not-found branch of `_tool_info`.
- **Locales** (`i18n.dfy`, `i18n_check.dfy`). Covers:
  - `Language` as a class: its `load` fallback, its `get` dot-path lookup and `available_locales` ordering;
  - the `check_i18n_keys.py` script: leaf and shape walks, missing key sets, structural mismatches and its exit status.

Shared pieces sit in their own modules, with the Python semantics they follow stated:
- `strings.dfy`: `split`, `join`, `splitlines`, `strip` and `find`;
- `numbers.dfy`: `int`, `float` text, `//` and `round`;
- `paths.dfy`: `Path.name`, `Path.suffix` and `Path.stem`;
- `json.dfy`: JSON values and `dict.get`;
- `wrappers.dfy`: `Option`, `Result` and loops over sequences.

Several helpers occur twice in the sources, once in `workbench_core.py` and once in
`yt_audio_backup_gui.py`, with the same text. Each is modelled once, and the table cites one
of the two copies.

## Model

| member | source | states |
|---|---|---|
| Cookies.PrepareCookies | workbench_core.py:663-684 | a cookie file whose final path component has the suffix `.json` (any case) is converted; otherwise a browser name other than empty or `none` (any case) means browser cookies; otherwise the file is passed through |
| Cookies.JsonNameConverts | workbench_core.py:674 | a file `<dir>/<x>.json` with a non-empty `x` is converted |
| Cookies.DotJsonPassesThrough | workbench_core.py:674-684 | a file named just `.json` has no suffix and is passed through unchanged |
| Cookies.HostOnlyRule | workbench_core.py:699-710 | `hostOnly` true strips every leading dot and gives `FALSE`; false prefixes one dot unless the domain already starts with one and gives `TRUE`; absent keeps the domain and gives `TRUE` iff it starts with a dot |
| Cookies.EscapeClean | workbench_core.py:718-726 | an escaped name or value holds no TAB, LF or CR, and text without them is unchanged |
| Cookies.EscapeIsPerCharacter | workbench_core.py:718-726 | the three chained replacements equal replacing each character on its own (TAB by `%09`, LF by `%0A`, CR by `%0D`) |
| Cookies.ExpiryOf | workbench_core.py:713-717 | the expiry is 0 when both `expirationDate` and `expires` are missing or falsy |
| Cookies.ExpiryPrecedence | workbench_core.py:713-717 | a truthy `expirationDate` decides the expiry, `expires` only without one, each through `int(float(..))` with 0 when that raises |
| Cookies.ExpiryOfIntText | workbench_core.py:713-717 | integer text under the deciding key reads back as that integer, for integers of magnitude at most 2^53 (the range a double holds exactly) |
| Cookies.RecordFieldsShape | workbench_core.py:698-728 | the fields of a converted record: domain field with `#HttpOnly_` iff `httpOnly` is truthy, flag `TRUE`/`FALSE`, path `/` when missing or empty, secure `TRUE` iff `secure` is truthy, the expiry, escaped name and value |
| Cookies.LineFields | workbench_core.py:728 | a Netscape line splits on TAB back into its seven fields when domain and path hold no TAB |
| Cookies.RecordLineColumns | workbench_core.py:728 | a converted record's line splits on TAB into exactly its seven fields when its domain and path hold no TAB |
| Cookies.IntToStringShape | workbench_core.py:728 | `str(exp)` is digits, after a minus sign when negative, so it holds no TAB |
| Cookies.Records | workbench_core.py:693-698 | the loop visits a top-level list's items, or those of the `cookies` list of a top-level object, which is unwrapped first |
| Cookies.ConvertCookieEditorJson | workbench_core.py:690-739 | the method's loop appends each record's line and yields exactly the header, the lines joined by LF and a final LF; the first failing record aborts the batch with nothing written |
| Cookies.ConversionOutcome | workbench_core.py:692-739 | a conversion either writes one line per record, each that record's own line, or fails at the first record that raises after every earlier record converted |
| Cookies.ConvertedLines | workbench_core.py:697-729 | read back with `splitlines`, a converted file is the two header lines and then exactly the record lines |
| Cookies.FirstNonBlank | workbench_core.py:752-757 | the first line that is not blank, or empty text when all lines are blank |
| Cookies.FirstLineDecides | workbench_core.py:752-758 | the header check looks at the first line whenever it is not blank |
| Cookies.MagicFirstNeedsNoHeader | workbench_core.py:758 | text that starts with the magic line needs no repair |
| Cookies.RepairKeepsLines | workbench_core.py:758-764 | the repaired text is the two header lines followed by every original line (a final LF added when missing) |
| Cookies.RepairedName | workbench_core.py:759 | the repaired file is `<name><suffix>.withheader`, never the original file |
| Cookies.RepairIdempotent | workbench_core.py:758-764 | a repaired text passes the header check |
| Cookies.ConvertedHeaderFirst | workbench_core.py:697-729 | a converted export starts with the magic line |
| Cookies.ConvertedNeedsNoHeader | workbench_core.py:729-758 | every converted export passes the header check, so the repair never fires on it |
| Cookies.ValidateCookieFile | workbench_core.py:742-771 | success iff the original loads or the repaired sibling was written and loads; the sibling is written iff the original does not load, its text was read, it needs the header and the write succeeds; with the header present the result is failure; the original is never written |
| Tools.JoinOneRule | workbench_core.py:278-300 | `os.path.join`: an absolute part wins, a relative one follows exactly one separator (drive rules aside) |
| Tools.FirstHitIsFirst | workbench_core.py:301-303 | the hit is usable and no earlier candidate is; no hit means no candidate is usable |
| Tools.FirstHitAppend | workbench_core.py:301-314 | scanning two lists in turn is scanning their concatenation |
| Tools.ResolvePrefersPath | workbench_core.py:266-268 | a PATH hit is returned before any other location is consulted |
| Tools.ResolveFallback | workbench_core.py:269-315 | without a PATH hit the result is the first existing candidate of the platform search order, or None when none exists |
| Tools.LinuxOrder | workbench_core.py:311-314 | off Windows and macOS the fallback is `/usr/bin` then `/usr/local/bin` |
| Tools.FirstExisting | workbench_core.py:301-303 | the scan that stops at the first existing candidate finds the first usable one |
| Tools.ShimList | workbench_core.py:276-290 | WinGet only with `LOCALAPPDATA` set, Chocolatey always (default `C:\ProgramData`), Scoop only with `USERPROFILE` set, in that order |
| Tools.AppList | workbench_core.py:292-296 | for `mp3gain` (any case) the x86 then the plain Program Files MP3Gain paths, each only when its variable is set |
| Tools.AppendFfmpegDirs | workbench_core.py:298-300 | one `FFmpeg\bin` candidate per non-empty Program Files base, in order |
| Tools.WindowsCandidateList | workbench_core.py:270-300 | the Windows candidate list is shims, then app installs, then FFmpeg directories |
| Tools.ResolveToolPath | workbench_core.py:263-315 | the method returns what the declarative search gives: PATH, Windows list, Homebrew, Unix directories, each scanned to its first hit |
| Tools.Have | workbench_core.py:318-319 | `have(x)` iff the lookup finds a path |
| Probes.TailLines | workbench_core.py:185 | `lines[-n:]` by Python slice rules: a suffix of at most `n` lines for positive `n`, the whole list for 0 |
| Probes.LastLinesSuffix | workbench_core.py:183-187 | for positive `n`, at most `n` lines, a suffix of `splitlines()` in their original order, that reads back as those lines |
| Probes.LastLinesShort | workbench_core.py:185 | text of at most `n` lines is kept whole, line ends normalised to LF |
| Probes.LastLinesOneLine | workbench_core.py:185 | a single break-free line is its own tail |
| Probes.RunQuiet | workbench_core.py:226-237 | for a process that finished, the exit code and the last 12 lines of its stderr, whatever the exit code |
| Probes.RunCapture | workbench_core.py:245-255 | as intended: stdout iff the exit code is 0, else a called-process error with the stderr tail |
| Probes.CaptureNeverSucceeds | workbench_core.py:252 | as written every capture raises, and differs from the intended successful capture |
| Probes.ProbeDurationMs | workbench_core.py:327-347 | a failed capture gives 0, text `float` rejects (and NaN and infinities) gives 0, and a negative duration is clamped to 0 |
| Probes.MsNearest | workbench_core.py:340-343 | a non-negative decimal becomes the whole number of milliseconds nearest to it, ties to even |
| Probes.ProbeDurationNearest | workbench_core.py:340-343 | a parsed non-negative duration reads as the millisecond count nearest to it, ties to even |
| Probes.ProbeMilliseconds | workbench_core.py:340-343 | `s.f` seconds with at most three fraction digits read as exactly that many milliseconds |
| Probes.ProbeThreeDigits | workbench_core.py:340-343 | `s.fff` seconds read as `1000 s + fff` milliseconds |
| Probes.ProbeSixDigits | workbench_core.py:340-343 | the `s.ffffff` seconds ffprobe prints read as the millisecond nearest to that many microseconds, ties to even |
| Probes.ProbeWholeSeconds | workbench_core.py:341 | ffprobe printing `n` seconds reads as `1000 n` ms |
| Probes.DurationAsWrittenIsZero | workbench_core.py:327-347 | with `run_capture` as written every duration probe is 0 |
| Probes.SampleRateCases | workbench_core.py:907 | blank output reads as 0, `str(n)` reads back as `n` |
| Probes.MismatchesExact | workbench_core.py:890-911 | the reported pairs are exactly the files whose rate was read, non-zero and different from the expected one, never more than the files |
| Probes.MismatchesAllFailed | workbench_core.py:889-915 | when every capture fails nothing is reported |
| Probes.ValidateSampleRates | workbench_core.py:889-915 | the method collects the mismatches and logs nothing without them, else the heading followed by one line for each |
| Join.PctBelowHundred | yt_audio_backup_gui.py:420-436 | `int(step / max(1, n+2) * 100)` for `0 <= step <= n` lies in `[0, 100)` |
| Join.PctMonotone | yt_audio_backup_gui.py:420-440 | a later step never reports a smaller percentage |
| Join.OutputSurvivesCleanup | yt_audio_backup_gui.py:445-458 | the joined `<join_name or 'joined'>.mp3` is never among the files the `finally` block deletes, whatever `keep_temp` and the inputs |
| Join.FirstFailing | yt_audio_backup_gui.py:422-431 | the index of the first failing decode, or the number of decodes |
| Join.FirstFailingIs | yt_audio_backup_gui.py:422-433 | an index before which nothing fails and at which a decode fails (or the end) is the first failing one |
| Join.DecodeReportsAt | yt_audio_backup_gui.py:423-425 | decode report `i` is taken at step `i` |
| Join.DecodeLoop | yt_audio_backup_gui.py:422-433 | the loop reports progress, records `._tmp_<stem>.wav` for each decoded input and stops at the first failing run |
| Join.ConcatAndEncodeReports | yt_audio_backup_gui.py:434-440 | the two reports after the decodes are both taken at step `len(files)` |
| Join.ConcatAndEncode | yt_audio_backup_gui.py:441-448 | the concat run, then the encode run, the first failing one naming the error |
| Join.CleanupLoop | yt_audio_backup_gui.py:450-457 | unless `keep_temp`, the recorded WAVs, then `._concat.wav` and `._concat_list.txt` are removed |
| Join.JoinViaWavThenLame | yt_audio_backup_gui.py:414-457 | the method's run equals the join plan: decode loop, list, concat, encode, cleanup on every path |
| Join.ProgressBounded | yt_audio_backup_gui.py:420-440 | every percentage reported lies in `[0, 100)` and the reports never decrease |
| Join.ProgressSteps | yt_audio_backup_gui.py:420-440 | report `i` is taken at step `min(i, n)` |
| Join.JoinSucceedsIff | yt_audio_backup_gui.py:414-449 | with the intended exit-code test a join succeeds iff every run exits with 0, and then it returns the output name having recorded one temporary WAV per input in order |
| Join.JoinStopsAtFirstFailure | yt_audio_backup_gui.py:422-433 | a failed decode names the first failing input; the WAVs recorded are those of the inputs before it and no list is written |
| Join.CleanupOnEveryPath | yt_audio_backup_gui.py:450-457 | unless `keep_temp`, every recorded WAV and both concat files are removed whatever the outcome; with it, nothing |
| Join.ListNamesEachWav | yt_audio_backup_gui.py:437-438 | the concat list reads back as one `file '<wav>'` line per recorded WAV, in order |
| Join.JoinAsWrittenAlwaysFails | yt_audio_backup_gui.py:429-431 | as written every join with inputs fails at the first transcode having recorded no WAV; with no input it fails at the concat |
| Join.IntendedJoinCanSucceed | yt_audio_backup_gui.py:414-449 | the intended join succeeds when every run exits with 0 |
| Filenames.Substitute | workbench_core.py:933-935 | a one-class `re.sub` keeps the length, puts `-` at every class character and keeps every other character |
| Filenames.DropControlsFacts | workbench_core.py:931 | removing control characters keeps exactly the characters at or above space and other than DEL, in order |
| Filenames.DroppedNoControl | workbench_core.py:931 | after the first pass no control character is left |
| Filenames.DashedSafe | workbench_core.py:933-935 | after the three substitutions no reserved, shell-special or quirk character is left, and no other kind of character comes in |
| Filenames.SpacedPlain | workbench_core.py:937 | after `\s+` becomes one space, the only whitespace left is the plain space |
| Filenames.CollapseChars | workbench_core.py:937-938 | a collapse introduces no character but the space |
| Filenames.CollapseNoAdjacent | workbench_core.py:938 | after `[-\s]{2,}` became one space, no two neighbouring characters are `-` or whitespace |
| Filenames.CollapseIdentity | workbench_core.py:937-938 | text whose separators stand alone is left unchanged by the collapse |
| Filenames.SanitizeShape | workbench_core.py:923-942 | a sanitised name is never empty, has no control or risky character, no two neighbouring separators, and neither starts nor ends with any of ` .-_`; `untitled` when nothing survives |
| Filenames.SanitizeIdempotent | workbench_core.py:923-942 | sanitising a sanitised name changes nothing |
| Filenames.SanitizedFixed | workbench_core.py:931-942 | every pass of the chain leaves a sanitised name as it is |
| Filenames.SplitAfterDashless | workbench_core.py:990 | the first `" - "` of `a - rest` is right after a dash-free `a` |
| Filenames.ParseArtistTitle | workbench_core.py:988-1000 | `artist - title` reads back as that artist and title with no track number |
| Filenames.ParseNumbered | workbench_core.py:988-1000 | `NN - artist - title` reads back as all three, the number kept as text |
| Filenames.ParseUnseparated | workbench_core.py:993-1000 | a stem without `" - "` has no artist and is its own title; an all-digit one is also the track number |
| Filenames.OutputTemplateShape | yt_audio_backup_gui.py:1255-1259 | the template holds the uploader-and-title core and ends with `.%(ext)s`; it starts with the number field iff `numbering`, holds ` [%(id)s]` iff `include_id`, and ignores `fallback_numbering` |
| Filenames.AssembledShape | yt_audio_backup_gui.py:1255-1259 | the same shape for any four pieces with the distinguishing characters the real ones have |
| Filenames.PrefixRange | yt_audio_backup_gui.py:265 | the artist starts that `(\d+)\s*-\s*` allows, for any two character classes |
| Filenames.NumberPrefixSound | yt_audio_backup_gui.py:265 | every artist start the number group allows follows digits and `\s*-\s*` |
| Filenames.NumberPrefixComplete | yt_audio_backup_gui.py:265 | every reading with the number group has its artist start in that range |
| Filenames.RestAtSound | yt_audio_backup_gui.py:265 | the `(?P<rest>.+)$` group is a non-empty newline-free rest reaching the end or a final newline |
| Filenames.MatchFromSound | yt_audio_backup_gui.py:265 | a match from an artist start is a reading `A\s-\s(?P=a)\s-\s rest` the pattern allows, `(?P=a)` compared ignoring case |
| Filenames.MatchFromComplete | yt_audio_backup_gui.py:265 | every reading from that start is the match the lazy group finds |
| Filenames.LastSomeComplete | yt_audio_backup_gui.py:265 | trying the number-group starts in backtracking order finds a match whenever one exists |
| Filenames.MatchDedupSound | yt_audio_backup_gui.py:265 | a match is a reading the pattern allows, with or without the number group |
| Filenames.MatchDedupComplete | yt_audio_backup_gui.py:265 | whenever the pattern allows a reading the stem matches, a reading with the number group taken first |
| Filenames.UnnumberedStem | yt_audio_backup_gui.py:270-271 | without a number the new stem is `A - rest`, each part stripped |
| Filenames.DedupPlain | yt_audio_backup_gui.py:265-271 | `A - a - rest` with no leading digit reads as artist `A` and rest `rest` |
| Filenames.DedupNumbered | yt_audio_backup_gui.py:265-271 | `NN - A - a - rest` reads as number `NN`, artist `A` and rest `rest` |
| Filenames.NumberedMatch | yt_audio_backup_gui.py:265 | with the number prefix in place, the match is the reading right after it |
| Renames.MovedSize | yt_audio_backup_gui.py:274 | moving an existing name to a missing one keeps the number of files |
| Renames.DedupArtistInFilenames | yt_audio_backup_gui.py:259-280 | the method's output and directory are those of the declarative pass |
| Renames.DedupLoop | yt_audio_backup_gui.py:266-279 | the loop, for any target naming, follows the one-file step for each file in order |
| Renames.DedupOneSpec | yt_audio_backup_gui.py:267-279 | a file is renamed only to its target, only when that target does not exist and the replace succeeds; otherwise it keeps its path and the directory is unchanged |
| Renames.DedupAllShape | yt_audio_backup_gui.py:264-280 | one path per input in order, each the input or its target; no file is lost or overwritten |
| Renames.DedupTargetPlain | yt_audio_backup_gui.py:268-276 | `A - a - rest.ext` targets `A - rest.ext` |
| Renames.DedupTargetNumbered | yt_audio_backup_gui.py:268-276 | `NN - A - a - rest.ext` targets `NN - A - rest.ext` |
| Renames.ProbeInjective | yt_audio_backup_gui.py:193 | `san`, `san_1`, `san_2`, ... are different names |
| Renames.FirstFree | yt_audio_backup_gui.py:191-194 | the probe loop ends (the directory is finite) at the first probe that does not exist or is the file itself |
| Renames.FirstProbe | yt_audio_backup_gui.py:191-194 | the method's collision loop returns that first free probe |
| Renames.AltProbe | yt_audio_backup_gui.py:205-209 | the duplicate loop returns the first `<stem>_<j>` with `j >= 1` that does not exist |
| Renames.CandidateSpec | yt_audio_backup_gui.py:189-194 | the candidate is `san` then `san_i` for the least `i`, never an existing file other than the source |
| Renames.CandidateSanitized | yt_audio_backup_gui.py:188-189 | the first candidate's stem passes every sanitizer check |
| Renames.DuplicateAltSpec | yt_audio_backup_gui.py:203-209 | the alternative for a duplicate is `<stem>_<j><suffix>` for some `j >= 1` and does not exist |
| Renames.FirstStep | yt_audio_backup_gui.py:195-201 | the first rename goes to the candidate or, when it fails, does nothing and keeps the original path; file count and presence kept |
| Renames.AdjustStep | yt_audio_backup_gui.py:203-215 | only a name already given out moves, and only to a `_<j>` name that did not exist |
| Renames.SanitizedStep | yt_audio_backup_gui.py:186-217 | one file: its final name joins `seen`; a failed rename keeps the original; a name not given out before is kept |
| Renames.SanitizeAndRename | yt_audio_backup_gui.py:183-218 | the method's output, `seen` and directory are those of the declarative pass |
| Renames.SanitizeAllShape | yt_audio_backup_gui.py:183-218 | one path per input in order; `seen` holds exactly the names returned; no file is lost or overwritten |
| Renames.SanitizeAllAt | yt_audio_backup_gui.py:186-217 | the `k`-th output is one step from the state the first `k` files left |
| Artifacts.OffsetMonotone | yt_audio_backup_gui.py:340-351 | running offsets never decrease |
| Artifacts.RenderedAt | yt_audio_backup_gui.py:341-351 | element `k` is rendered with number `k + 1` at the offset of the elements before it, right after their output |
| Artifacts.RenderedFixedAt | yt_audio_backup_gui.py:232-253 | with `w`-line blocks element `k` is lines `w k .. w k + w` |
| Artifacts.CueFramesMonotone | yt_audio_backup_gui.py:342 | `round(t * 75)` keeps order |
| Artifacts.CueTimeParts | yt_audio_backup_gui.py:342-345 | `ss < 60`, `ff < 75` and `4500 mm + 75 ss + ff` is the frame count |
| Artifacts.CueTrackLoop | yt_audio_backup_gui.py:339-351 | the loop's lines are the declarative track lines |
| Artifacts.CueTrackAt | yt_audio_backup_gui.py:341-350 | track `k` is `TRACK <k+1>`, after the earlier tracks, with its title and its own performer when it has one, indexed at the summed duration of the earlier parts |
| Artifacts.CueTracksLength | yt_audio_backup_gui.py:346-350 | three lines per track plus one per track with an artist |
| Artifacts.EmbedChapters | yt_audio_backup_gui.py:384-404 | the loop's chapters and ids are the declarative chapter list and its ids |
| Artifacts.ChapterAt | yt_audio_backup_gui.py:386-404 | chapter `k` is `chp<k+1>` starting at the summed durations of the earlier parts |
| Artifacts.ChaptersContiguous | yt_audio_backup_gui.py:385-404 | the first chapter starts at 0, each ends its duration after its start, and the next starts where it ends |
| Artifacts.ChapterIdsDistinct | yt_audio_backup_gui.py:389 | no two chapters share an element id |
| Artifacts.TocListsChapters | yt_audio_backup_gui.py:406 | the TOC is top-level and ordered and lists `chp1 ... chpN` in join order |
| Artifacts.DisplayClean | yt_audio_backup_gui.py:486 | the display text has no newline and neither starts nor ends with whitespace |
| Artifacts.VlcSegmentLoop | yt_audio_backup_gui.py:232-253 | the loop's lines are the declarative segment lines |
| Artifacts.SegmentAt | yt_audio_backup_gui.py:232-253 | exactly four lines per part: segment `k` is `#EXTINF`, start, stop and the joined name at lines `4k .. 4k+4`, starting where the previous one stopped |
| Artifacts.SpanFacts | yt_audio_backup_gui.py:236-250 | a segment spans at least 100 ms and at least its part; the `#EXTINF` length is at least 1 second |
| Artifacts.M3u8Loop | yt_audio_backup_gui.py:491-494 | the loop's lines are the `#EXTINF` and name line of each entry |
| Artifacts.EntryAt | yt_audio_backup_gui.py:491-495 | entry `k` is lines `2k`, `2k+1` of the body |
| Artifacts.PlaylistSelection | yt_audio_backup_gui.py:466-498 | M3U8 is written iff the format is `M3U8` or `BOTH`, M3U iff `M3U` or `BOTH`, nothing otherwise |
| Artifacts.PlaylistDefault | yt_audio_backup_gui.py:466 | a missing or empty format means M3U8, in any case |
| Artifacts.M3uReadsBack | yt_audio_backup_gui.py:500 | the M3U text reads back as the file names |
| Tagging.OverwriteFacts | workbench_core.py:1017-1019 | a given value makes its frame that one text; a missing or empty one changes nothing; other frames are untouched |
| Tagging.OverwriteOther | workbench_core.py:1017-1028 | overwriting one frame keeps every other frame |
| Tagging.TaggedFrame | workbench_core.py:1017-1028 | TIT2, TPE1, TALB and TRCK hold exactly the new text when given and are as before otherwise |
| Tagging.TaggedIdempotent | workbench_core.py:1017-1028 | tagging twice with the same values equals tagging once |
| Tagging.Id3.Load | workbench_core.py:1014 | a loaded tag holds the stored frames |
| Tagging.Id3.Empty | workbench_core.py:1015-1016 | a file without a header starts with no frames |
| Tagging.Id3.DelAll | workbench_core.py:1018 | `delall(id)` removes that id and nothing else |
| Tagging.Id3.Add | workbench_core.py:1019 | `add` stores the frame under its id, replacing whatever was there, and changes no other id |
| Tagging.Id3.Replace | workbench_core.py:1017-1019 | `if v: delall; add` is the guarded overwrite |
| Tagging.Id3.Tag | workbench_core.py:1017-1028 | the four guarded overwrites in order |
| Tagging.TagFile | workbench_core.py:1011-1029 | one file: load or start empty, tag, save; a failure leaves it as it was |
| Tagging.TagFiles | workbench_core.py:1010-1035 | the loop's saved tags are the declarative fold over the files |
| Tagging.WriteId3Tags | workbench_core.py:1003-1035 | without mutagen nothing changes; otherwise every file is tagged in turn |
| Tagging.TagAllOthers | workbench_core.py:1010-1035 | a file the loop never names keeps its tag |
| Tagging.TagAllFailed | workbench_core.py:1031-1035 | a file whose load or save fails keeps its tag |
| Tagging.TagAllTagged | workbench_core.py:1010-1029 | a listed file that loads and saves ends with its stored tag overwritten, once however often it is listed |
| Gui.LayoutWidth | yt_audio_backup_gui.py:145-148 | the width is at least 1: the measured one when it is at least 1, exactly 1 when it is below, 800 when measuring fails |
| Gui.ColumnsBounds | yt_audio_backup_gui.py:149 | the column count is at least 1 and at most `max_cols` unless that is below 1 |
| Gui.ColumnsFit | yt_audio_backup_gui.py:149 | with a positive column width, the count is 1 or fits the width, and is `max_cols` or one more would not fit |
| Gui.WeightColumns | yt_audio_backup_gui.py:153-155 | columns `0 .. cols-1` are configured in order |
| Gui.PlaceWidgets | yt_audio_backup_gui.py:156-158 | widget `i` is placed at the row-major cell of index `i` |
| Gui.RelayoutChecks | yt_audio_backup_gui.py:144-158 | the column count from the width rule, its columns weighted, every widget in its row-major cell |
| Gui.DivModPlaced | yt_audio_backup_gui.py:157 | `divmod(i, cols)` is the cell of row-major index `i` |
| Gui.PlacedIsDivMod | yt_audio_backup_gui.py:157 | the row-major cell of `i` is exactly `divmod(i, cols)` |
| Gui.PlacedDistinct | yt_audio_backup_gui.py:156-158 | a later widget sits in a later cell, so no two share one |
| Gui.ProgressValue | yt_audio_backup_gui.py:1157 | the value is clamped to `[0, 100]` and equals `pct` inside that range |
| Gui.ProgressMonotone | yt_audio_backup_gui.py:1157 | the clamp keeps the order of two reports |
| Help.HeadingDepth | help_window.py:67 | the depth counts the leading `#`: at least one, and the next character is not `#` |
| Help.HeadingTitle | help_window.py:68 | the title is the text after the leading `#`, stripped |
| Help.TocEntryShape | help_window.py:69 | the TOC entry is `4 (depth-1)` spaces and the title |
| Help.HeadingsSound | help_window.py:64-69 | every heading entry is a line starting with `#`, under its 1-based number |
| Help.HeadingsComplete | help_window.py:64-69 | every line starting with `#` has an entry |
| Help.HeadingsOrdered | help_window.py:64-69 | line numbers strictly increase |
| Help.AnchorsAreHeadings | help_window.py:64-69 | every anchor is the anchor of a heading line under its number |
| Help.AnchorsComplete | help_window.py:64-69 | every heading line has an anchor |
| Help.AnchorsOrdered | help_window.py:64-69 | anchors are in document order |
| Help.ScanHeadings | help_window.py:64-69 | the loop's anchors and TOC entries are those of the text's heading lines |
| Help.ScanLines | help_window.py:65-69 | the loop appends one anchor and one entry per heading line |
| Help.FirstMatch | help_window.py:78-79 | the index of the first anchor whose lower-cased title starts with the lower-cased target |
| Help.FirstMatchIs | help_window.py:78-79 | a matching anchor with no earlier match is the first match |
| Help.FindJumpLine | help_window.py:77-80 | the loop returns the first match's line, or nothing |
| Help.SelectionIsHeading | help_window.py:70-75 | the line a list-box selection jumps to is the number of a heading line of the help text |
| Help.JumpFindsOwnTitle | help_window.py:76-80 | jumping by a heading's own title finds it or an earlier anchor with the same prefix |
| Help.SearchLineFacts | help_window.py:46-53 | a blank term selects nothing; otherwise a line is selected iff the lower-cased term occurs in the lower-cased text, and it is the line of the first occurrence |
| Help.SearchLineInText | help_window.py:51-52 | the selected line is between 1 and one more than the number of line feeds |
| Help.StubShowsHeading | help_window.py:56-59 | the help file's text is shown as read; otherwise the stub's lines are the `# Help` heading, a blank line, then the message's lines |
| Help.StubHeadingShape | help_window.py:59 | the stub's first line is a depth-1 heading titled `Help`, so the TOC of a missing help file lists it |
| Help.HelpView.Open | help_window.py:34-83 | the window shows the text, scans its headings, then jumps to `section` when one is given |
| Help.HelpView.Jump | help_window.py:71-81 | selects the first matching heading's line; no match changes nothing |
| Help.HelpView.JumpToSelection | help_window.py:71-81 | selects the chosen heading's line; no selection changes nothing |
| Help.HelpView.DoSearch | help_window.py:46-53 | selects the line of the first occurrence; a blank term changes nothing |
| Help.ToolInfoLines | help_window.py:154-165 | an unresolved tool gets exactly `<cmd>: not found`; a resolved one gets its path line and its version line |
| I18n.ResolveAppend | i18n.py:32-37 | walking `p + q` walks `p` then `q` |
| I18n.LookupPath | i18n.py:30-37 | a key of dot-free segments joined with `.` walks exactly those segments |
| I18n.LookupTopLevel | i18n.py:30-40 | a top-level string or number under a dot-free key is returned as its text |
| I18n.LookupNotObject | i18n.py:32-37 | any lookup in a document that is not an object gives the default |
| I18n.LookupNotText | i18n.py:38-40 | an object, list or null at the end of the path gives the default |
| I18n.LookupFound | i18n.py:30-40 | a non-default result is `str()` of a string, number or boolean at the end of the path |
| I18n.UnloadedGivesDefault | i18n.py:14-40 | when neither the locale nor English reads, every lookup gives the default |
| I18n.LoadedFallback | i18n.py:14-28 | the locale first, English second (never for `en` itself), `{}` last |
| I18n.Insert | i18n.py:49 | the entry goes before the first larger code |
| I18n.InsertChained | i18n.py:49 | inserting a new code keeps the listing ordered |
| I18n.InsertCodes | i18n.py:49 | inserting adds exactly that code |
| I18n.InsertAll | i18n.py:49 | the loop inserts every entry of the dictionary once |
| I18n.SortByCode | i18n.py:49 | the same entries, each with its own value, ordered by code |
| I18n.CollectLocales | i18n.py:46-48 | the loop maps every `*.json` entry's stem to it |
| I18n.LocaleMapFacts | i18n.py:42-49 | each code maps to a `*.json` entry whose stem it is, and every such entry's stem is a code |
| I18n.Language.constructor | i18n.py:8-12 | the directory is set and the code loaded |
| I18n.Language.Load | i18n.py:14-28 | the code is always taken; the catalogue falls back to English, then to `{}` |
| I18n.Language.Get | i18n.py:30-40 | the dot-path lookup on the loaded catalogue |
| I18n.Language.AvailableLocales | i18n.py:42-49 | code to file for every `*.json` entry, ordered by code; empty without the directory |
| I18nCheck.PathsOfCons | scripts/check_i18n_keys.py:30-42 | a path of an object is a key followed by nothing or a path of its value |
| I18nCheck.LeavesCons | scripts/check_i18n_keys.py:22-27 | a leaf path is a key whose value is not an object, or a key followed by a leaf path of its object |
| I18nCheck.PathsResolve | scripts/check_i18n_keys.py:30-42 | a path is labelled iff it is non-empty and walks through objects successfully |
| I18nCheck.LeavesAreLeafShapes | scripts/check_i18n_keys.py:22-42 | the leaf paths are exactly the paths labelled `leaf` |
| I18nCheck.UnderKey | scripts/check_i18n_keys.py:35-41 | the paths under `prefix + [k]`: the path itself and, for an object, those below |
| I18nCheck.StepDict | scripts/check_i18n_keys.py:37-39 | after an object-valued key: its `dict` path, then everything below it |
| I18nCheck.StepLeaf | scripts/check_i18n_keys.py:40-41 | after a key with another value: its `leaf` path only |
| I18nCheck.WithinAllKeys | scripts/check_i18n_keys.py:35-41 | every path under `prefix` starts with one of the keys |
| I18nCheck.WalkKey | scripts/check_i18n_keys.py:36-41 | one pass of the loop adds that key's paths with their shapes |
| I18nCheck.WalkShapes | scripts/check_i18n_keys.py:30-42 | `out` gains every path under `prefix` with its shape, overwriting, and keeps the rest |
| I18nCheck.WalkShapesTop | scripts/check_i18n_keys.py:30-42 | from the top the result is exactly the document's shape map |
| I18nCheck.LocaleNames | scripts/check_i18n_keys.py:50 | the `*.json` files of the directory |
| I18nCheck.CollectShapes | scripts/check_i18n_keys.py:57 | the shape map of every locale |
| I18nCheck.UnionOf | scripts/check_i18n_keys.py:60 | every leaf set is inside the union, and the union holds nothing else |
| I18nCheck.PathUnion | scripts/check_i18n_keys.py:75 | every path some locale's shape map holds, and no other |
| I18nCheck.ReportMissing | scripts/check_i18n_keys.py:62-71 | `ok` stays true iff no locale misses a leaf path |
| I18nCheck.ReportMismatches | scripts/check_i18n_keys.py:75-83 | `ok` stays true iff no path has more than one shape |
| I18nCheck.CheckI18nKeys | scripts/check_i18n_keys.py:45-88 | the method's exit status is that of the declarative check |
| I18nCheck.MissingNoneIffEqual | scripts/check_i18n_keys.py:60-71 | no locale misses anything iff all leaf sets are equal |
| I18nCheck.MismatchIff | scripts/check_i18n_keys.py:76-79 | a path is mismatched iff it is `dict` in one locale and `leaf` in another |
| I18nCheck.MismatchedDocs | scripts/check_i18n_keys.py:75-79 | the same, on the documents: an object at the path in one and a value in another |
| I18nCheck.MismatchMeansMissing | scripts/check_i18n_keys.py:56-83 | every structural mismatch comes with a missing key |
| I18nCheck.LeafSetsAgree | scripts/check_i18n_keys.py:56-71 | the missing-key half of the check in terms of the documents |
| I18nCheck.NoMismatchIff | scripts/check_i18n_keys.py:75-83 | the structural half of the check in terms of the documents |
| I18nCheck.ConsistentDocs | scripts/check_i18n_keys.py:55-88 | the check passes iff all locales have the same leaf paths and no path is an object in one and a value in another |
| I18nCheck.ExitCodeZero | scripts/check_i18n_keys.py:45-88 | exit 0 iff the directory exists, holds a locale file, every file parses to an object and they agree; 1 otherwise |
| Strings.Find | help_window.py:50 | `find`: the first index of the term, none when absent |
| Strings.JoinSplit | workbench_core.py:990-998 | `" - ".join(s.split(" - ")) == s` |
| Strings.SplitAtFind | workbench_core.py:990 | `split` cuts at the first occurrence |
| Strings.SplitLines | workbench_core.py:185 | `splitlines` yields lines without any line-break character, and none exactly for empty text |
| Strings.SplitLinesOfWritten | yt_audio_backup_gui.py:255 | `"\n".join(lines) + "\n"` reads back as exactly those lines |
| Strings.StripIdempotent | workbench_core.py:940 | stripping twice strips nothing more |
| Strings.ParseNatToString | workbench_core.py:907 | `int(str(n)) == n` |
| Strings.NatToStringInjective | yt_audio_backup_gui.py:389 | different numbers print differently |
| Strings.Pad2 | yt_audio_backup_gui.py:346-350 | `f"{n:02d}"` is at least two characters, all digits |
| Numbers.SecondsFractionText | workbench_core.py:340 | `float` reads digits, a dot and fraction digits as the exact decimal with every digit as mantissa and the fraction length as exponent |
| Numbers.RoundHalfEven | yt_audio_backup_gui.py:342 | `round(n / d)`: the nearest integer, ties to even |
| Numbers.FloorDiv | yt_audio_backup_gui.py:149 | `a // b`: the floor of the exact quotient for either sign |
| Numbers.TruncOfIntText | workbench_core.py:715 | `int(float(str(n))) == n` for n of magnitude at most 2^53, where the double holds n exactly |
| Numbers.ParseIntOfText | workbench_core.py:907 | `int(str(n)) == n` for every integer |
| Paths.FinalNameOf | workbench_core.py:674 | `Path.name` of `<dir>/<name>` is `name` when `name` holds no separator |
| Paths.PathSuffix | workbench_core.py:674 | the final name of `<dir>/<x>.<ext>` has the suffix `.<ext>` |
| Paths.DotFileSuffix | workbench_core.py:674 | the final name of `<dir>/.<ext>` has no suffix |
| Paths.SuffixShape | workbench_core.py:674 | `Path.suffix` starts with a dot, ends the name and holds no other dot; the stem is what comes before |
| Paths.StemSuffixOf | workbench_core.py:949-951 | `base.ext` splits back into `base` and `.ext` |
| Paths.WithOwnSuffix | workbench_core.py:759 | `with_suffix(suffix + tail)` appends `tail` to the whole name |
| Json.TextOr | workbench_core.py:711 | `d.get(k) or default` as text, failing on a truthy non-string |

## Left out

- Process supervision is not modelled: spawning, process groups, signals, time-outs, the process registries and cancellation. A finished process is a value (exit code, stdout, stderr).
- ffmpeg, ffprobe, mp3gain, yt-dlp, `json.loads`, `http.cookiejar` and mutagen are outside the model. Their outcomes are inputs, and a file operation that may raise is an oracle predicate: whether it fails, whether it exists, whether a rename or replace succeeds.
- Floating point: durations are integer milliseconds, and `round` is half-to-even on the exact rational. The VLC writer's offsets in float seconds are modelled as exact milliseconds, so float rounding drift over many parts is not captured. The probe's seconds are rounded to the nearest millisecond before any writer sees them, so a value rounded again later can differ from Python's near a .5 boundary: a 1.4996 s part gets `#EXTINF:1` in Python but 1500 ms, and so `#EXTINF:2`, in the model.
- Unicode: `lower`, `upper`, `isdigit` and `\d` are modelled on ASCII only, and the help search assumes lower-casing keeps positions.
- Help.HelpView.DoSearch: the Tk selection is one line number, and Tk's line count is taken as the number of line feeds.
- Probes.RunQuiet: only a process that was spawned and finished is modelled. `run_quiet` catches only `CalledProcessError`, so an `OSError` from `Popen` (a missing ffmpeg) propagates to the caller; that path is not modelled.
- Tools.JoinOneRule: follows `os.path.join`'s separator rule only. `ntpath`'s drive rules are not modelled, so a drive-only base such as `C:` gives `C:\x` where Python gives `C:x`.
- Cookies.IntOfFloat: reads the expiry exactly, where `int(float(x))` first rounds to a binary double. Integers beyond 2^53 are not rounded (`"9007199254740993"` gives 9007199254740993, Python 9007199254740992). Fractions within a double's rounding of the next integer are truncated below it (`"1.99999999999999999"` gives 1, Python 2). A JSON integer too large for a double (10**400) is read as itself, where Python's `float` raises OverflowError and the expiry becomes 0. Expiry timestamps as browsers export them (about 1.7e9 seconds) are far inside the exact range.
- Numbers.TruncOfFloatText: truncates the exact decimal value, not the double `float` rounds it to, so it differs from `int(float(s))` in the cases the Cookies.IntOfFloat line gives.
- Numbers.ParseDecimal: reads the decimal forms ffprobe prints. `float`'s underscores between digits (`1_000`), `inf`/`nan` spellings and exponents large enough to overflow to infinity are not modelled. The model rejects them or reads them exactly; Python reads them as a number, or as infinity and then 0.
- Paths.FinalName: takes the text after the last separator, ignoring trailing separators. Windows drives are not split off, so a name like `C:.json` is read as having the suffix `.json` where `pathlib` sees the dot file `.json`.
- Logging is left out: every message passed to `log`, except the sample-rate warnings, and the exact exception texts.
- Join.JoinViaWavThenLame: `random.shuffle` is not modelled. The order of `files` is the input, so any permutation is covered.
- Join.PctBelowHundred: `int(step / total * 100)` is modelled as exact integer division. This gives the same value as the float expression except where float rounding would cross an integer.
- Gui.Columns: requires a non-zero `min_col_width`, because Python raises `ZeroDivisionError` there. The call sites pass 240 and 280 (and the default is 220), so that never happens.
- Gui.ProgressValue: takes integer percentages. The join pipeline only sends integers.
- The order of `glob("*.json")` is given to the model as the directory listing. Windows' case-insensitive matching and a directory named `x.json` are not modelled.
- I18nCheck.Check: leaf and shape sets are sets. The order of `walk_leaves`' output, and the sorting and text of the printed report, are not modelled; only the exit status is.
- I18nCheck.Check: an uncaught exception (an unreadable or non-object locale file) is modelled as a `Crashed` report with exit status 1.
- The About dialog of `help_window.py` is outside the model, with two defects in it: its Troubleshooting button calls `open_help_window` without the required `get_text` argument (help_window.py:91, signature at 34), and `_copy_diag` calls a `get_text` the module does not define (help_window.py:105). As read, the first raises `TypeError` and the second `NameError`.
- The `_copy_diag` path of `_tool_info` is outside the model. The version line is computed from a modelled run result.
- The CUE, M3U and VLC writers produce line values (datatypes) plus a text function. Files that fail to write are not modelled.
- Help.HelpView.Jump: widget scrolling (`see`) is not part of the view state; the same holds for Help.HelpView.DoSearch.
- Cookies.RecordFieldsShape: the worked example from the cookie conversion test (the first record gives `.example.com`, `TRUE`, `/`, `TRUE`, `0`, `sid`, `abc`) is not proved. The general field lemmas state each of those fields.
- The cp1252/latin-1 fallback of the M3U write and UTF-8 encoding are not modelled: text is a sequence of characters.
- Installers, tool verification, configuration, tooltips, menus and the `run_processing_task` placeholder are not modelled: they are side effects without modellable logic.

## Findings

| source | as written | input that shows it | evidently intended | confidence | as-written member | corrected member |
|---|---|---|---|---|---|---|
| yt_audio_backup_gui.py:429-431 | `rc = run_quiet(cmd)` binds the pair `(rc, tail)`, and `rc != 0` compares that pair with 0 (also at 442-444 and 446-448) | any join with at least one input, whatever ffmpeg does | compare the exit code: `rc, _ = run_quiet(cmd)` | high, not executed | Join.JoinAsWrittenAlwaysFails | Join.JoinSucceedsIff |
| workbench_core.py:252 | `run_capture` passes `env=` and `text=` to `_run_capture`, whose keyword parameters are `timeout`, `check` and `cwd`, so every call raises `TypeError` | any duration or sample-rate probe | call `_run_capture(cmd, cwd=cwd)` and return stdout when the exit code is 0 | high, not executed | Probes.DurationAsWrittenIsZero | Probes.RunCapture |
