/**
 * The help window's text logic: the table of contents built from the
 * markdown headings of the help file, jumping to a section by title,
 * the search box, and the line the diagnostics give a missing tool.
 * The Tk text widget is modelled by its content and the line that its
 * "sel" tag covers.
 */
module Help {

  import opened Wrappers
  import opened Strings

  // ---------------------------------------------------------------------
  // Headings and anchors

  /** A table-of-contents entry: the heading's title, its 1-based line and its level. */
  datatype Anchor = Anchor(title: string, line: nat, depth: nat)

  /** `line.startswith("#")` */
  predicate IsHeading(line: string) {
    |line| > 0 && line[0] == '#'
  }

  /** `line.lstrip("#").strip()` */
  function TitleOf(line: string): string {
    Trim(LStrip(line, IsHash))
  }

  /** `len(line) - len(line.lstrip("#"))` */
  function DepthOf(line: string): nat {
    |line| - |LStrip(line, IsHash)|
  }

  /** The anchor of a heading line: the run of leading `#` is the depth, the stripped rest the title. */
  function HeadingAnchor(line: string, lineNo: nat): Anchor {
    Anchor(TitleOf(line), lineNo, DepthOf(line))
  }

  /** A heading line of the text and its 1-based line number. */
  datatype Heading = Heading(lineNo: nat, text: string)

  /** The heading lines of `lines`, in order. */
  function HeadingsOf(lines: seq<string>): seq<Heading> {
    if lines == [] then []
    else
      var last := lines[|lines| - 1];
      HeadingsOf(lines[..|lines| - 1]) + (if IsHeading(last) then [Heading(|lines|, last)] else [])
  }

  function AnchorOf(h: Heading): Anchor {
    HeadingAnchor(h.text, h.lineNo)
  }

  /** The anchors of a text split into lines: one per heading line, in order. */
  function AnchorsOf(lines: seq<string>): seq<Anchor> {
    Map(AnchorOf, HeadingsOf(lines))
  }

  /** `"    " * n` */
  function Indent(n: nat): (s: string)
    ensures |s| == 4 * n
    ensures forall i | 0 <= i < |s| :: s[i] == ' '
  {
    if n == 0 then "" else "    " + Indent(n - 1)
  }

  /** The list-box text of an anchor: four spaces per level below the first, then the title. */
  function TocEntry(a: Anchor): string {
    Indent(if a.depth >= 1 then a.depth - 1 else 0) + a.title
  }

  /** A heading's depth counts its leading `#`: at least one, and the character after them is not `#`. */
  lemma HeadingDepth(line: string, lineNo: nat)
    requires IsHeading(line)
    ensures var a := HeadingAnchor(line, lineNo);
      && 1 <= a.depth <= |line|
      && (forall i | 0 <= i < a.depth :: line[i] == '#')
      && (a.depth == |line| || line[a.depth] != '#')
      && a.line == lineNo
  {
    var rest := LStrip(line, IsHash);
    assert rest == line[|line| - |rest|..];
  }

  /** A heading's title is the text after its leading `#`, stripped. */
  lemma HeadingTitle(line: string, lineNo: nat)
    ensures var a := HeadingAnchor(line, lineNo);
      a.depth <= |line| && a.title == Trim(line[a.depth..])
  {
    var rest := LStrip(line, IsHash);
    assert rest == line[|line| - |rest|..];
  }

  /** The TOC entry indents by the depth: `4*(depth-1)` spaces and then the title. */
  lemma TocEntryShape(a: Anchor)
    requires a.depth >= 1
    ensures var e := TocEntry(a);
      |e| == 4 * (a.depth - 1) + |a.title| && e[4 * (a.depth - 1)..] == a.title
      && forall i | 0 <= i < 4 * (a.depth - 1) :: e[i] == ' '
  {
  }

  /** Every heading entry is a line of the text that starts with `#`, under its own 1-based number. */
  lemma {:induction false} HeadingsSound(lines: seq<string>)
    ensures forall h | h in HeadingsOf(lines) ::
      1 <= h.lineNo <= |lines| && h.text == lines[h.lineNo - 1] && IsHeading(h.text)
  {
    if lines != [] {
      var init := lines[..|lines| - 1];
      HeadingsSound(init);
      assert forall k | 0 <= k < |init| :: init[k] == lines[k];
    }
  }

  /** Every line that starts with `#` has an entry. */
  lemma {:induction false} HeadingsComplete(lines: seq<string>, k: nat)
    requires k < |lines| && IsHeading(lines[k])
    ensures Heading(k + 1, lines[k]) in HeadingsOf(lines)
  {
    var init := lines[..|lines| - 1];
    if k < |init| {
      assert init[k] == lines[k];
      HeadingsComplete(init, k);
    }
  }

  /** Entries are in document order: line numbers strictly increase. */
  lemma {:induction false} HeadingsOrdered(lines: seq<string>)
    ensures forall i, j | 0 <= i < j < |HeadingsOf(lines)| :: HeadingsOf(lines)[i].lineNo < HeadingsOf(lines)[j].lineNo
  {
    if lines != [] {
      var init := lines[..|lines| - 1];
      HeadingsOrdered(init);
      HeadingsSound(init);
      var before := HeadingsOf(init);
      var hs := HeadingsOf(lines);
      assert forall i | 0 <= i < |before| :: hs[i] == before[i] && before[i] in before;
      if IsHeading(lines[|lines| - 1]) {
        assert hs == before + [Heading(|lines|, lines[|lines| - 1])];
        assert hs[|before|].lineNo == |lines|;
      } else {
        assert hs == before;
        assert forall i, j | 0 <= i < j < |before| :: before[i].lineNo < before[j].lineNo;
      }
    }
  }

  /** Anchor `k` is the anchor of heading entry `k`, under the same line number. */
  lemma AnchorAt(lines: seq<string>, k: nat)
    requires k < |HeadingsOf(lines)|
    ensures var h := HeadingsOf(lines)[k];
      k < |AnchorsOf(lines)| && AnchorsOf(lines)[k] == HeadingAnchor(h.text, h.lineNo)
      && AnchorsOf(lines)[k].line == h.lineNo
  {
  }

  /** Every anchor is the anchor of a heading line, under that line's 1-based number. */
  lemma AnchorsAreHeadings(lines: seq<string>, k: nat)
    requires k < |AnchorsOf(lines)|
    ensures var a := AnchorsOf(lines)[k];
      1 <= a.line <= |lines| && IsHeading(lines[a.line - 1]) && a == HeadingAnchor(lines[a.line - 1], a.line)
  {
    var hs := HeadingsOf(lines);
    assert |AnchorsOf(lines)| == |hs|;
    HeadingAt(lines, k);
    AnchorAt(lines, k);
    var h, a := hs[k], AnchorsOf(lines)[k];
    assert a == HeadingAnchor(h.text, h.lineNo) && a.line == h.lineNo;
    assert lines[a.line - 1] == h.text && IsHeading(h.text);
  }

  /** Heading entry `k` is a heading line of the text, under its own number. */
  lemma HeadingAt(lines: seq<string>, k: nat)
    requires k < |HeadingsOf(lines)|
    ensures var h := HeadingsOf(lines)[k];
      1 <= h.lineNo <= |lines| && h.text == lines[h.lineNo - 1] && IsHeading(h.text)
  {
    HeadingsSound(lines);
    var hs := HeadingsOf(lines);
    assert hs[k] in hs;
  }

  /** Anchors are in document order. */
  lemma AnchorsOrdered(lines: seq<string>, i: nat, j: nat)
    requires i < j < |AnchorsOf(lines)|
    ensures AnchorsOf(lines)[i].line < AnchorsOf(lines)[j].line
  {
    HeadingsOrdered(lines);
    AnchorAt(lines, i);
    AnchorAt(lines, j);
  }

  /** Every heading line has an anchor. */
  lemma AnchorsComplete(lines: seq<string>, k: nat)
    requires k < |lines| && IsHeading(lines[k])
    ensures HeadingAnchor(lines[k], k + 1) in AnchorsOf(lines)
  {
    HeadingsComplete(lines, k);
    var hs := HeadingsOf(lines);
    var j :| 0 <= j < |hs| && hs[j] == Heading(k + 1, lines[k]);
    assert AnchorsOf(lines)[j] == HeadingAnchor(lines[k], k + 1);
  }

  /** `open_help_window`'s heading loop: anchors and TOC entries for the text's lines. */
  method ScanHeadings(raw: string) returns (anchors: seq<Anchor>, toc: seq<string>)
    ensures anchors == AnchorsOf(SplitLines(raw))
    ensures toc == Map(TocEntry, anchors)
  {
    anchors, toc := ScanLines(SplitLines(raw), AnchorOf, TocEntry);
  }

  /** The loop itself, over any anchor and entry rendering: a heading line appends one of each. */
  method ScanLines(lines: seq<string>, anchor: Heading -> Anchor, entry: Anchor -> string)
    returns (anchors: seq<Anchor>, toc: seq<string>)
    ensures anchors == Map(anchor, HeadingsOf(lines))
    ensures toc == Map(entry, anchors)
  {
    anchors := [];
    toc := [];
    ghost var heads: seq<Heading> := [];
    var i := 0;
    while i < |lines|
      invariant 0 <= i <= |lines|
      invariant heads == HeadingsOf(lines[..i])
      invariant |anchors| == |heads| && forall k | 0 <= k < |heads| :: anchors[k] == anchor(heads[k])
      invariant |toc| == |anchors| && forall k | 0 <= k < |toc| :: toc[k] == entry(anchors[k])
    {
      var line := lines[i];
      assert lines[..i + 1][..i] == lines[..i];
      if IsHeading(line) {
        var a := anchor(Heading(i + 1, line));
        heads := heads + [Heading(i + 1, line)];
        anchors := anchors + [a];
        toc := toc + [entry(a)];
      }
      i := i + 1;
    }
    assert lines[..|lines|] == lines;
    assert anchors == Map(anchor, heads);
    assert toc == Map(entry, anchors);
  }

  // ---------------------------------------------------------------------
  // Jumping to a section

  /** `title.lower().startswith(target.lower())` */
  predicate TitleMatches(a: Anchor, target: string) {
    StartsWith(Lower(a.title), Lower(target))
  }

  /** The index of the first anchor whose title matches, if any. */
  function FirstMatch(anchors: seq<Anchor>, target: string): (r: Option<nat>)
    ensures r.Some? ==> r.value < |anchors| && TitleMatches(anchors[r.value], target)
    ensures r.Some? ==> forall j | 0 <= j < r.value :: !TitleMatches(anchors[j], target)
    ensures r.None? ==> forall j | 0 <= j < |anchors| :: !TitleMatches(anchors[j], target)
  {
    if anchors == [] then None
    else if TitleMatches(anchors[0], target) then Some(0)
    else match FirstMatch(anchors[1..], target)
      case None => None
      case Some(k) => Some(k + 1)
  }

  /** The line `jump(target=...)` selects. */
  function JumpLine(anchors: seq<Anchor>, target: string): Option<nat> {
    match FirstMatch(anchors, target)
    case None => None
    case Some(k) => Some(anchors[k].line)
  }

  /** The `for ... break` loop of `jump`: the first matching anchor's line, or nothing. */
  method FindJumpLine(anchors: seq<Anchor>, target: string) returns (line: Option<nat>)
    ensures line == JumpLine(anchors, target)
  {
    var i := 0;
    while i < |anchors|
      invariant 0 <= i <= |anchors|
      invariant forall j | 0 <= j < i :: !TitleMatches(anchors[j], target)
    {
      if TitleMatches(anchors[i], target) {
        FirstMatchIs(anchors, target, i);
        return Some(anchors[i].line);
      }
      i := i + 1;
    }
    line := None;
  }

  /** A matching anchor with no earlier match is the first match. */
  lemma FirstMatchIs(anchors: seq<Anchor>, target: string, i: nat)
    requires i < |anchors| && TitleMatches(anchors[i], target)
    requires forall j | 0 <= j < i :: !TitleMatches(anchors[j], target)
    ensures FirstMatch(anchors, target) == Some(i)
  {
  }

  /** The line `jump` selects from the list box: the selected entry's anchor; nothing without a selection. */
  function SelectionLine(anchors: seq<Anchor>, selection: seq<nat>): (line: Option<nat>)
    requires |selection| > 0 ==> selection[0] < |anchors|
    ensures selection == [] <==> line.None?
    ensures line.Some? ==> line.value == anchors[selection[0]].line
  {
    if selection == [] then None else Some(anchors[selection[0]].line)
  }

  /** Line `n` (1-based) of the text is a heading. */
  predicate IsHeadingLine(lines: seq<string>, n: nat) {
    1 <= n <= |lines| && IsHeading(lines[n - 1])
  }

  /** The line a list-box selection jumps to is a heading line of the help text. */
  lemma SelectionIsHeading(lines: seq<string>, selection: seq<nat>)
    requires |selection| > 0 ==> selection[0] < |AnchorsOf(lines)|
    ensures var line := SelectionLine(AnchorsOf(lines), selection);
      line.Some? ==> IsHeadingLine(lines, line.value)
  {
    if selection != [] {
      var anchors := AnchorsOf(lines);
      var a := anchors[selection[0]];
      AnchorIsHeadingLine(lines, selection[0]);
      assert SelectionLine(anchors, selection) == Some(a.line);
    }
  }

  lemma AnchorIsHeadingLine(lines: seq<string>, k: nat)
    requires k < |AnchorsOf(lines)|
    ensures IsHeadingLine(lines, AnchorsOf(lines)[k].line)
  {
    AnchorsAreHeadings(lines, k);
  }

  /**
   * Jumping to a heading by its own title finds it, or an earlier anchor
   * whose title starts the same way.
   */
  lemma JumpFindsOwnTitle(anchors: seq<Anchor>, k: nat)
    requires k < |anchors|
    ensures var r := FirstMatch(anchors, anchors[k].title);
      r.Some? && r.value <= k
  {
    assert TitleMatches(anchors[k], anchors[k].title) by {
      assert Lower(anchors[k].title)[..|Lower(anchors[k].title)|] == Lower(anchors[k].title);
    }
  }

  // ---------------------------------------------------------------------
  // Search

  /** Number of `'\n'` in `s`. */
  function Newlines(s: string): (n: nat)
    ensures n <= |s|
  {
    if s == [] then 0 else Newlines(s[..|s| - 1]) + (if s[|s| - 1] == '\n' then 1 else 0)
  }

  /** The Tk line (1-based) holding character `pos`: one more than the line feeds before it. */
  function LineOfPos(text: string, pos: nat): nat
    requires pos <= |text|
  {
    1 + Newlines(text[..pos])
  }

  /** The search term: the query stripped and lower-cased. */
  function Term(query: string): string {
    Lower(Trim(query))
  }

  /** The line `do_search` selects: the one holding the first occurrence of the term, case-insensitively. */
  function SearchLine(text: string, query: string): Option<nat> {
    var term := Term(query);
    if term == [] then None
    else
      match Find(Lower(text), term)
      case None => None
      case Some(pos) => Some(LineOfPos(text, pos))
  }

  /**
   * A blank query selects nothing; otherwise a line is selected iff the
   * term occurs in the lower-cased text, and it is the line of the first
   * occurrence.
   */
  lemma SearchLineFacts(text: string, query: string)
    ensures Trim(query) == [] ==> SearchLine(text, query).None?
    ensures Trim(query) != [] ==> (SearchLine(text, query).Some? <==> Contains(Lower(text), Term(query)))
    ensures SearchLine(text, query).Some? ==>
      exists pos | 0 <= pos <= |text| - |Term(query)| ::
        && OccursAt(Lower(text), Term(query), pos)
        && (forall j | 0 <= j < pos :: !OccursAt(Lower(text), Term(query), j))
        && SearchLine(text, query) == Some(LineOfPos(text, pos))
  {
    FindContains(Lower(text), Term(query));
  }

  /** A selected line is a line of the text: between 1 and one more than its line feeds. */
  lemma {:induction false} SearchLineInText(text: string, query: string)
    ensures SearchLine(text, query).Some? ==> 1 <= SearchLine(text, query).value <= 1 + Newlines(text)
  {
    match Find(Lower(text), Term(query))
    case None =>
    case Some(pos) =>
      NewlinesPrefix(text, pos);
  }

  lemma {:induction false} NewlinesPrefix(s: string, k: nat)
    requires k <= |s|
    ensures Newlines(s[..k]) <= Newlines(s)
    decreases |s|
  {
    if k < |s| {
      var init := s[..|s| - 1];
      assert s[..k] == init[..k];
      NewlinesPrefix(init, k);
    } else {
      assert s[..k] == s;
    }
  }

  // ---------------------------------------------------------------------
  // The window

  /** The stub's heading line. */
  function StubHeading(): string { "# Help" }

  /** The text shown: the help file, or a one-heading stub when it cannot be read. */
  function HelpText(read: Option<string>, notFound: string): string {
    match read
    case Some(raw) => raw
    case None => StubHeading() + "\n\n" + notFound
  }

  /**
   * The file's text is shown as read; without it, the stub's lines are the
   * heading `# Help`, a blank line, then the message's lines.
   */
  lemma StubShowsHeading(read: Option<string>, notFound: string)
    ensures read.Some? ==> HelpText(read, notFound) == read.value
    ensures read.None? ==> SplitLines(HelpText(read, notFound)) == [StubHeading(), ""] + SplitLines(notFound)
  {
    if read.None? {
      assert HelpText(read, notFound) == StubHeading() + "\n" + "" + "\n" + notFound;
      SplitLinesTwo(StubHeading(), "", notFound);
    }
  }

  /** The stub's first line is a heading titled `Help`, at depth 1. */
  lemma StubHeadingShape()
    ensures IsHeading(StubHeading()) && TitleOf(StubHeading()) == "Help" && DepthOf(StubHeading()) == 1
  {
    StubHashes();
    StubTitleTrimmed();
  }

  /** One `#` comes off the stub's heading. */
  lemma StubHashes()
    ensures LStrip(StubHeading(), IsHash) == " Help"
  {
    assert StubHeading()[1..] == " Help";
    assert LStrip(" Help", IsHash) == " Help";
  }

  /** The text after the stub's hash strips to `Help`. */
  lemma StubTitleTrimmed()
    ensures Trim(" Help") == "Help"
  {
    LeadingSpaceDropped();
    TrimUnchanged("Help");
  }

  /** The space before `Help` is the only one stripped from the left. */
  lemma LeadingSpaceDropped()
    ensures LStrip(" Help", IsSpace) == LStrip("Help", IsSpace)
  {
    assert " Help"[1..] == "Help";
  }

  /** The help window's state: its text, anchors, TOC and the line the selection covers. */
  class HelpView {
    var text: string
    var anchors: seq<Anchor>
    var toc: seq<string>
    var selected: Option<nat>

    /** `open_help_window`: load the text, scan its headings, then jump to `section` when one is given. */
    constructor Open(read: Option<string>, notFound: string, section: Option<string>)
      ensures text == HelpText(read, notFound)
      ensures anchors == AnchorsOf(SplitLines(text))
      ensures toc == Map(TocEntry, anchors)
      ensures selected == (if section.Some? && section.value != "" then JumpLine(anchors, section.value) else None)
    {
      var raw := HelpText(read, notFound);
      var a, t := ScanHeadings(raw);
      text := raw;
      anchors := a;
      toc := t;
      selected := None;
      new;
      if section.Some? && section.value != "" {
        Jump(section.value);
      }
    }

    /** `jump(target=...)`: select the first matching heading's line; no match changes nothing. */
    method Jump(target: string)
      modifies this
      ensures text == old(text) && anchors == old(anchors) && toc == old(toc)
      ensures selected == (if JumpLine(anchors, target).Some? then JumpLine(anchors, target) else old(selected))
    {
      var line := FindJumpLine(anchors, target);
      if line.Some? {
        selected := line;
      }
    }

    /** `jump()` from the list box: select the chosen heading's line; no selection changes nothing. */
    method JumpToSelection(selection: seq<nat>)
      requires |selection| > 0 ==> selection[0] < |anchors|
      modifies this
      ensures text == old(text) && anchors == old(anchors) && toc == old(toc)
      ensures selected == (if selection == [] then old(selected) else SelectionLine(anchors, selection))
    {
      if selection != [] {
        selected := SelectionLine(anchors, selection);
      }
    }

    /** `do_search`: select the line of the first occurrence; a blank or absent term changes nothing. */
    method DoSearch(query: string)
      modifies this
      ensures text == old(text) && anchors == old(anchors) && toc == old(toc)
      ensures selected == (if SearchLine(text, query).Some? then SearchLine(text, query) else old(selected))
    {
      var line := SearchLine(text, query);
      if line.Some? {
        selected := line;
      }
    }
  }

  // ---------------------------------------------------------------------
  // Diagnostics

  /** What running `<tool> <version args>` gave: its two output streams, or the exception it raised. */
  datatype VersionRun = Output(stdout: string, stderr: string) | Raised(error: string)

  /** The first line of stdout, else of stderr, else `(no output)`. */
  function FirstOutputLine(stdout: string, stderr: string): string {
    if !IsBlank(stdout) then SplitLines(stdout)[0]
    else if !IsBlank(stderr) then SplitLines(stderr)[0]
    else "(no output)"
  }

  /** `_tool_info`: the diagnostic lines for one tool, given what `resolve_tool_path` found. */
  function ToolInfo(cmd: string, path: Option<string>, run: VersionRun): seq<string> {
    if path.None? || path.value == "" then [cmd + ": not found"]
    else
      var version := match run
        case Output(out, err) => FirstOutputLine(out, err)
        case Raised(e) => "error: " + e;
      [cmd + ": " + path.value, cmd + " version: " + version]
  }

  /** A tool that does not resolve gets exactly one line, `<cmd>: not found`; one that does gets two. */
  lemma ToolInfoLines(cmd: string, path: Option<string>, run: VersionRun)
    ensures path.None? || path.value == "" ==> ToolInfo(cmd, path, run) == [cmd + ": not found"]
    ensures path.Some? && path.value != "" ==>
      |ToolInfo(cmd, path, run)| == 2 && StartsWith(ToolInfo(cmd, path, run)[1], cmd + " version: ")
  {
  }
}
