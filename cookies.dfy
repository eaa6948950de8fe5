/**
 * Cookie handling before a download: choosing the cookie source, converting
 * a browser-extension JSON export into the Netscape `cookies.txt` format,
 * and checking (and if need be repairing) the Netscape header of a cookie file.
 */
module Cookies {

  import opened Wrappers
  import opened Strings
  import opened Json
  import Paths
  import Numbers

  const NetscapeMagic := "# Netscape HTTP Cookie File"
  const Brand := " by YT Audio Workbench"
  const ConvertedComment := "# This file was generated" + Brand + " from a JSON export."
  const RepairComment := "# Added header" + Brand + " to satisfy validators."
  const HttpOnlyPrefix := "#HttpOnly_"
  const RepairedTail := ".withheader"

  // ---------------------------------------------------------------------
  // Choosing the cookie source
  // ---------------------------------------------------------------------

  /** Where the downloader gets its cookies. */
  datatype CookieSource =
    | ConvertJson            // convert the export, then use `<working dir>/cookies.txt`
    | FromBrowser            // no file: the downloader reads the named browser's store
    | PassThrough            // use the given cookie file (or none) unchanged

  /** The path's final name has the suffix `.json` in any case (`/dir/.json` has none). */
  predicate IsJsonName(windows: bool, path: string) {
    Lower(Paths.Suffix(Paths.FinalName(windows, path))) == ".json"
  }

  /** `prepare_cookies`: a `.json` file (any case) wins over a browser, which wins over the file. */
  function PrepareCookies(windows: bool, cookiesFile: Option<string>, cookiesBrowser: Option<string>): (r: CookieSource)
    ensures r == ConvertJson <==> cookiesFile.Some? && IsJsonName(windows, cookiesFile.value)
    ensures r == FromBrowser <==>
      !(cookiesFile.Some? && IsJsonName(windows, cookiesFile.value))
      && cookiesBrowser.Some? && cookiesBrowser.value != "" && Lower(cookiesBrowser.value) != "none"
  {
    if cookiesFile.Some? && IsJsonName(windows, cookiesFile.value) then ConvertJson
    else if cookiesBrowser.Some? && cookiesBrowser.value != "" && Lower(cookiesBrowser.value) != "none" then FromBrowser
    else PassThrough
  }

  /** A file named `<x>.json` (with `x` not empty) in a directory is converted. */
  lemma JsonNameConverts(windows: bool, dir: string, x: string)
    requires x != [] && forall k | 0 <= k < |x| :: !Paths.IsPathSep(windows, x[k])
    ensures PrepareCookies(windows, Some(dir + "/" + x + ".json"), None) == ConvertJson
  {
    var path := dir + "/" + x + ".json";
    assert path == dir + "/" + x + "." + "json";
    Paths.PathSuffix(windows, dir, x, "json");
    LowerJson();
    assert IsJsonName(windows, path);
  }

  lemma LowerJson()
    ensures Lower(".json") == ".json"
  {
  }

  /** A file named just `.json` has no suffix, so it is passed through unchanged. */
  lemma DotJsonPassesThrough(windows: bool, dir: string)
    ensures PrepareCookies(windows, Some(dir + "/.json"), None) == PassThrough
  {
    Paths.DotFileSuffix(windows, dir, "json");
    assert dir + "/" + "." + "json" == dir + "/.json";
    assert Lower("") == "";
  }

  // ---------------------------------------------------------------------
  // One JSON record to one Netscape line
  // ---------------------------------------------------------------------

  /** Why converting a record raised. */
  datatype RecordError = NotARecord | DomainNotText | NameNotText | ValueNotText | PathNotText

  /** The domain and the include-subdomains flag after the `hostOnly` rule. */
  datatype Scope = Scope(domain: string, includeSubdomains: string)

  predicate IsDot(c: char) { c == '.' }

  /** `bool(c.get("hostOnly")) if "hostOnly" in c else None` */
  function HostOnlyOf(m: map<string, Json>): Option<bool> {
    if "hostOnly" in m then Some(Truthy(m["hostOnly"])) else None
  }

  /**
   * The `hostOnly` rule: host-only cookies lose every leading dot and are not
   * sent to subdomains; explicit domain cookies gain a leading dot when
   * missing and are; otherwise the leading dot decides.
   */
  function ApplyHostOnly(domain: string, hostOnly: Option<bool>): Scope {
    match hostOnly
    case Some(true) =>
      var d := if StartsWith(domain, ".") then LStrip(domain, IsDot) else domain;
      Scope(d, "FALSE")
    case Some(false) =>
      var d := if !StartsWith(domain, ".") then "." + domain else domain;
      Scope(d, "TRUE")
    case None =>
      Scope(domain, if StartsWith(domain, ".") then "TRUE" else "FALSE")
  }

  /** What the `hostOnly` rule guarantees about the domain and the flag. */
  lemma HostOnlyRule(domain: string, hostOnly: Option<bool>)
    ensures var r := ApplyHostOnly(domain, hostOnly);
      && (r.includeSubdomains == "TRUE" || r.includeSubdomains == "FALSE")
      && (hostOnly == Some(true) ==>
            r.includeSubdomains == "FALSE" && !StartsWith(r.domain, ".")
            && EndsWith(domain, r.domain)
            && forall i | 0 <= i < |domain| - |r.domain| :: domain[i] == '.')
      && (hostOnly == Some(false) ==>
            r.includeSubdomains == "TRUE" && StartsWith(r.domain, ".")
            && r.domain == (if StartsWith(domain, ".") then domain else "." + domain))
      && (hostOnly.None? ==>
            r.domain == domain && (r.includeSubdomains == "TRUE" <==> StartsWith(domain, ".")))
  {
    var r := ApplyHostOnly(domain, hostOnly);
    if hostOnly == Some(true) && StartsWith(domain, ".") {
      var l := LStrip(domain, IsDot);
      assert EndsWith(domain, l);
      assert !StartsWith(l, ".") by { if l != [] { assert l[..1] == [l[0]]; } }
    } else if hostOnly == Some(true) {
      assert !StartsWith(domain, ".");
      assert domain[|domain| - |domain|..] == domain;
    } else if hostOnly == Some(false) && !StartsWith(domain, ".") {
      assert ("." + domain)[..1] == ".";
    }
  }

  /**
   * `.replace("\t", "%09").replace("\n", "%0A").replace("\r", "%0D")`: the
   * three field-breaking characters are percent-escaped.
   */
  function Escape(s: string): string {
    ReplaceChar(ReplaceChar(ReplaceChar(s, '\t', "%09"), '\n', "%0A"), '\r', "%0D")
  }

  /** An escaped field holds no tab or line end, and text without them is left as it is. */
  lemma EscapeClean(s: string)
    ensures '\t' !in Escape(s) && '\n' !in Escape(s) && '\r' !in Escape(s)
    ensures ('\t' !in s && '\n' !in s && '\r' !in s) ==> Escape(s) == s
  {
    var a := ReplaceChar(s, '\t', "%09");
    ReplaceCharFacts(s, '\t', "%09");
    var b := ReplaceChar(a, '\n', "%0A");
    ReplaceCharFacts(a, '\n', "%0A");
    ReplaceCharFacts(b, '\r', "%0D");
  }

  /** What one character becomes under `Escape`. */
  function EscapeChar(c: char): string {
    if c == '\t' then "%09" else if c == '\n' then "%0A" else if c == '\r' then "%0D" else [c]
  }

  function EscapeEach(s: string): string {
    if s == [] then [] else EscapeChar(s[0]) + EscapeEach(s[1..])
  }

  /** The chained replacements act character by character: no output of one step is rewritten by a later one. */
  lemma {:induction false} EscapeIsPerCharacter(s: string)
    ensures Escape(s) == EscapeEach(s)
    decreases |s|
  {
    if s != [] {
      assert s == [s[0]] + s[1..];
      EscapeAppend([s[0]], s[1..]);
      EscapeSingle(s[0]);
      EscapeIsPerCharacter(s[1..]);
    }
  }

  lemma EscapeSingle(c: char)
    ensures Escape([c]) == EscapeChar(c)
  {
    assert [c][0] == c && [c][1..] == [];
    var a := ReplaceChar([c], '\t', "%09");
    assert a == (if c == '\t' then "%09" else [c]) + ReplaceChar([], '\t', "%09");
    var b := ReplaceChar(a, '\n', "%0A");
    ReplaceCharFacts(a, '\n', "%0A");
    if c == '\n' {
      assert b == "%0A" + ReplaceChar([], '\n', "%0A");
    }
    ReplaceCharFacts(b, '\r', "%0D");
    if c == '\r' {
      assert ReplaceChar(b, '\r', "%0D") == "%0D" + ReplaceChar([], '\r', "%0D");
    }
  }

  lemma EscapeAppend(x: string, y: string)
    ensures Escape(x + y) == Escape(x) + Escape(y)
  {
    ReplaceAppend(x, y, '\t', "%09");
    var x1, y1 := ReplaceChar(x, '\t', "%09"), ReplaceChar(y, '\t', "%09");
    ReplaceAppend(x1, y1, '\n', "%0A");
    var x2, y2 := ReplaceChar(x1, '\n', "%0A"), ReplaceChar(y1, '\n', "%0A");
    ReplaceAppend(x2, y2, '\r', "%0D");
  }

  lemma {:induction false} ReplaceAppend(x: string, y: string, c: char, repl: string)
    ensures ReplaceChar(x + y, c, repl) == ReplaceChar(x, c, repl) + ReplaceChar(y, c, repl)
    decreases |x|
  {
    if x != [] {
      var h := if x[0] == c then repl else [x[0]];
      assert (x + y)[0] == x[0];
      assert (x + y)[1..] == x[1..] + y;
      assert ReplaceChar(x + y, c, repl) == h + ReplaceChar(x[1..] + y, c, repl);
      ReplaceAppend(x[1..], y, c, repl);
      assert ReplaceChar(x, c, repl) == h + ReplaceChar(x[1..], c, repl);
    } else {
      assert x + y == y;
    }
  }

  /** The number `int(float(x))` gives for the expiry value, or none when that raises. */
  function IntOfFloat(j: Json): Option<int> {
    match j
    case JBool(b) => Some(if b then 1 else 0)
    case JInt(i) => Some(i)
    case JFloat(_, t, _) => t
    case JStr(s) => Numbers.TruncOfFloatText(s)
    case _ => None
  }

  /** `int(float(c.get("expirationDate") or c.get("expires") or 0))`, and 0 when that raises. */
  function ExpiryOf(m: map<string, Json>): (r: int)
    ensures !Truthy(Get(m, "expirationDate")) && !Truthy(Get(m, "expires")) ==> r == 0
  {
    var raw := Or(Or(Get(m, "expirationDate"), Get(m, "expires")), JInt(0));
    IntOfFloat(raw).GetOr(0)
  }

  /**
   * A truthy `expirationDate` decides the expiry, `expires` is read only
   * without one, and a value that `float` cannot read gives 0.
   */
  lemma ExpiryPrecedence(m: map<string, Json>)
    ensures Truthy(Get(m, "expirationDate")) ==>
      ExpiryOf(m) == IntOfFloat(Get(m, "expirationDate")).GetOr(0)
    ensures !Truthy(Get(m, "expirationDate")) && Truthy(Get(m, "expires")) ==>
      ExpiryOf(m) == IntOfFloat(Get(m, "expires")).GetOr(0)
  {
  }

  /**
   * An expiry given as integer text, either key, is read back as that
   * integer, when it is within the range a double holds exactly.
   */
  lemma ExpiryOfIntText(m: map<string, Json>, key: string, n: int)
    requires -Numbers.MaxExactDouble <= n <= Numbers.MaxExactDouble
    requires key == "expirationDate" || (key == "expires" && !Truthy(Get(m, "expirationDate")))
    requires Get(m, key) == JStr(IntToString(n))
    ensures ExpiryOf(m) == n
  {
    Numbers.TruncOfIntText(n);
    assert IntToString(n) != "" by { IntToStringShape(n); }
  }

  /** The seven Netscape fields of one cookie, in file order. */
  datatype NetscapeFields = NetscapeFields(
    domain: string, includeSubdomains: string, path: string, secure: string,
    expiry: string, name: string, value: string)
  {
    function Columns(): seq<string> {
      [domain, includeSubdomains, path, secure, expiry, name, value]
    }
    function Line(): string {
      Join(Columns(), "\t")
    }
  }

  /** `c.get("domain") or c.get("host") or ""`, which must be a string. */
  function DomainText(m: map<string, Json>): Option<string> {
    match Or(Or(Get(m, "domain"), Get(m, "host")), JStr(""))
    case JStr(s) => Some(s)
    case _ => None
  }

  /** The fields the loop builds for one record, or the error Python raises on it. */
  function RecordFields(c: Json): Result<NetscapeFields, RecordError>
  {
    if !c.JObject? then Err(NotARecord)
    else
      var m := c.fields;
      match DomainText(m)
      case None => Err(DomainNotText)
      case Some(domain) =>
        var scope := ApplyHostOnly(domain, HostOnlyOf(m));
        var secure := if Truthy(Get(m, "secure")) then "TRUE" else "FALSE";
        var expiry := IntToString(ExpiryOf(m));
        match TextOr(m, "name", "")
        case None => Err(NameNotText)
        case Some(name) =>
          match TextOr(m, "value", "")
          case None => Err(ValueNotText)
          case Some(value) =>
            var domainField := if Truthy(Get(m, "httpOnly")) then HttpOnlyPrefix + scope.domain else scope.domain;
            match TextOr(m, "path", "/")
            case None => Err(PathNotText)
            case Some(path) =>
              Ok(NetscapeFields(domainField, scope.includeSubdomains, path, secure, expiry,
                                Escape(name), Escape(value)))
  }

  /**
   * What a converted record's fields are: the flags are `TRUE`/`FALSE`, the
   * secure flag follows `secure`, the expiry is the printed integer, name and
   * value carry no tab or line break, the path is never empty, and an
   * domain is the `hostOnly`-adjusted one, behind the `#HttpOnly_` prefix
   * exactly when `httpOnly` is set. A value
   * that is not an object, or a domain that is not a string, fails.
   */
  lemma RecordFieldsShape(c: Json)
    ensures !c.JObject? ==> RecordFields(c) == Err(NotARecord)
    ensures c.JObject? && DomainText(c.fields).None? ==> RecordFields(c) == Err(DomainNotText)
    ensures RecordFields(c).Ok? ==> c.JObject? && DomainText(c.fields).Some?
    ensures RecordFields(c).Ok? ==>
      var f := RecordFields(c).value;
      var m := c.fields;
      && f.includeSubdomains in {"TRUE", "FALSE"}
      && (f.secure == (if Truthy(Get(m, "secure")) then "TRUE" else "FALSE"))
      && f.expiry == IntToString(ExpiryOf(m))
      && '\t' !in f.name && '\n' !in f.name && '\r' !in f.name
      && '\t' !in f.value && '\n' !in f.value && '\r' !in f.value
      && f.path != ""
      && f.name == Escape(TextOr(m, "name", "").value)
      && f.value == Escape(TextOr(m, "value", "").value)
      && var scope := ApplyHostOnly(DomainText(m).value, HostOnlyOf(m));
         f.includeSubdomains == scope.includeSubdomains
         && f.domain == (if Truthy(Get(m, "httpOnly")) then HttpOnlyPrefix else "") + scope.domain
  {
    if RecordFields(c).Ok? {
      var m := c.fields;
      HostOnlyRule(DomainText(m).value, HostOnlyOf(m));
      EscapeClean(TextOr(m, "name", "").value);
      EscapeClean(TextOr(m, "value", "").value);
    }
  }

  /** A Netscape line has exactly its seven fields when the domain and path carry no tab. */
  lemma LineFields(f: NetscapeFields)
    requires '\t' !in f.domain && '\t' !in f.path
    requires f.includeSubdomains in {"TRUE", "FALSE"} && f.secure in {"TRUE", "FALSE"}
    requires IsDigits(f.expiry) || (|f.expiry| > 0 && f.expiry[0] == '-' && IsDigits(f.expiry[1..]))
    requires '\t' !in f.name && '\t' !in f.value
    ensures Split(f.Line(), "\t") == f.Columns()
  {
    var cols := f.Columns();
    forall k | 0 <= k < |cols| ensures '\t' !in cols[k] {
      if k == 4 {
        assert f.expiry == [f.expiry[0]] + f.expiry[1..];
      }
    }
    SplitJoinChar(cols, '\t');
  }

  /** `str(n)` is a run of digits, after a minus sign when `n` is negative. */
  lemma IntToStringShape(n: int)
    ensures var s := IntToString(n);
      IsDigits(s) || (|s| > 0 && s[0] == '-' && IsDigits(s[1..]))
  {
    if n < 0 {
      assert IntToString(n)[1..] == NatToString(-n);
    }
  }

  // ---------------------------------------------------------------------
  // The whole export
  // ---------------------------------------------------------------------

  /** Why a conversion wrote nothing. */
  datatype ConvertError = Unreadable | NotIterable | BadRecord(index: nat, why: RecordError)

  /**
   * The records the `for c in data` loop visits: a top-level object holding
   * "cookies" is unwrapped once; iterating a non-empty string or object
   * yields strings, which are not records; other scalars cannot be iterated.
   */
  function Records(data: Json): (r: Result<seq<Json>, ConvertError>)
    ensures data.JArray? ==> r == Ok(data.items)
    ensures data.JObject? && "cookies" in data.fields && data.fields["cookies"].JArray? ==>
      r == Ok(data.fields["cookies"].items)
  {
    var d := if data.JObject? && "cookies" in data.fields then data.fields["cookies"] else data;
    match d
    case JArray(xs) => Ok(xs)
    case JStr(s) => if s == "" then Ok([]) else Err(BadRecord(0, NotARecord))
    case JObject(m) => if m == map[] then Ok([]) else Err(BadRecord(0, NotARecord))
    case _ => Err(NotIterable)
  }

  /** The file text for the given record lines: two header lines, the lines joined by newlines, a final newline. */
  function ConvertedFile(lines: seq<string>): string {
    NetscapeMagic + "\n" + ConvertedComment + "\n" + Join(lines, "\n") + "\n"
  }

  /** One record's Netscape line, or why the loop body raises on it. */
  function RecordLine(c: Json): Result<string, RecordError> {
    match RecordFields(c)
    case Ok(f) => Ok(f.Line())
    case Err(why) => Err(why)
  }

  /**
   * The text `convert_cookie_editor_json_to_netscape` writes for a decoded
   * export, or why it writes nothing: the header, then one line per record
   * joined by newlines, then a final newline. Any record that raises aborts
   * the whole conversion.
   */
  function ConvertedText(parsed: Option<Json>): Result<string, ConvertError> {
    match parsed
    case None => Err(Unreadable)
    case Some(data) =>
      match Records(data)
      case Err(e) => Err(e)
      case Ok(records) =>
        match MapUntilError(RecordLine, records)
        case Err((k, why)) => Err(BadRecord(k, why))
        case Ok(lines) => Ok(ConvertedFile(lines))
  }

  /**
   * `convert_cookie_editor_json_to_netscape`: `written` is the text of the
   * Netscape file, or the reason no file was written.
   */
  method ConvertCookieEditorJson(parsed: Option<Json>) returns (written: Result<string, ConvertError>)
    ensures written == ConvertedText(parsed)
  {
    if parsed.None? {
      return Err(Unreadable);
    }
    var records := Records(parsed.value);
    if records.Err? {
      return Err(records.error);
    }
    var lines := RunUntilError(RecordLine, records.value);
    if lines.Err? {
      return Err(BadRecord(lines.error.0, lines.error.1));
    }
    written := Ok(ConvertedFile(lines.value));
  }

  /**
   * A conversion either writes one line per record, each that record's own
   * line, or fails at the first record that raises, having converted all
   * records before it.
   */
  lemma ConversionOutcome(parsed: Option<Json>)
    requires parsed.Some? && Records(parsed.value).Ok?
    ensures var records := Records(parsed.value).value;
      match ConvertedText(parsed)
      case Ok(t) =>
        exists lines: seq<string> {:trigger ConvertedFile(lines)} ::
          |lines| == |records| && t == ConvertedFile(lines)
          && forall k | 0 <= k < |records| :: RecordFields(records[k]).Ok? && lines[k] == RecordFields(records[k]).value.Line()
      case Err(e) =>
        e.BadRecord? && e.index < |records| && RecordFields(records[e.index]) == Err(e.why)
        && forall j | 0 <= j < e.index :: RecordFields(records[j]).Ok?
  {
    var records := Records(parsed.value).value;
    var m := MapUntilError(RecordLine, records);
    if m.Ok? {
      MapUntilErrorOk(RecordLine, records);
      var lines := m.value;
      assert forall k | 0 <= k < |records| :: RecordFields(records[k]).Ok? && lines[k] == RecordFields(records[k]).value.Line() by {
        forall k | 0 <= k < |records| ensures RecordFields(records[k]).Ok? && lines[k] == RecordFields(records[k]).value.Line() {
          assert RecordLine(records[k]) == Ok(lines[k]);
        }
      }
    } else {
      MapUntilErrorErr(RecordLine, records);
      var (k, why) := m.error;
      assert RecordLine(records[k]) == Err(why);
      forall j | 0 <= j < k ensures RecordFields(records[j]).Ok? {
        assert RecordLine(records[j]).Ok?;
      }
    }
  }

  lemma MagicBreakFree()
    ensures NoLineBreak(NetscapeMagic)
  {
  }

  lemma BrandBreakFree()
    ensures NoLineBreak(Brand)
  {
  }

  lemma ConvertedCommentBreakFree()
    ensures NoLineBreak(ConvertedComment)
  {
    BrandBreakFree();
    assert NoLineBreak("# This file was generated");
    NoLineBreakAppend("# This file was generated", Brand);
    assert NoLineBreak(" from a JSON export.");
    NoLineBreakAppend("# This file was generated" + Brand, " from a JSON export.");
  }

  lemma RepairCommentBreakFree()
    ensures NoLineBreak(RepairComment)
  {
    BrandBreakFree();
    assert NoLineBreak("# Added header");
    NoLineBreakAppend("# Added header", Brand);
    assert NoLineBreak(" to satisfy validators.");
    NoLineBreakAppend("# Added header" + Brand, " to satisfy validators.");
  }

  lemma HeaderTextsBreakFree()
    ensures NoLineBreak(NetscapeMagic) && NoLineBreak(ConvertedComment) && NoLineBreak(RepairComment)
  {
    MagicBreakFree();
    ConvertedCommentBreakFree();
    RepairCommentBreakFree();
  }

  /**
   * Read back with `splitlines`, a converted file is the two header lines and
   * then exactly the record lines (one empty line when there are none),
   * provided no record line holds a line break.
   */
  lemma ConvertedLines(lines: seq<string>)
    requires forall k | 0 <= k < |lines| :: NoLineBreak(lines[k])
    ensures SplitLines(ConvertedFile(lines)) ==
      [NetscapeMagic, ConvertedComment] + (if lines == [] then [""] else lines)
  {
    MagicBreakFree();
    ConvertedCommentBreakFree();
    SplitLinesAfterTwo(NetscapeMagic, ConvertedComment, lines);
  }

  // ---------------------------------------------------------------------
  // Validating and repairing a Netscape file
  // ---------------------------------------------------------------------

  /** The first line that is not blank, or "" when every line is. */
  function FirstNonBlank(lines: seq<string>): (r: string)
    ensures r == "" || exists k | 0 <= k < |lines| :: lines[k] == r && !IsBlank(r)
    ensures r != "" ==> exists k | 0 <= k < |lines| :: lines[k] == r && forall j | 0 <= j < k :: IsBlank(lines[j])
    ensures (forall k | 0 <= k < |lines| :: IsBlank(lines[k])) ==> r == ""
  {
    if lines == [] then ""
    else if IsBlank(lines[0]) then
      var r := FirstNonBlank(lines[1..]);
      assert r != "" ==> exists k | 0 <= k < |lines| :: lines[k] == r && forall j | 0 <= j < k :: IsBlank(lines[j]) by {
        if r != "" {
          var k :| 0 <= k < |lines[1..]| && lines[1..][k] == r && forall j | 0 <= j < k :: IsBlank(lines[1..][j]);
          assert lines[k + 1] == r;
          assert forall j | 0 <= j < k + 1 :: IsBlank(lines[j]) by {
            forall j | 0 <= j < k + 1 ensures IsBlank(lines[j]) {
              if j > 0 { assert lines[j] == lines[1..][j - 1]; }
            }
          }
        }
      }
      r
    else lines[0]
  }

  /** The header check: the first non-blank line must start with the Netscape magic. */
  predicate NeedsHeader(txt: string) {
    !StartsWith(FirstNonBlank(SplitLines(txt)), NetscapeMagic)
  }

  /** The repaired text: the repair header, then the file with a final newline. */
  function RepairedText(txt: string): string {
    NetscapeMagic + "\n" + RepairComment + "\n" + (if EndsWith(txt, "\n") then txt else txt + "\n")
  }

  /** The repair puts exactly the two header lines in front and keeps every line of the file. */
  lemma RepairKeepsLines(txt: string)
    ensures var body := if EndsWith(txt, "\n") then txt else txt + "\n";
      SplitLines(RepairedText(txt)) == [NetscapeMagic, RepairComment] + SplitLines(body)
      && EndsWith(body, "\n") && body[..|txt|] == txt
  {
    MagicBreakFree();
    RepairCommentBreakFree();
    var body := if EndsWith(txt, "\n") then txt else txt + "\n";
    SplitLinesTwo(NetscapeMagic, RepairComment, body);
  }

  /** `path.with_suffix(path.suffix + ".withheader")`: a sibling, never the file itself. */
  function RepairedName(name: string): (r: string)
    ensures r == name + RepairedTail
    ensures r != name
  {
    Paths.WithOwnSuffix(name, RepairedTail);
    Paths.WithSuffix(name, Paths.Suffix(name) + RepairedTail)
  }

  /** The header check looks at the first line when that line is not blank. */
  lemma FirstLineDecides(first: string, rest: string)
    requires NoLineBreak(first) && !IsBlank(first)
    ensures FirstNonBlank(SplitLines(first + "\n" + rest)) == first
  {
    SplitLinesCons(first, rest);
  }

  /** A text that starts with the magic line needs no repair. */
  lemma MagicFirstNeedsNoHeader(rest: string)
    ensures !NeedsHeader(NetscapeMagic + "\n" + rest)
  {
    MagicBreakFree();
    assert !IsBlank(NetscapeMagic) by { assert !IsSpace(NetscapeMagic[2]); }
    FirstLineDecides(NetscapeMagic, rest);
    assert NetscapeMagic[..|NetscapeMagic|] == NetscapeMagic;
  }

  lemma ConcatAssoc(a: string, b: string, c: string, d: string, e: string)
    ensures a + b + c + d + e == a + b + (c + d + e)
  {
  }

  /** Repairing is idempotent: a repaired text already passes the header check. */
  lemma RepairIdempotent(txt: string)
    ensures !NeedsHeader(RepairedText(txt))
  {
    var body := if EndsWith(txt, "\n") then txt else txt + "\n";
    ConcatAssoc(NetscapeMagic, "\n", RepairComment, "\n", body);
    MagicFirstNeedsNoHeader(RepairComment + "\n" + body);
  }

  /** Text written by the conversion passes the header check. */
  lemma ConvertedHeaderFirst(lines: seq<string>)
    ensures !NeedsHeader(ConvertedFile(lines))
  {
    var body := Join(lines, "\n") + "\n";
    ConcatAssoc(NetscapeMagic, "\n", ConvertedComment, "\n", body);
    assert ConvertedFile(lines) == NetscapeMagic + "\n" + ConvertedComment + "\n" + body;
    MagicFirstNeedsNoHeader(ConvertedComment + "\n" + body);
  }

  /** A converted export never needs the repair. */
  lemma ConvertedNeedsNoHeader(parsed: Option<Json>)
    requires ConvertedText(parsed).Ok?
    ensures !NeedsHeader(ConvertedText(parsed).value)
  {
    var records := Records(parsed.value).value;
    ConvertedHeaderFirst(MapUntilError(RecordLine, records).value);
  }

  /** The outcome of `validate_netscape_cookiefile`. */
  datatype Validation = Validation(ok: bool, loadedFrom: Option<string>, wrote: Option<(string, string)>)

  /**
   * `validate_netscape_cookiefile` on the file `name`. The cookie-jar loader,
   * the file read and the write are outside the model: `loadsOriginal` and
   * `loadsRepaired` say whether the loader accepts the original and the
   * repaired file, `text` is what reading the original gives (none when the
   * read raises) and `writeOk` whether writing the sibling succeeds.
   */
  function ValidateCookieFile(name: string, loadsOriginal: bool, text: Option<string>,
                              writeOk: bool, loadsRepaired: bool): (v: Validation)
    ensures v.ok <==> loadsOriginal || (v.wrote.Some? && loadsRepaired)
    ensures loadsOriginal ==> v.loadedFrom == Some(name) && v.wrote.None?
    ensures v.wrote.Some? <==> !loadsOriginal && text.Some? && NeedsHeader(text.value) && writeOk
    ensures v.wrote.Some? ==> v.wrote.value == (name + RepairedTail, RepairedText(text.value))
    ensures v.wrote.Some? ==> v.wrote.value.0 != name
    ensures !loadsOriginal && v.ok ==> v.loadedFrom == Some(name + RepairedTail)
    ensures !v.ok ==> v.loadedFrom.None?
  {
    if loadsOriginal then Validation(true, Some(name), None)
    else if text.None? || !NeedsHeader(text.value) || !writeOk then Validation(false, None, None)
    else
      var fixed := RepairedName(name);
      var w := Some((fixed, RepairedText(text.value)));
      if loadsRepaired then Validation(true, Some(fixed), w) else Validation(false, None, w)
  }

  /**
   * A converted record's line splits on tabs into exactly its seven fields
   * whenever its domain and path hold no tab.
   */
  lemma RecordLineColumns(c: Json)
    requires RecordFields(c).Ok?
    requires '\t' !in RecordFields(c).value.domain && '\t' !in RecordFields(c).value.path
    ensures |Split(RecordLine(c).value, "\t")| == 7
    ensures Split(RecordLine(c).value, "\t") == RecordFields(c).value.Columns()
  {
    RecordFieldsShape(c);
    IntToStringShape(ExpiryOf(c.fields));
    LineFields(RecordFields(c).value);
  }
}
