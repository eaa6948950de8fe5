/**
 * The translation catalogue (`i18n.py`): a `Language` loads `<code>.json`
 * from the locale directory, falling back to English, and looks up
 * dot-separated keys in the decoded tree; `available_locales` lists the
 * locale files sorted by code.
 */
module I18n {

  import opened Wrappers
  import opened Strings
  import opened Json
  import opened Paths

  /**
   * The locale directory: absent, or its entries in the order the
   * file system lists them and the decoded document of every file that
   * opens and parses as JSON.
   */
  datatype LangDir = Missing | Dir(entries: seq<string>, docs: map<string, Json>)

  /** `{}` */
  function EmptyDoc(): Json {
    JObject(map[])
  }

  function FileName(code: string): string {
    code + ".json"
  }

  /** `json.load(open(lang_dir / name))`, none when either raises. */
  function ReadDoc(dir: LangDir, name: string): Option<Json> {
    if dir.Dir? && name in dir.docs then Some(dir.docs[name]) else None
  }

  /** What `load(code)` leaves in `_data`: the locale's document, else English's (unless the locale is English), else `{}`. */
  function Loaded(dir: LangDir, code: string): Json {
    match ReadDoc(dir, FileName(code))
    case Some(d) => d
    case None =>
      if code == "en" then EmptyDoc()
      else match ReadDoc(dir, FileName("en"))
        case Some(d) => d
        case None => EmptyDoc()
  }

  // ---------------------------------------------------------------------
  // Dot-path lookup

  /** The value at the end of `parts`, walking only through objects; none when a step fails. */
  function Resolve(cur: Json, parts: seq<string>): Option<Json>
    decreases |parts|
  {
    if parts == [] then Some(cur)
    else if cur.JObject? && parts[0] in cur.fields then Resolve(cur.fields[parts[0]], parts[1..])
    else None
  }

  /** `str(value)` for a string, integer, boolean or float; none for anything else. */
  function Rendered(v: Json): Option<string> {
    match v
    case JStr(s) => Some(s)
    case JInt(i) => Some(IntToString(i))
    case JBool(b) => Some(if b then "True" else "False")
    case JFloat(_, _, text) => Some(text)
    case _ => None
  }

  /** `get(key, default)` on a decoded document. */
  function Lookup(data: Json, key: string, default: Option<string>): Option<string> {
    match Resolve(data, Split(key, "."))
    case None => default
    case Some(v) => if Rendered(v).Some? then Rendered(v) else default
  }

  /** Walking `p + q` walks `p` and then `q` from where `p` ended. */
  lemma {:induction false} ResolveAppend(cur: Json, p: seq<string>, q: seq<string>)
    ensures Resolve(cur, p + q) == (match Resolve(cur, p) case None => None case Some(v) => Resolve(v, q))
    decreases |p|
  {
    if p != [] {
      assert (p + q)[0] == p[0];
      assert (p + q)[1..] == p[1..] + q;
      if cur.JObject? && p[0] in cur.fields {
        ResolveAppend(cur.fields[p[0]], p[1..], q);
      }
    } else {
      assert p + q == q;
    }
  }

  /**
   * Joining dot-free segments with `.` and looking the result up walks
   * exactly those segments.
   */
  lemma LookupPath(data: Json, parts: seq<string>, default: Option<string>)
    requires |parts| >= 1
    requires forall k | 0 <= k < |parts| :: '.' !in parts[k]
    ensures Lookup(data, Join(parts, "."), default) ==
      (match Resolve(data, parts) case None => default
       case Some(v) => if Rendered(v).Some? then Rendered(v) else default)
  {
    assert "." == ['.'];
    SplitJoinChar(parts, '.');
  }

  /** A top-level string or number under a dot-free key is returned as its text. */
  lemma LookupTopLevel(m: map<string, Json>, key: string, default: Option<string>)
    requires '.' !in key && key in m && Rendered(m[key]).Some?
    ensures Lookup(JObject(m), key, default) == Rendered(m[key])
  {
    assert "." == ['.'];
    SplitNoChar(key, '.');
    assert Split(key, ".") == [key];
    assert Resolve(JObject(m), [key]) == Resolve(m[key], []);
  }

  /** Every lookup in a document that is not an object gives the default. */
  lemma LookupNotObject(data: Json, key: string, default: Option<string>)
    requires !data.JObject?
    ensures Lookup(data, key, default) == default
  {
  }

  /** An object, list or null at the end of the path gives the default too. */
  lemma LookupNotText(data: Json, key: string, default: Option<string>)
    requires var r := Resolve(data, Split(key, ".")); r.Some? && (r.value.JObject? || r.value.JArray? || r.value.JNull?)
    ensures Lookup(data, key, default) == default
  {
  }

  /** A result other than the default is always the text of a string, number or boolean at the end of the path. */
  lemma LookupFound(data: Json, key: string, default: Option<string>)
    requires Lookup(data, key, default) != default
    ensures var r := Resolve(data, Split(key, "."));
      r.Some? && Rendered(r.value).Some? && Lookup(data, key, default) == Rendered(r.value)
  {
  }

  /** When neither the locale nor English can be read, every lookup gives its default. */
  lemma {:induction false} UnloadedGivesDefault(dir: LangDir, code: string, key: string, default: Option<string>)
    requires ReadDoc(dir, FileName(code)).None? && ReadDoc(dir, FileName("en")).None?
    ensures Loaded(dir, code) == EmptyDoc()
    ensures Lookup(Loaded(dir, code), key, default) == default
  {
    var parts := Split(key, ".");
    assert parts[0] !in EmptyDoc().fields;
  }

  /** The fallback order of `load`: the locale first, English second (never for English itself), `{}` last. */
  lemma LoadedFallback(dir: LangDir, code: string)
    ensures ReadDoc(dir, FileName(code)).Some? ==> Loaded(dir, code) == ReadDoc(dir, FileName(code)).value
    ensures ReadDoc(dir, FileName(code)).None? && code == "en" ==> Loaded(dir, code) == EmptyDoc()
    ensures ReadDoc(dir, FileName(code)).None? && code != "en" ==>
      Loaded(dir, code) == Loaded(dir, "en")
  {
  }

  // ---------------------------------------------------------------------
  // Locale listing

  /** Whether `Path.glob("*.json")` matches an entry name. */
  predicate IsJsonName(name: string) {
    EndsWith(name, ".json")
  }

  /** The dictionary the listing loop fills: code (the file's stem) to file, later entries winning. */
  function LocaleMap(entries: seq<string>): map<string, string> {
    if entries == [] then map[]
    else
      var last := entries[|entries| - 1];
      var init := LocaleMap(entries[..|entries| - 1]);
      if IsJsonName(last) then init[Stem(last) := last] else init
  }

  /** Python's `a < b` on strings: code-point lexicographic order. */
  predicate Below(a: string, b: string)
    decreases |a|
  {
    if a == [] then b != []
    else if b == [] then false
    else if a[0] != b[0] then a[0] < b[0]
    else Below(a[1..], b[1..])
  }

  lemma {:induction false} BelowIrreflexive(a: string)
    ensures !Below(a, a)
    decreases |a|
  {
    if a != [] {
      BelowIrreflexive(a[1..]);
    }
  }

  lemma {:induction false} BelowTransitive(a: string, b: string, c: string)
    requires Below(a, b) && Below(b, c)
    ensures Below(a, c)
    decreases |a|
  {
    if a != [] && a[0] == b[0] && b[0] == c[0] {
      BelowTransitive(a[1..], b[1..], c[1..]);
    }
  }

  lemma {:induction false} BelowTotal(a: string, b: string)
    requires a != b
    ensures Below(a, b) || Below(b, a)
    decreases |a|
  {
    if a != [] && b != [] && a[0] == b[0] {
      assert a == [a[0]] + a[1..] && b == [b[0]] + b[1..];
      BelowTotal(a[1..], b[1..]);
    }
  }

  /** Codes strictly increase. */
  predicate SortedByCode(items: seq<(string, string)>) {
    forall i, j | 0 <= i < j < |items| :: Below(items[i].0, items[j].0)
  }

  /** Each code is below the next one. */
  predicate Chained(items: seq<(string, string)>) {
    forall i | 0 <= i < |items| - 1 :: Below(items[i].0, items[i + 1].0)
  }

  lemma {:induction false} ChainedBelow(items: seq<(string, string)>, i: nat, j: nat)
    requires Chained(items) && i < j < |items|
    ensures Below(items[i].0, items[j].0)
    decreases j - i
  {
    if i + 1 < j {
      ChainedBelow(items, i, j - 1);
      BelowTransitive(items[i].0, items[j - 1].0, items[j].0);
    }
  }

  lemma ChainedSorted(items: seq<(string, string)>)
    requires Chained(items)
    ensures SortedByCode(items)
  {
    forall i, j | 0 <= i < j < |items|
      ensures Below(items[i].0, items[j].0)
    {
      ChainedBelow(items, i, j);
    }
  }

  /** The codes listed. */
  function Codes(items: seq<(string, string)>): set<string> {
    set p | p in items :: p.0
  }

  /** Insert an entry before the first one with a larger code. */
  function Insert(items: seq<(string, string)>, item: (string, string)): (r: seq<(string, string)>)
    ensures |r| == |items| + 1
    ensures forall x :: x in r <==> x in items || x == item
    ensures r[0] == item || (items != [] && r[0] == items[0])
  {
    if items == [] || Below(item.0, items[0].0) then [item] + items
    else
      var rest := Insert(items[1..], item);
      assert forall x :: x in items <==> x == items[0] || x in items[1..] by {
        assert items == [items[0]] + items[1..];
      }
      [items[0]] + rest
  }

  /** Inserting a new code into a chained listing keeps it chained. */
  lemma {:induction false} InsertChained(items: seq<(string, string)>, item: (string, string))
    requires Chained(items)
    requires item.0 !in Codes(items)
    ensures Chained(Insert(items, item))
  {
    if items != [] && !Below(item.0, items[0].0) {
      assert items[0] in items;
      BelowTotal(item.0, items[0].0);
      var tail := items[1..];
      assert Codes(tail) <= Codes(items) by {
        forall p | p in tail ensures p in items { }
      }
      InsertChained(tail, item);
      var rest := Insert(tail, item);
      assert Insert(items, item) == [items[0]] + rest;
      assert rest[0] == item || rest[0] == items[1];
    }
  }

  /** Inserting adds exactly the entry's code. */
  lemma InsertCodes(items: seq<(string, string)>, item: (string, string))
    ensures Codes(Insert(items, item)) == Codes(items) + {item.0}
  {
    var r := Insert(items, item);
    forall c | c in Codes(r)
      ensures c in Codes(items) + {item.0}
    {
      var p :| p in r && p.0 == c;
    }
    forall c | c in Codes(items) + {item.0}
      ensures c in Codes(r)
    {
      if c == item.0 {
        assert item in r;
      } else {
        var p :| p in items && p.0 == c;
        assert p in r;
      }
    }
  }

  /** `dict(sorted(locales.items()))`: the same entries, ordered by code. */
  method SortByCode(m: map<string, string>) returns (items: seq<(string, string)>)
    ensures SortedByCode(items)
    ensures Codes(items) == m.Keys
    ensures forall i | 0 <= i < |items| :: items[i].0 in m && m[items[i].0] == items[i].1
  {
    items := InsertAll(m);
    ChainedSorted(items);
    assert forall i | 0 <= i < |items| :: items[i] in items;
  }

  /** Insertion of the dictionary's entries one by one. */
  method InsertAll(m: map<string, string>) returns (items: seq<(string, string)>)
    ensures Chained(items)
    ensures Codes(items) == m.Keys
    ensures forall p | p in items :: p.0 in m && m[p.0] == p.1
  {
    items := [];
    var rest := m.Keys;
    while rest != {}
      invariant rest <= m.Keys
      invariant Chained(items)
      invariant Codes(items) == m.Keys - rest
      invariant forall p | p in items :: p.0 in m && m[p.0] == p.1
      decreases |rest|
    {
      var code :| code in rest;
      ghost var done := m.Keys - rest;
      InsertKeeps(items, m, code);
      items := Insert(items, (code, m[code]));
      rest := rest - {code};
      assert m.Keys - rest == done + {code};
    }
  }

  /** One insertion keeps the listing chained, adds its code, and takes its value from the dictionary. */
  lemma InsertKeeps(items: seq<(string, string)>, m: map<string, string>, code: string)
    requires code in m && code !in Codes(items) && Chained(items)
    requires forall p | p in items :: p.0 in m && m[p.0] == p.1
    ensures Chained(Insert(items, (code, m[code])))
    ensures Codes(Insert(items, (code, m[code]))) == Codes(items) + {code}
    ensures forall p | p in Insert(items, (code, m[code])) :: p.0 in m && m[p.0] == p.1
  {
    InsertChained(items, (code, m[code]));
    InsertCodes(items, (code, m[code]));
  }

  /** The listing loop: every `*.json` entry under its stem. */
  method CollectLocales(entries: seq<string>) returns (locales: map<string, string>)
    ensures locales == LocaleMap(entries)
  {
    locales := map[];
    var i := 0;
    while i < |entries|
      invariant 0 <= i <= |entries|
      invariant locales == LocaleMap(entries[..i])
    {
      assert entries[..i + 1][..i] == entries[..i];
      if IsJsonName(entries[i]) {
        locales := locales[Stem(entries[i]) := entries[i]];
      }
      i := i + 1;
    }
    assert entries[..|entries|] == entries;
  }

  /** Each code maps to a `*.json` entry whose stem it is, and every such entry's stem is a code. */
  lemma {:induction false} LocaleMapFacts(entries: seq<string>)
    ensures forall code | code in LocaleMap(entries) ::
      LocaleMap(entries)[code] in entries && IsJsonName(LocaleMap(entries)[code]) && Stem(LocaleMap(entries)[code]) == code
    ensures forall k | 0 <= k < |entries| && IsJsonName(entries[k]) :: Stem(entries[k]) in LocaleMap(entries)
  {
    if entries != [] {
      var init := entries[..|entries| - 1];
      LocaleMapFacts(init);
      assert forall k | 0 <= k < |init| :: init[k] == entries[k];
      assert forall e | e in init :: e in entries;
    }
  }

  /** The `Language` object: its directory, its code and its decoded catalogue. */
  class Language {
    const dir: LangDir
    var code: string
    var data: Json

    /** `Language(lang_dir, code)`: set the directory and load the code. */
    constructor (dir: LangDir, code: string)
      ensures this.dir == dir && this.code == code && data == Loaded(dir, code)
    {
      this.dir := dir;
      this.code := code;
      this.data := EmptyDoc();
      new;
      Load(code);
    }

    /** `load(code)`: the code is always taken; the catalogue falls back to English, then to `{}`. */
    method Load(code: string)
      modifies this
      ensures this.code == code && data == Loaded(dir, code)
    {
      this.code := code;
      data := EmptyDoc();
      match ReadDoc(dir, FileName(code))
      case Some(d) =>
        data := d;
      case None =>
        if code != "en" {
          match ReadDoc(dir, FileName("en"))
          case Some(d) =>
            data := d;
          case None =>
            data := EmptyDoc();
        }
    }

    /** `get(key, default)`: walk the dot path, then render the value. */
    method Get(key: string, default: Option<string>) returns (r: Option<string>)
      ensures r == Lookup(data, key, default)
    {
      var parts := Split(key, ".");
      var cur := data;
      var i := 0;
      while i < |parts|
        invariant 0 <= i <= |parts|
        invariant Resolve(data, parts) == Resolve(cur, parts[i..])
      {
        if cur.JObject? && parts[i] in cur.fields {
          assert parts[i..][1..] == parts[i + 1..];
          cur := cur.fields[parts[i]];
        } else {
          return default;
        }
        i := i + 1;
      }
      var text := Rendered(cur);
      if text.Some? {
        r := text;
      } else {
        r := default;
      }
    }

    /** `available_locales()`: code to file for every `*.json` entry, sorted by code; empty without the directory. */
    method AvailableLocales() returns (locales: seq<(string, string)>)
      ensures dir.Missing? ==> locales == []
      ensures dir.Dir? ==> SortedByCode(locales) && Codes(locales) == LocaleMap(dir.entries).Keys
      ensures dir.Dir? ==> forall i | 0 <= i < |locales| ::
        LocaleMap(dir.entries)[locales[i].0] == locales[i].1
    {
      if dir.Missing? {
        return [];
      }
      var found := CollectLocales(dir.entries);
      locales := SortByCode(found);
    }
  }
}
