/**
 * The locale consistency check (`scripts/check_i18n_keys.py`): every
 * locale file must have the same leaf key paths, and no key path may lead
 * to an object in one locale and to a value in another. Keys are taken
 * literally: a key containing `.` is one step of a path.
 */
module I18nCheck {

  import opened Wrappers
  import opened Json
  import I18n

  /** A key tuple: the keys from the top of a document down to a value. */
  type KeyPath = seq<string>

  /** What `walk_shapes` records for a path: `"dict"` or `"leaf"`. */
  datatype Shape = DictShape | LeafShape

  function ShapeOf(v: Json): Shape {
    if v.JObject? then DictShape else LeafShape
  }

  /** Every key path through nested objects, starting at the keys of `j`. */
  function PathsOf(j: Json): set<KeyPath> {
    match j
    case JObject(m) => set k, p | k in m && p in {[]} + PathsOf(m[k]) :: [k] + p
    case _ => {}
  }

  /** `walk_leaves`: the key paths that end at something other than an object. */
  function Leaves(j: Json): set<KeyPath> {
    match j
    case JObject(m) => set k, p | k in m && p in (if m[k].JObject? then Leaves(m[k]) else {[]}) :: [k] + p
    case _ => {}
  }

  /** A path of `JObject(m)` is a key of `m` followed by nothing or a path of its value. */
  lemma PathsOfCons(m: map<string, Json>, k: string, rest: KeyPath)
    ensures [k] + rest in PathsOf(JObject(m)) <==> k in m && (rest == [] || rest in PathsOf(m[k]))
  {
    if k in m && (rest == [] || rest in PathsOf(m[k])) {
      assert rest in {[]} + PathsOf(m[k]);
    }
    if [k] + rest in PathsOf(JObject(m)) {
      var k', p :| k' in m && p in {[]} + PathsOf(m[k']) && [k'] + p == [k] + rest;
      assert k' == ([k'] + p)[0];
      assert p == ([k'] + p)[1..];
    }
  }

  /** The same for leaf paths: the value under the key is not an object, or the rest is one of its leaf paths. */
  lemma LeavesCons(m: map<string, Json>, k: string, rest: KeyPath)
    ensures [k] + rest in Leaves(JObject(m)) <==>
      k in m && (if m[k].JObject? then rest in Leaves(m[k]) else rest == [])
  {
    if k in m && (if m[k].JObject? then rest in Leaves(m[k]) else rest == []) {
      assert rest in (if m[k].JObject? then Leaves(m[k]) else {[]});
    }
    if [k] + rest in Leaves(JObject(m)) {
      var k', p :| k' in m && p in (if m[k'].JObject? then Leaves(m[k']) else {[]}) && [k'] + p == [k] + rest;
      assert k' == ([k'] + p)[0];
      assert p == ([k'] + p)[1..];
    }
  }

  /** A path of `PathsOf(j)` is a non-empty walk through objects that succeeds. */
  lemma {:induction false} PathsResolve(j: Json, p: KeyPath)
    ensures p in PathsOf(j) <==> |p| >= 1 && I18n.Resolve(j, p).Some?
    decreases |p|
  {
    if |p| >= 1 && j.JObject? {
      var k := p[0];
      var rest := p[1..];
      assert p == [k] + rest;
      PathsOfCons(j.fields, k, rest);
      if k in j.fields && rest != [] {
        PathsResolve(j.fields[k], rest);
      }
    }
  }

  /** The shape recorded for a path of `j`. */
  function ShapeAt(j: Json, p: KeyPath): Shape
    requires p in PathsOf(j)
  {
    PathsResolve(j, p);
    ShapeOf(I18n.Resolve(j, p).value)
  }

  /** `walk_shapes(d)`: every path of `d` labelled with the shape of what it leads to. */
  function Shapes(j: Json): map<KeyPath, Shape> {
    map p | p in PathsOf(j) :: ShapeAt(j, p)
  }

  /** The leaf paths are exactly the paths labelled `"leaf"`: `walk_leaves` and `walk_shapes` agree. */
  lemma {:induction false} LeavesAreLeafShapes(j: Json, p: KeyPath)
    ensures p in Leaves(j) <==> p in PathsOf(j) && ShapeAt(j, p) == LeafShape
    decreases |p|
  {
    if |p| >= 1 && j.JObject? {
      var k := p[0];
      var rest := p[1..];
      assert p == [k] + rest;
      PathsOfCons(j.fields, k, rest);
      LeavesCons(j.fields, k, rest);
      PathsResolve(j, p);
      if k in j.fields {
        var v := j.fields[k];
        if rest != [] {
          LeavesAreLeafShapes(v, rest);
          PathsResolve(v, rest);
        }
      }
    } else {
      PathsResolve(j, p);
    }
  }

  // ---------------------------------------------------------------------
  // walk_shapes, as the recursive loop that fills `out`

  /** `p` is `prefix` followed by a path of `JObject(d)`. */
  predicate Within(prefix: KeyPath, d: map<string, Json>, p: KeyPath) {
    |p| > |prefix| && p[..|prefix|] == prefix && p[|prefix|..] in PathsOf(JObject(d))
  }

  /** The same, for paths that start with one of the keys `ks`. */
  predicate WithinKeys(prefix: KeyPath, d: map<string, Json>, p: KeyPath, ks: set<string>) {
    Within(prefix, d, p) && p[|prefix|] in ks
  }

  /** The paths under `prefix + [k]`: that path itself and, for an object, the paths under it. */
  lemma UnderKey(prefix: KeyPath, d: map<string, Json>, k: string, p: KeyPath)
    requires k in d
    ensures WithinKeys(prefix, d, p, {k}) <==>
      p == prefix + [k] || (d[k].JObject? && Within(prefix + [k], d[k].fields, p))
    ensures p == prefix + [k] ==> Within(prefix, d, p) && ShapeAt(JObject(d), p[|prefix|..]) == ShapeOf(d[k])
    ensures d[k].JObject? && Within(prefix + [k], d[k].fields, p) ==>
      Within(prefix, d, p) && ShapeAt(JObject(d), p[|prefix|..]) == ShapeAt(d[k], p[|prefix| + 1..])
  {
    if |p| > |prefix| && p[..|prefix|] == prefix && p[|prefix|] == k {
      var rest := p[|prefix| + 1..];
      assert p[|prefix|..] == [k] + rest;
      PathsOfCons(d, k, rest);
      assert p == prefix + [k] <==> rest == [];
      if rest != [] && d[k].JObject? {
        assert p[..|prefix| + 1] == prefix + [k];
        assert p[|prefix| + 1..] == rest;
        ResolveStep(d, k, rest);
      }
      if p == prefix + [k] {
        assert I18n.Resolve(JObject(d), [k]) == I18n.Resolve(d[k], []);
      }
    }
    if d[k].JObject? && Within(prefix + [k], d[k].fields, p) {
      assert p[..|prefix|] == (prefix + [k])[..|prefix|];
      assert p[|prefix|] == (prefix + [k])[|prefix|];
    }
  }

  lemma ResolveStep(d: map<string, Json>, k: string, rest: KeyPath)
    requires k in d
    ensures I18n.Resolve(JObject(d), [k] + rest) == I18n.Resolve(d[k], rest)
  {
    assert ([k] + rest)[1..] == rest;
  }

  /**
   * `res` is `base` with every path under `prefix` that starts with a key
   * of `ks` added, labelled with its shape, and nothing else changed.
   */
  ghost predicate Extends(res: map<KeyPath, Shape>, base: map<KeyPath, Shape>, prefix: KeyPath,
                    d: map<string, Json>, ks: set<string>) {
    && (forall p :: p in res <==> p in base || WithinKeys(prefix, d, p, ks))
    && (forall p | p in res ::
          res[p] == (if WithinKeys(prefix, d, p, ks) then ShapeAt(JObject(d), p[|prefix|..]) else base[p]))
  }

  /** After a key whose value is an object: its own path, then everything below it. */
  lemma {:induction false} StepDict(before: map<KeyPath, Shape>, res: map<KeyPath, Shape>, out: map<KeyPath, Shape>,
                                    prefix: KeyPath, d: map<string, Json>, k: string, done: set<string>)
    requires k in d && d[k].JObject?
    requires Extends(before, out, prefix, d, done)
    requires Extends(res, before[prefix + [k] := DictShape], prefix + [k], d[k].fields, d[k].fields.Keys)
    ensures Extends(res, out, prefix, d, done + {k})
  {
    forall p
      ensures p in res <==> p in out || WithinKeys(prefix, d, p, done + {k})
      ensures p in res ==>
        res[p] == (if WithinKeys(prefix, d, p, done + {k}) then ShapeAt(JObject(d), p[|prefix|..]) else out[p])
    {
      UnderKey(prefix, d, k, p);
      WithinAllKeys(prefix + [k], d[k].fields, p);
    }
  }

  /** After a key whose value is not an object: just its own path. */
  lemma {:induction false} StepLeaf(before: map<KeyPath, Shape>, out: map<KeyPath, Shape>,
                                    prefix: KeyPath, d: map<string, Json>, k: string, done: set<string>)
    requires k in d && !d[k].JObject?
    requires Extends(before, out, prefix, d, done)
    ensures Extends(before[prefix + [k] := LeafShape], out, prefix, d, done + {k})
  {
    var res := before[prefix + [k] := LeafShape];
    forall p
      ensures p in res <==> p in out || WithinKeys(prefix, d, p, done + {k})
      ensures p in res ==>
        res[p] == (if WithinKeys(prefix, d, p, done + {k}) then ShapeAt(JObject(d), p[|prefix|..]) else out[p])
    {
      UnderKey(prefix, d, k, p);
    }
  }

  /** Every path under `prefix` starts with one of the keys. */
  lemma WithinAllKeys(prefix: KeyPath, d: map<string, Json>, p: KeyPath)
    ensures WithinKeys(prefix, d, p, d.Keys) <==> Within(prefix, d, p)
  {
    if Within(prefix, d, p) {
      var rest := p[|prefix| + 1..];
      assert p[|prefix|..] == [p[|prefix|]] + rest;
      PathsOfCons(d, p[|prefix|], rest);
    }
  }

  /**
   * `walk_shapes(d, prefix, out)`: `out` gains every path under `prefix`
   * with its shape, overwriting what it held there, and keeps the rest.
   */
  method WalkShapes(d: map<string, Json>, prefix: KeyPath, out: map<KeyPath, Shape>)
    returns (res: map<KeyPath, Shape>)
    ensures Extends(res, out, prefix, d, d.Keys)
    decreases JObject(d), 1
  {
    res := out;
    var todo := d.Keys;
    while todo != {}
      invariant todo <= d.Keys
      invariant Extends(res, out, prefix, d, d.Keys - todo)
      decreases |todo|
    {
      var k :| k in todo;
      ghost var done := d.Keys - todo;
      res := WalkKey(d, prefix, k, out, res, done);
      todo := todo - {k};
      assert d.Keys - todo == done + {k};
    }
    assert d.Keys - todo == d.Keys;
  }

  /** One pass of the loop in `walk_shapes`: the key's own path, then, for an object, the walk below it. */
  method WalkKey(d: map<string, Json>, prefix: KeyPath, k: string, ghost out: map<KeyPath, Shape>,
                 acc: map<KeyPath, Shape>, ghost done: set<string>) returns (res: map<KeyPath, Shape>)
    requires k in d
    requires Extends(acc, out, prefix, d, done)
    ensures Extends(res, out, prefix, d, done + {k})
    decreases JObject(d), 0
  {
    var v := d[k];
    var path := prefix + [k];
    if v.JObject? {
      res := WalkShapes(v.fields, path, acc[path := DictShape]);
      StepDict(acc, res, out, prefix, d, k, done);
    } else {
      StepLeaf(acc, out, prefix, d, k, done);
      res := acc[path := LeafShape];
    }
  }

  /** `walk_shapes(d)` from the top: exactly the shape map of the document. */
  method WalkShapesTop(d: map<string, Json>) returns (res: map<KeyPath, Shape>)
    ensures res == Shapes(JObject(d))
  {
    res := WalkShapes(d, [], map[]);
    forall p
      ensures p in res <==> p in PathsOf(JObject(d))
    {
      assert p[..0] == [] && p[0..] == p;
      PathsResolve(JObject(d), p);
      WithinAllKeys([], d, p);
    }
    forall p | p in res
      ensures res[p] == ShapeAt(JObject(d), p)
    {
      assert p[..0] == [] && p[0..] == p;
      WithinAllKeys([], d, p);
    }
  }

  // ---------------------------------------------------------------------
  // main: the report and the exit status

  /** The files `glob("*.json")` finds in the language directory. */
  function LocaleNames(entries: seq<string>): (names: set<string>)
    ensures forall n :: n in names <==> n in entries && I18n.IsJsonName(n)
  {
    set e | e in entries && I18n.IsJsonName(e)
  }

  /**
   * How a run ends before printing its verdict, or what it compares:
   * each locale file's leaf paths and shape map.
   */
  datatype Report =
    | NoLangDir
    | NoLocales
    | Crashed
    | Checked(leafSets: map<string, set<KeyPath>>, shapes: map<string, map<KeyPath, Shape>>)

  /**
   * Every file parses (`load_json` raises otherwise) and its top level is
   * an object (the walks raise otherwise).
   */
  predicate Walkable(docs: map<string, Json>, names: set<string>) {
    forall n | n in names :: n in docs && docs[n].JObject?
  }

  /** What `main` computes for a language directory. */
  function Check(dir: I18n.LangDir): Report {
    match dir
    case Missing => NoLangDir
    case Dir(entries, docs) =>
      var names := LocaleNames(entries);
      if names == {} then NoLocales
      else if !Walkable(docs, names) then Crashed
      else Checked(LeafSets(docs, names), ShapeMaps(docs, names))
  }

  /** `leaf_sets` */
  function LeafSets(docs: map<string, Json>, names: set<string>): map<string, set<KeyPath>> {
    map n | n in names :: if n in docs then Leaves(docs[n]) else {}
  }

  /** `shapes` */
  function ShapeMaps(docs: map<string, Json>, names: set<string>): map<string, map<KeyPath, Shape>> {
    map n | n in names :: if n in docs then Shapes(docs[n]) else map[]
  }

  /** `set().union(*leaf_sets.values())` */
  function UnionOf(sets: map<string, set<KeyPath>>): (u: set<KeyPath>)
    ensures forall n | n in sets :: sets[n] <= u
    ensures forall p | p in u :: exists n | n in sets :: p in sets[n]
  {
    set n, p | n in sets && p in sets[n] :: p
  }

  /** The leaf paths some locale has and `name` lacks. */
  function MissingIn(leafSets: map<string, set<KeyPath>>, name: string): set<KeyPath>
    requires name in leafSets
  {
    UnionOf(leafSets) - leafSets[name]
  }

  /** `union_paths`: every path any locale's shape map holds. */
  function PathUnion(shapes: map<string, map<KeyPath, Shape>>): (u: set<KeyPath>)
    ensures forall p :: p in u <==> exists n | n in shapes :: p in shapes[n]
  {
    set n, p | n in shapes && p in shapes[n] :: p
  }

  /** `set(shapes_here.values())` */
  function ShapesHere(shapes: map<string, map<KeyPath, Shape>>, path: KeyPath): set<Shape> {
    set n | n in shapes && path in shapes[n] :: shapes[n][path]
  }

  /** A structural mismatch at `path`. */
  predicate Mismatched(shapes: map<string, map<KeyPath, Shape>>, path: KeyPath) {
    |ShapesHere(shapes, path)| > 1
  }

  /** No locale misses a key and no path changes shape. */
  predicate Consistent(leafSets: map<string, set<KeyPath>>, shapes: map<string, map<KeyPath, Shape>>) {
    && (forall n | n in leafSets :: MissingIn(leafSets, n) == {})
    && (forall p | p in PathUnion(shapes) :: !Mismatched(shapes, p))
  }

  /** The process status: 0 only for a consistent check; 1 otherwise, an uncaught exception included. */
  function ExitCode(r: Report): int {
    if r.Checked? && Consistent(r.leafSets, r.shapes) then 0 else 1
  }

  /** `main`, with the directory listing and the parsed files as its input. */
  method CheckI18nKeys(dir: I18n.LangDir) returns (rc: int)
    ensures rc == ExitCode(Check(dir))
  {
    if dir.Missing? {
      return 1;
    }
    var names := LocaleNames(dir.entries);
    if names == {} {
      return 1;
    }
    if !Walkable(dir.docs, names) {
      return 1;
    }
    var leafSets := LeafSets(dir.docs, names);
    var shapes := CollectShapes(dir.docs, names);
    var union := UnionOf(leafSets);
    var ok := ReportMissing(leafSets, union);
    ok := ReportMismatches(shapes, ok);
    rc := if ok then 0 else 1;
  }

  /** `shapes = {name: walk_shapes(obj) ...}` */
  method CollectShapes(docs: map<string, Json>, names: set<string>) returns (shapes: map<string, map<KeyPath, Shape>>)
    requires Walkable(docs, names)
    ensures shapes == ShapeMaps(docs, names)
  {
    shapes := map[];
    var todo := names;
    while todo != {}
      invariant todo <= names
      invariant shapes.Keys == names - todo
      invariant forall n | n in shapes :: shapes[n] == Shapes(docs[n])
      decreases |todo|
    {
      var n :| n in todo;
      var s := WalkShapesTop(docs[n].fields);
      shapes := shapes[n := s];
      todo := todo - {n};
    }
  }

  /** The first reporting loop: `ok` stays true only if no locale misses a leaf path. */
  method ReportMissing(leafSets: map<string, set<KeyPath>>, union: set<KeyPath>) returns (ok: bool)
    requires union == UnionOf(leafSets)
    ensures ok <==> forall n | n in leafSets :: MissingIn(leafSets, n) == {}
  {
    ok := true;
    var todo := leafSets.Keys;
    while todo != {}
      invariant todo <= leafSets.Keys
      invariant ok <==> forall n | n in leafSets.Keys - todo :: MissingIn(leafSets, n) == {}
      decreases |todo|
    {
      var n :| n in todo;
      ghost var done := leafSets.Keys - todo;
      if union - leafSets[n] != {} {
        ok := false;
      }
      todo := todo - {n};
      assert leafSets.Keys - todo == done + {n};
    }
  }

  /** The second reporting loop: `ok` is cleared at every path with more than one shape. */
  method ReportMismatches(shapes: map<string, map<KeyPath, Shape>>, okBefore: bool) returns (ok: bool)
    ensures ok <==> okBefore && forall p | p in PathUnion(shapes) :: !Mismatched(shapes, p)
  {
    ok := okBefore;
    var paths := PathUnion(shapes);
    var todo := paths;
    while todo != {}
      invariant todo <= paths
      invariant ok <==> okBefore && forall p | p in paths - todo :: !Mismatched(shapes, p)
      decreases |todo|
    {
      var p :| p in todo;
      ghost var done := paths - todo;
      var here := ShapesHere(shapes, p);
      if |here| > 1 {
        ok := false;
      }
      todo := todo - {p};
      assert paths - todo == done + {p};
    }
  }

  // ---------------------------------------------------------------------
  // What the verdict means

  /** No locale misses a key exactly when all locales have the same leaf paths. */
  lemma MissingNoneIffEqual(leafSets: map<string, set<KeyPath>>)
    ensures (forall n | n in leafSets :: MissingIn(leafSets, n) == {}) <==>
      (forall a, b | a in leafSets && b in leafSets :: leafSets[a] == leafSets[b])
  {
    var u := UnionOf(leafSets);
    if forall n | n in leafSets :: MissingIn(leafSets, n) == {} {
      forall a, b | a in leafSets && b in leafSets
        ensures leafSets[a] == leafSets[b]
      {
        assert MissingIn(leafSets, a) == {} && MissingIn(leafSets, b) == {};
        assert leafSets[a] <= u && u <= leafSets[b];
        assert leafSets[b] <= u && u <= leafSets[a];
      }
    }
    if forall a, b | a in leafSets && b in leafSets :: leafSets[a] == leafSets[b] {
      forall n | n in leafSets
        ensures MissingIn(leafSets, n) == {}
      {
        forall p | p in u
          ensures p in leafSets[n]
        {
          var m :| m in leafSets && p in leafSets[m];
        }
      }
    }
  }

  /** A path is mismatched exactly when it leads to an object in one locale and to a value in another. */
  lemma MismatchIff(shapes: map<string, map<KeyPath, Shape>>, path: KeyPath)
    ensures Mismatched(shapes, path) <==>
      exists a, b | a in shapes && b in shapes && path in shapes[a] && path in shapes[b] ::
        shapes[a][path] == DictShape && shapes[b][path] == LeafShape
  {
    var here := ShapesHere(shapes, path);
    if DictShape in here && LeafShape in here {
      forall x | x in here
        ensures x == DictShape || x == LeafShape
      {
      }
      assert here == {DictShape, LeafShape};
      var a :| a in shapes && path in shapes[a] && shapes[a][path] == DictShape;
      var b :| b in shapes && path in shapes[b] && shapes[b][path] == LeafShape;
    } else {
      var only := if DictShape in here then DictShape else LeafShape;
      assert here <= {only} by {
        forall x | x in here
          ensures x == only
        {
        }
      }
      SubsetOfOne(here, only);
    }
  }

  lemma SubsetOfOne(s: set<Shape>, x: Shape)
    requires s <= {x}
    ensures |s| <= 1
  {
    if x in s {
      assert s == {x};
    } else {
      assert s == {};
    }
  }

  /** `p` leads to an object in `x` and to something else in `y`. */
  predicate ApartAt(x: Json, y: Json, p: KeyPath) {
    && |p| >= 1
    && I18n.Resolve(x, p).Some? && I18n.Resolve(y, p).Some?
    && I18n.Resolve(x, p).value.JObject? && !I18n.Resolve(y, p).value.JObject?
  }

  /** The mismatch check, stated on the documents themselves. */
  lemma {:induction false} MismatchedDocs(docs: map<string, Json>, names: set<string>, p: KeyPath)
    requires Walkable(docs, names)
    ensures Mismatched(ShapeMaps(docs, names), p) <==>
      exists a, b | a in names && b in names :: ApartAt(docs[a], docs[b], p)
  {
    var shapes := ShapeMaps(docs, names);
    MismatchIff(shapes, p);
    forall n | n in names
      ensures p in shapes[n] <==> |p| >= 1 && I18n.Resolve(docs[n], p).Some?
      ensures p in shapes[n] ==> shapes[n][p] == ShapeOf(I18n.Resolve(docs[n], p).value)
    {
      PathsResolve(docs[n], p);
    }
    if exists a, b | a in names && b in names :: ApartAt(docs[a], docs[b], p) {
      var a, b :| a in names && b in names && ApartAt(docs[a], docs[b], p);
      assert p in shapes[a] && shapes[a][p] == DictShape;
      assert p in shapes[b] && shapes[b][p] == LeafShape;
    }
  }

  /**
   * A structural mismatch always comes with a missing key: the locale that
   * has an object at the path lacks the leaf the other locale has there.
   */
  lemma {:induction false} MismatchMeansMissing(docs: map<string, Json>, names: set<string>, p: KeyPath)
    requires Walkable(docs, names)
    requires Mismatched(ShapeMaps(docs, names), p)
    ensures exists n | n in names :: p in MissingIn(LeafSets(docs, names), n)
  {
    var shapes := ShapeMaps(docs, names);
    var leafSets := LeafSets(docs, names);
    MismatchIff(shapes, p);
    var a, b :| a in shapes && b in shapes && p in shapes[a] && p in shapes[b] &&
      shapes[a][p] == DictShape && shapes[b][p] == LeafShape;
    LeavesAreLeafShapes(docs[a], p);
    LeavesAreLeafShapes(docs[b], p);
    assert p in leafSets[b] && p !in leafSets[a];
    assert p in MissingIn(leafSets, a);
  }

  /**
   * With every file readable, the check passes exactly when all locales
   * have the same leaf paths and no path leads to an object in one and a
   * value in another.
   */
  lemma {:induction false} ConsistentDocs(docs: map<string, Json>, names: set<string>)
    requires Walkable(docs, names)
    ensures Consistent(LeafSets(docs, names), ShapeMaps(docs, names)) <==>
      && (forall a, b | a in names && b in names :: Leaves(docs[a]) == Leaves(docs[b]))
      && (forall a, b, p | a in names && b in names :: !ApartAt(docs[a], docs[b], p))
  {
    LeafSetsAgree(docs, names);
    NoMismatchIff(docs, names);
  }

  /** The missing-key half of `ConsistentDocs`. */
  lemma {:induction false} LeafSetsAgree(docs: map<string, Json>, names: set<string>)
    requires Walkable(docs, names)
    ensures (forall n | n in LeafSets(docs, names) :: MissingIn(LeafSets(docs, names), n) == {}) <==>
      (forall a, b | a in names && b in names :: Leaves(docs[a]) == Leaves(docs[b]))
  {
    var leafSets := LeafSets(docs, names);
    MissingNoneIffEqual(leafSets);
    forall a, b | a in names && b in names
      ensures leafSets[a] == leafSets[b] <==> Leaves(docs[a]) == Leaves(docs[b])
    {
    }
  }

  /** The structural half of `ConsistentDocs`. */
  lemma {:induction false} NoMismatchIff(docs: map<string, Json>, names: set<string>)
    requires Walkable(docs, names)
    ensures (forall p | p in PathUnion(ShapeMaps(docs, names)) :: !Mismatched(ShapeMaps(docs, names), p)) <==>
      (forall a, b, p | a in names && b in names :: !ApartAt(docs[a], docs[b], p))
  {
    var shapes := ShapeMaps(docs, names);
    forall p
      ensures Mismatched(shapes, p) <==> exists a, b | a in names && b in names :: ApartAt(docs[a], docs[b], p)
      ensures Mismatched(shapes, p) ==> p in PathUnion(shapes)
    {
      MismatchedDocs(docs, names, p);
      MismatchIff(shapes, p);
    }
    if forall p | p in PathUnion(shapes) :: !Mismatched(shapes, p) {
      forall a, b, p | a in names && b in names
        ensures !ApartAt(docs[a], docs[b], p)
      {
        assert ApartAt(docs[a], docs[b], p) ==> Mismatched(shapes, p) && p in PathUnion(shapes);
      }
    }
    if forall a, b, p | a in names && b in names :: !ApartAt(docs[a], docs[b], p) {
      forall p | p in PathUnion(shapes)
        ensures !Mismatched(shapes, p)
      {
      }
    }
  }

  /**
   * The check passes exactly when the directory exists, holds at least one
   * locale file, every locale file parses to an object, and those files
   * agree as `ConsistentDocs` says.
   */
  lemma {:induction false} ExitCodeZero(dir: I18n.LangDir)
    ensures ExitCode(Check(dir)) == 0 <==>
      && dir.Dir?
      && LocaleNames(dir.entries) != {}
      && Walkable(dir.docs, LocaleNames(dir.entries))
      && Consistent(LeafSets(dir.docs, LocaleNames(dir.entries)), ShapeMaps(dir.docs, LocaleNames(dir.entries)))
  {
  }
}
