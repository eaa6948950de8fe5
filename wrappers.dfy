/** Failure-carrying values used by every module of the model. */
module Wrappers {

  /** Python's `None` versus a present value. */
  datatype Option<+T> = None | Some(value: T) {
    function GetOr(default: T): T {
      match this
      case Some(v) => v
      case None => default
    }
  }

  /** The outcome of an operation that the source lets raise. */
  datatype Result<+T, +E> = Ok(value: T) | Err(error: E)

  /**
   * A `for` loop whose body may raise: `f` applied to each element in order,
   * or the index of the first element on which it fails and the failure.
   */
  function MapUntilError<T, U, E>(f: T -> Result<U, E>, xs: seq<T>): Result<seq<U>, (nat, E)>
    decreases |xs|
  {
    if xs == [] then Ok([])
    else
      match f(xs[0])
      case Err(e) => Err((0, e))
      case Ok(y) =>
        match MapUntilError(f, xs[1..])
        case Err((k, e)) => Err((k + 1, e))
        case Ok(ys) => Ok([y] + ys)
  }

  /** When no element fails, the results are `f` of every element, in order. */
  lemma {:induction false} MapUntilErrorOk<T, U, E>(f: T -> Result<U, E>, xs: seq<T>)
    requires MapUntilError(f, xs).Ok?
    ensures |MapUntilError(f, xs).value| == |xs|
    ensures forall k | 0 <= k < |xs| :: f(xs[k]) == Ok(MapUntilError(f, xs).value[k])
    decreases |xs|
  {
    if xs != [] {
      MapUntilErrorOk(f, xs[1..]);
      var ys := MapUntilError(f, xs).value;
      assert ys[1..] == MapUntilError(f, xs[1..]).value;
      forall k | 1 <= k < |xs| ensures f(xs[k]) == Ok(ys[k]) {
        assert xs[k] == xs[1..][k - 1];
        assert ys[k] == ys[1..][k - 1];
      }
    }
  }

  /** A failure names the first element on which `f` fails. */
  lemma {:induction false} MapUntilErrorErr<T, U, E>(f: T -> Result<U, E>, xs: seq<T>)
    requires MapUntilError(f, xs).Err?
    ensures var (k, e) := MapUntilError(f, xs).error;
      k < |xs| && f(xs[k]) == Err(e) && forall j | 0 <= j < k :: f(xs[j]).Ok?
    decreases |xs|
  {
    if f(xs[0]).Ok? {
      MapUntilErrorErr(f, xs[1..]);
      var (k, e) := MapUntilError(f, xs[1..]).error;
      assert xs[k + 1] == xs[1..][k];
      forall j | 1 <= j < k + 1 ensures f(xs[j]).Ok? {
        assert xs[j] == xs[1..][j - 1];
      }
    }
  }

  /** The outcome for the elements after the first `k`, seen from the start. */
  function After<U, E>(done: seq<U>, k: nat, rest: Result<seq<U>, (nat, E)>): Result<seq<U>, (nat, E)> {
    match rest
    case Ok(more) => Ok(done + more)
    case Err((j, e)) => Err((j + k, e))
  }

  /** The loop itself: applies `f` element by element and stops at the first failure. */
  method RunUntilError<T, U, E>(f: T -> Result<U, E>, xs: seq<T>) returns (r: Result<seq<U>, (nat, E)>)
    ensures r == MapUntilError(f, xs)
  {
    var done: seq<U> := [];
    var k := 0;
    assert xs[0..] == xs;
    assert After(done, 0, MapUntilError(f, xs)) == MapUntilError(f, xs) by {
      if MapUntilError(f, xs).Ok? { assert [] + MapUntilError(f, xs).value == MapUntilError(f, xs).value; }
    }
    while k < |xs|
      invariant 0 <= k <= |xs|
      invariant MapUntilError(f, xs) == After(done, k, MapUntilError(f, xs[k..]))
    {
      var rest := xs[k..];
      assert rest[0] == xs[k] && rest[1..] == xs[k + 1..];
      var y := f(xs[k]);
      if y.Err? {
        return Err((k, y.error));
      }
      assert After(done + [y.value], k + 1, MapUntilError(f, xs[k + 1..])) == After(done, k, MapUntilError(f, rest)) by {
        if MapUntilError(f, xs[k + 1..]).Ok? {
          assert done + [y.value] + MapUntilError(f, xs[k + 1..]).value ==
            done + ([y.value] + MapUntilError(f, xs[k + 1..]).value);
        }
      }
      done := done + [y.value];
      k := k + 1;
    }
    assert xs[k..] == [];
    assert done + [] == done;
    return Ok(done);
  }

  /** Concatenation is associative (stated generically, where it is cheap to prove). */
  lemma AppendAssoc<T>(a: seq<T>, b: seq<T>, c: seq<T>)
    ensures (a + b) + c == a + (b + c)
  {
  }

  /** The empty sequence is a right unit of concatenation. */
  lemma AppendEmpty<T>(a: seq<T>)
    ensures a + [] == a
  {
  }

  /** The results `f` keeps, in order: a loop that appends only some of its elements' images. */
  function FilterMap<T, U>(f: T -> Option<U>, xs: seq<T>): seq<U>
    decreases |xs|
  {
    if xs == [] then []
    else (match f(xs[0]) case Some(y) => [y] case None => []) + FilterMap(f, xs[1..])
  }

  /**
   * Every kept result comes from some element, every element `f` keeps is
   * there, and there are never more results than elements.
   */
  lemma {:induction false} FilterMapExact<T, U>(f: T -> Option<U>, xs: seq<T>)
    ensures |FilterMap(f, xs)| <= |xs|
    ensures forall y | y in FilterMap(f, xs) :: exists i | 0 <= i < |xs| :: f(xs[i]) == Some(y)
    ensures forall i | 0 <= i < |xs| && f(xs[i]).Some? :: f(xs[i]).value in FilterMap(f, xs)
    decreases |xs|
  {
    if xs != [] {
      FilterMapExact(f, xs[1..]);
      forall y | y in FilterMap(f, xs) ensures exists i | 0 <= i < |xs| :: f(xs[i]) == Some(y) {
        if y !in FilterMap(f, xs[1..]) {
          assert f(xs[0]) == Some(y);
        } else {
          var i :| 0 <= i < |xs[1..]| && f(xs[1..][i]) == Some(y);
          assert xs[i + 1] == xs[1..][i];
        }
      }
      forall i | 0 <= i < |xs| && f(xs[i]).Some? ensures f(xs[i]).value in FilterMap(f, xs) {
        if i > 0 {
          assert xs[i] == xs[1..][i - 1];
        }
      }
    }
  }

  /** When `f` keeps nothing, nothing is kept. */
  lemma {:induction false} FilterMapNone<T, U>(f: T -> Option<U>, xs: seq<T>)
    requires forall i | 0 <= i < |xs| :: f(xs[i]).None?
    ensures FilterMap(f, xs) == []
    decreases |xs|
  {
    if xs != [] {
      assert forall i | 0 <= i < |xs[1..]| :: xs[1..][i] == xs[i + 1];
      FilterMapNone(f, xs[1..]);
    }
  }

  /** The loop: each element's image is appended when `f` keeps it. */
  method FilterMapLoop<T, U>(f: T -> Option<U>, xs: seq<T>) returns (ys: seq<U>)
    ensures ys == FilterMap(f, xs)
  {
    ys := [];
    for i := 0 to |xs|
      invariant ys + FilterMap(f, xs[i..]) == FilterMap(f, xs)
    {
      assert xs[i..][0] == xs[i] && xs[i..][1..] == xs[i + 1..];
      var m := f(xs[i]);
      if m.Some? {
        assert ys + FilterMap(f, xs[i..]) == (ys + [m.value]) + FilterMap(f, xs[i + 1..]);
        ys := ys + [m.value];
      }
    }
    assert xs[|xs|..] == [];
    assert ys + [] == ys;
  }

  /** `f` applied to every element, in order. */
  function Map<T, U>(f: T -> U, xs: seq<T>): (r: seq<U>)
    ensures |r| == |xs|
    ensures forall k | 0 <= k < |xs| :: r[k] == f(xs[k])
    decreases |xs|
  {
    if xs == [] then [] else [f(xs[0])] + Map(f, xs[1..])
  }

  /** The loop that appends `f` of each element in turn. */
  method MapLoop<T, U>(f: T -> U, xs: seq<T>) returns (ys: seq<U>)
    ensures ys == Map(f, xs)
  {
    ys := [];
    for i := 0 to |xs|
      invariant |ys| == i
      invariant forall k | 0 <= k < i :: ys[k] == f(xs[k])
    {
      ys := ys + [f(xs[i])];
    }
  }

  /** A prefix one longer is the prefix and the next element. */
  lemma TakeOneMore<T>(xs: seq<T>, i: nat)
    requires i < |xs|
    ensures xs[..i + 1] == xs[..i] + [xs[i]]
  {
  }

  /** The whole prefix is the sequence. */
  lemma TakeAll<T>(xs: seq<T>)
    ensures xs[..|xs|] == xs
  {
  }
}
