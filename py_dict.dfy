/** Python's `dict`, which iterates its keys in first-insertion order, as a sequence of
    key/value pairs. */
module PyDict {
  import opened Wrappers

  type Dict<V> = seq<(string, V)>

  predicate DistinctKeys<V>(d: Dict<V>) {
    forall i, j :: 0 <= i < j < |d| ==> d[i].0 != d[j].0
  }

  /** The position of key `k`. */
  function Find<V>(d: Dict<V>, k: string): (r: Option<nat>)
    ensures r.Some? ==> r.value < |d| && d[r.value].0 == k
    ensures r.None? ==> forall i :: 0 <= i < |d| ==> d[i].0 != k
  {
    if d == [] then None
    else
      var init := Find(d[..|d| - 1], k);
      if init.Some? then init
      else if d[|d| - 1].0 == k then Some(|d| - 1)
      else None
  }

  /** `d.get(k)` */
  function Get<V>(d: Dict<V>, k: string): Option<V> {
    match Find(d, k)
    case None => None
    case Some(i) => Some(d[i].1)
  }

  /** `d[k] = v`: a new key goes at the end; a key already present keeps its position
      and takes the new value. */
  function Put<V>(d: Dict<V>, k: string, v: V): (r: Dict<V>)
    ensures |r| == if Find(d, k).None? then |d| + 1 else |d|
  {
    match Find(d, k)
    case None => d + [(k, v)]
    case Some(i) => d[i := (k, v)]
  }

  /** After `d[k] = v` the keys stay distinct, `k` maps to `v`, every other key keeps
      its value, and the keys already present keep their positions. */
  lemma PutProperties<V>(d: Dict<V>, k: string, v: V)
    requires DistinctKeys(d)
    ensures DistinctKeys(Put(d, k, v))
    ensures Get(Put(d, k, v), k) == Some(v)
    ensures forall k' :: k' != k ==> Get(Put(d, k, v), k') == Get(d, k')
    ensures forall i :: 0 <= i < |d| ==> Put(d, k, v)[i].0 == d[i].0
  {
    var r := Put(d, k, v);
    forall k' | k' != k
      ensures Get(r, k') == Get(d, k')
    {
      match Find(d, k')
      case None =>
        assert Find(r, k').None?;
      case Some(i) =>
        FindUnique(r, k', i);
    }
    match Find(d, k)
    case None =>
      FindUnique(r, k, |d|);
    case Some(i) =>
      FindUnique(r, k, i);
  }

  /** `Get` after `Put`, for one key. */
  lemma GetPut<V>(d: Dict<V>, k: string, v: V, k': string)
    requires DistinctKeys(d)
    ensures Get(Put(d, k, v), k') == if k' == k then Some(v) else Get(d, k')
  {
    PutProperties(d, k, v);
  }

  /** In a dictionary with distinct keys, the position of a key is the one holding it. */
  lemma FindUnique<V>(d: Dict<V>, k: string, i: nat)
    requires DistinctKeys(d) && i < |d| && d[i].0 == k
    ensures Find(d, k) == Some(i)
  {
  }

  /** `dict(pairs)`, as `json.load` builds an object: a repeated key keeps its first
      position and its last value. */
  function FromPairs<V>(pairs: seq<(string, V)>): Dict<V> {
    if pairs == [] then []
    else
      var p := pairs[|pairs| - 1];
      Put(FromPairs(pairs[..|pairs| - 1]), p.0, p.1)
  }

  lemma {:induction false} FromPairsDistinct<V>(pairs: seq<(string, V)>)
    ensures DistinctKeys(FromPairs(pairs))
  {
    if pairs != [] {
      FromPairsDistinct(pairs[..|pairs| - 1]);
      var p := pairs[|pairs| - 1];
      PutProperties(FromPairs(pairs[..|pairs| - 1]), p.0, p.1);
    }
  }

  /** A key is in `dict(pairs)` exactly when some pair has it. */
  lemma {:induction false} FromPairsKeys<V>(pairs: seq<(string, V)>, k: string)
    ensures Get(FromPairs(pairs), k).Some? <==> exists i :: 0 <= i < |pairs| && pairs[i].0 == k
  {
    if pairs != [] {
      var init, p := pairs[..|pairs| - 1], pairs[|pairs| - 1];
      FromPairsKeys(init, k);
      FromPairsDistinct(init);
      PutProperties(FromPairs(init), p.0, p.1);
      if k != p.0 && exists i :: 0 <= i < |pairs| && pairs[i].0 == k {
        var i :| 0 <= i < |pairs| && pairs[i].0 == k;
        assert init[i].0 == k;
      }
    }
  }

  /** Pairs that do not have key `k` leave its value alone. */
  lemma {:induction false} FromPairsIgnores<V>(a: seq<(string, V)>, b: seq<(string, V)>, k: string)
    requires forall i :: 0 <= i < |b| ==> b[i].0 != k
    ensures Get(FromPairs(a + b), k) == Get(FromPairs(a), k)
  {
    if b != [] {
      var init, p := b[..|b| - 1], b[|b| - 1];
      assert (a + b)[..|a + b| - 1] == a + init;
      FromPairsIgnores(a, init, k);
      FromPairsDistinct(a + init);
      PutProperties(FromPairs(a + init), p.0, p.1);
    } else {
      assert a + b == a;
    }
  }

  /** Once `k` occurs in `b` (at position `n`), whatever `a` said about `k` is
      overwritten. */
  lemma {:induction false} FromPairsOverride<V>(a: seq<(string, V)>, b: seq<(string, V)>, k: string, n: nat)
    requires n < |b| && b[n].0 == k
    ensures Get(FromPairs(a + b), k) == Get(FromPairs(b), k)
  {
    var init, p := b[..|b| - 1], b[|b| - 1];
    assert (a + b)[..|a + b| - 1] == a + init;
    var whole, own := FromPairs(a + init), FromPairs(init);
    assert FromPairs(a + b) == Put(whole, p.0, p.1);
    assert FromPairs(b) == Put(own, p.0, p.1);
    FromPairsDistinct(a + init);
    FromPairsDistinct(init);
    GetPut(whole, p.0, p.1, k);
    GetPut(own, p.0, p.1, k);
    if p.0 != k {
      assert init[n].0 == k;
      FromPairsOverride(a, init, k, n);
      assert Get(whole, k) == Get(own, k);
    }
  }

  /** When every pair with key `k` carries `v`, `k` maps to `v`. */
  lemma {:induction false} FromPairsUniform<V>(pairs: seq<(string, V)>, k: string, v: V)
    requires exists i :: 0 <= i < |pairs| && pairs[i].0 == k
    requires forall i :: 0 <= i < |pairs| && pairs[i].0 == k ==> pairs[i].1 == v
    ensures Get(FromPairs(pairs), k) == Some(v)
  {
    var init, p := pairs[..|pairs| - 1], pairs[|pairs| - 1];
    FromPairsDistinct(init);
    PutProperties(FromPairs(init), p.0, p.1);
    if p.0 != k {
      var i :| 0 <= i < |pairs| && pairs[i].0 == k;
      assert init[i].0 == k;
      FromPairsUniform(init, k, v);
    }
  }

  /** Storing one more pair is one more `Put`. */
  lemma FromPairsSnoc<V>(pairs: seq<(string, V)>, p: (string, V))
    ensures FromPairs(pairs + [p]) == Put(FromPairs(pairs), p.0, p.1)
  {
    assert (pairs + [p])[..|pairs|] == pairs;
  }
}
