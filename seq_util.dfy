/** Generic list shapes the scripts' loops build: a filtered-and-mapped sequence and a
    concatenation of per-element sequences. Their lemmas are proved once, over opaque
    function values. */
module SeqUtil {
  /** `[f(x) for x in xs if keep(x)]` */
  function FilterMap<T, U>(xs: seq<T>, keep: T -> bool, f: T -> U): (r: seq<U>)
    ensures |r| <= |xs|
  {
    if xs == [] then []
    else FilterMap(xs[..|xs| - 1], keep, f) + (if keep(xs[|xs| - 1]) then [f(xs[|xs| - 1])] else [])
  }

  lemma {:induction false} FilterMapMembers<T, U>(xs: seq<T>, keep: T -> bool, f: T -> U, y: U)
    ensures y in FilterMap(xs, keep, f) <==> exists j :: 0 <= j < |xs| && keep(xs[j]) && y == f(xs[j])
  {
    if xs != [] {
      var init := xs[..|xs| - 1];
      FilterMapMembers(init, keep, f, y);
      if y in FilterMap(init, keep, f) {
        var j :| 0 <= j < |init| && keep(init[j]) && y == f(init[j]);
        assert xs[j] == init[j];
      }
      forall j | 0 <= j < |init|
        ensures xs[j] == init[j]
      {
      }
    }
  }

  lemma FilterMapStep<T, U>(xs: seq<T>, keep: T -> bool, f: T -> U, k: nat)
    requires k < |xs|
    ensures FilterMap(xs[..k + 1], keep, f) == FilterMap(xs[..k], keep, f) + (if keep(xs[k]) then [f(xs[k])] else [])
  {
    assert xs[..k + 1][..k] == xs[..k];
  }

  lemma {:induction false} FilterMapAppend<T, U>(a: seq<T>, b: seq<T>, keep: T -> bool, f: T -> U)
    ensures FilterMap(a + b, keep, f) == FilterMap(a, keep, f) + FilterMap(b, keep, f)
  {
    if b == [] {
      assert a + b == a;
    } else {
      assert (a + b)[..|a + b| - 1] == a + b[..|b| - 1];
      FilterMapAppend(a, b[..|b| - 1], keep, f);
    }
  }

  /** `[y for x in xs for y in g(x)]` */
  function ConcatMap<T, U>(xs: seq<T>, g: T -> seq<U>): seq<U> {
    if xs == [] then [] else ConcatMap(xs[..|xs| - 1], g) + g(xs[|xs| - 1])
  }

  lemma {:induction false} ConcatMapMembers<T, U>(xs: seq<T>, g: T -> seq<U>, y: U)
    ensures y in ConcatMap(xs, g) <==> exists i :: 0 <= i < |xs| && y in g(xs[i])
  {
    if xs != [] {
      var init := xs[..|xs| - 1];
      ConcatMapMembers(init, g, y);
      if y in ConcatMap(init, g) {
        var i :| 0 <= i < |init| && y in g(init[i]);
        assert xs[i] == init[i];
      }
      forall i | 0 <= i < |init|
        ensures xs[i] == init[i]
      {
      }
    }
  }

  lemma ConcatMapStep<T, U>(xs: seq<T>, g: T -> seq<U>, k: nat)
    requires k < |xs|
    ensures ConcatMap(xs[..k + 1], g) == ConcatMap(xs[..k], g) + g(xs[k])
  {
    assert xs[..k + 1][..k] == xs[..k];
  }

  lemma {:induction false} ConcatMapAppend<T, U>(a: seq<T>, b: seq<T>, g: T -> seq<U>)
    ensures ConcatMap(a + b, g) == ConcatMap(a, g) + ConcatMap(b, g)
  {
    if b == [] {
      assert a + b == a;
    } else {
      assert (a + b)[..|a + b| - 1] == a + b[..|b| - 1];
      ConcatMapAppend(a, b[..|b| - 1], g);
    }
  }

  lemma AppendAssoc<T>(a: seq<T>, b: seq<T>, c: seq<T>)
    ensures (a + b) + c == a + (b + c)
  {
  }
}
