/** Sequence building blocks shared by the grid code: Python's `range`, `itertools.product`,
    list comprehensions with a filter, `sum` of booleans and the first-match scan that the
    nested `for ... return` loops perform. */
module Seqs {
  import opened Wrappers

  /** `range(lo, hi)`. */
  function Range(lo: int, hi: int): (r: seq<int>)
    ensures |r| == if lo <= hi then hi - lo else 0
    ensures forall i :: 0 <= i < |r| ==> r[i] == lo + i
    decreases hi - lo
  {
    if lo >= hi then [] else [lo] + Range(lo + 1, hi)
  }

  lemma {:induction false} InRange(lo: int, hi: int, x: int)
    ensures x in Range(lo, hi) <==> lo <= x < hi
  {
    if lo <= x < hi {
      assert Range(lo, hi)[x - lo] == x;
    }
  }

  lemma {:induction false} AllInRange(lo: int, hi: int)
    ensures forall x :: x in Range(lo, hi) <==> lo <= x < hi
  {
    forall x ensures x in Range(lo, hi) <==> lo <= x < hi {
      InRange(lo, hi, x);
    }
  }

  predicate StrictlyIncreasing(xs: seq<int>) {
    forall i, j :: 0 <= i < j < |xs| ==> xs[i] < xs[j]
  }

  function Pairs<A, B>(x: A, ys: seq<B>): (r: seq<(A, B)>)
    ensures |r| == |ys|
    ensures forall j :: 0 <= j < |ys| ==> r[j] == (x, ys[j])
  {
    seq(|ys|, j requires 0 <= j < |ys| => (x, ys[j]))
  }

  /** `itertools.product(xs, ys)`: the first component varies slowest. */
  function Product<A, B>(xs: seq<A>, ys: seq<B>): (r: seq<(A, B)>)
    ensures |r| == |xs| * |ys|
    ensures forall p :: p in r ==> p.0 in xs && p.1 in ys
    ensures forall x, y :: x in xs && y in ys ==> (x, y) in r
  {
    if xs == [] then []
    else
      var head := Pairs(xs[0], ys);
      assert forall y :: y in ys ==> (xs[0], y) in head by {
        forall y | y in ys ensures (xs[0], y) in head {
          var j :| 0 <= j < |ys| && ys[j] == y;
          assert head[j] == (xs[0], y);
        }
      }
      head + Product(xs[1..], ys)
  }

  /** Lexicographic order on pairs of integers. */
  predicate Before(x: (int, int), y: (int, int)) {
    x.0 < y.0 || (x.0 == y.0 && x.1 < y.1)
  }

  /** The product of two increasing sequences lists its pairs in lexicographic order, each once. */
  lemma {:induction false} ProductSorted(xs: seq<int>, ys: seq<int>)
    requires StrictlyIncreasing(xs) && StrictlyIncreasing(ys)
    ensures forall i, j :: 0 <= i < j < |Product(xs, ys)| ==>
              Before(Product(xs, ys)[i], Product(xs, ys)[j])
  {
    if xs != [] {
      var head := Pairs(xs[0], ys);
      var tail := Product(xs[1..], ys);
      ProductSorted(xs[1..], ys);
      assert forall k :: 0 <= k < |tail| ==> xs[0] < tail[k].0 by {
        forall k | 0 <= k < |tail| ensures xs[0] < tail[k].0 {
          assert tail[k] in tail;
          var m :| 0 <= m < |xs[1..]| && xs[1..][m] == tail[k].0;
          assert xs[1..][m] == xs[m + 1];
        }
      }
      var p := head + tail;
      forall i, j | 0 <= i < j < |p| ensures Before(p[i], p[j]) {
        if j < |head| {
          assert p[i] == head[i] && p[j] == head[j];
          assert ys[i] < ys[j];
        } else if i < |head| {
          assert p[i] == head[i] && p[j] == tail[j - |head|];
          assert xs[0] < tail[j - |head|].0;
        } else {
          assert p[i] == tail[i - |head|] && p[j] == tail[j - |head|];
          assert Before(tail[i - |head|], tail[j - |head|]);
        }
      }
    }
  }

  /** The index of the first element satisfying `p`: a `for` loop that returns on its first
      match. */
  function FirstWhere<T>(xs: seq<T>, p: T --> bool): (r: Option<nat>)
    requires forall x :: x in xs ==> p.requires(x)
    ensures r.Some? ==> r.value < |xs| && p(xs[r.value])
    ensures r.Some? ==> forall j :: 0 <= j < r.value ==> !p(xs[j])
    ensures r.None? ==> forall j :: 0 <= j < |xs| ==> !p(xs[j])
  {
    if xs == [] then None
    else if p(xs[0]) then Some(0)
    else match FirstWhere(xs[1..], p)
      case None => None
      case Some(k) => Some(k + 1)
  }

  /** `any(p(x) for x in xs)`, scanned left to right. */
  function Any<T>(xs: seq<T>, p: T --> bool): (b: bool)
    requires forall x :: x in xs ==> p.requires(x)
    ensures b <==> exists i :: 0 <= i < |xs| && p(xs[i])
  {
    FirstWhere(xs, p).Some?
  }

  /** The number of elements satisfying `p`: `sum(1 if p(x) else 0 for x in xs)`. */
  function CountIf<T>(xs: seq<T>, p: T --> bool): (n: nat)
    requires forall x :: x in xs ==> p.requires(x)
    ensures n <= |xs|
  {
    if xs == [] then 0 else (if p(xs[0]) then 1 else 0) + CountIf(xs[1..], p)
  }

  /** `[x for x in xs if p(x)]`. */
  function Filter<T>(xs: seq<T>, p: T --> bool): (r: seq<T>)
    requires forall x :: x in xs ==> p.requires(x)
    ensures |r| == CountIf(xs, p)
    ensures forall x :: x in r ==> x in xs && p(x)
    ensures forall x :: x in xs && p(x) ==> x in r
  {
    if xs == [] then []
    else if p(xs[0]) then [xs[0]] + Filter(xs[1..], p)
    else Filter(xs[1..], p)
  }

  lemma {:induction false} CountIfNone<T>(xs: seq<T>, p: T --> bool)
    requires forall x :: x in xs ==> p.requires(x)
    ensures CountIf(xs, p) == 0 <==> forall i :: 0 <= i < |xs| ==> !p(xs[i])
  {
    if xs != [] {
      CountIfNone(xs[1..], p);
      if CountIf(xs, p) == 0 {
        forall i | 0 <= i < |xs| ensures !p(xs[i]) {
          if i > 0 { assert xs[i] == xs[1..][i - 1]; }
        }
      }
    }
  }

  lemma {:induction false} CountIfAll<T>(xs: seq<T>, p: T --> bool)
    requires forall x :: x in xs ==> p.requires(x)
    ensures CountIf(xs, p) == |xs| <==> forall i :: 0 <= i < |xs| ==> p(xs[i])
  {
    if xs != [] {
      CountIfAll(xs[1..], p);
      if CountIf(xs, p) == |xs| {
        forall i | 0 <= i < |xs| ensures p(xs[i]) {
          if i > 0 { assert xs[i] == xs[1..][i - 1]; }
        }
      }
    }
  }

  lemma {:induction false} CountIfConcat<T>(xs: seq<T>, ys: seq<T>, p: T --> bool)
    requires forall x :: x in xs + ys ==> p.requires(x)
    ensures CountIf(xs + ys, p) == CountIf(xs, p) + CountIf(ys, p)
  {
    if xs != [] {
      assert (xs + ys)[1..] == xs[1..] + ys;
      CountIfConcat(xs[1..], ys, p);
    } else {
      assert xs + ys == ys;
    }
  }

  /** Two predicates that never hold together count at most one per element. */
  lemma {:induction false} CountIfDisjoint<T>(xs: seq<T>, p: T --> bool, q: T --> bool)
    requires forall x :: x in xs ==> p.requires(x) && q.requires(x)
    requires forall x :: x in xs ==> !(p(x) && q(x))
    ensures CountIf(xs, p) + CountIf(xs, q) <= |xs|
  {
    if xs != [] {
      CountIfDisjoint(xs[1..], p, q);
    }
  }

  /** When exactly one of two predicates holds of every element, their counts add up to the
      length. */
  lemma {:induction false} CountIfSplit<T>(xs: seq<T>, p: T --> bool, q: T --> bool)
    requires forall x :: x in xs ==> p.requires(x) && q.requires(x)
    requires forall x :: x in xs ==> (p(x) <==> !q(x))
    ensures CountIf(xs, p) + CountIf(xs, q) == |xs|
  {
    if xs != [] {
      CountIfSplit(xs[1..], p, q);
    }
  }

  /** Replacing one element changes the count by that element's contribution alone. */
  lemma {:induction false} CountIfUpdate<T>(xs: seq<T>, i: int, v: T, p: T --> bool)
    requires 0 <= i < |xs|
    requires forall x :: x in xs ==> p.requires(x)
    requires p.requires(v)
    ensures CountIf(xs[i := v], p)
         == CountIf(xs, p) - (if p(xs[i]) then 1 else 0) + (if p(v) then 1 else 0)
  {
    if i == 0 {
      assert xs[i := v][1..] == xs[1..];
    } else {
      assert xs[i := v][1..] == xs[1..][i - 1 := v];
      CountIfUpdate(xs[1..], i - 1, v, p);
    }
  }

  /** Two distinct positions satisfying `p` count twice. */
  lemma {:induction false} CountIfTwo<T>(xs: seq<T>, p: T --> bool, i: int, j: int)
    requires forall x :: x in xs ==> p.requires(x)
    requires 0 <= i < j < |xs| && p(xs[i]) && p(xs[j])
    ensures CountIf(xs, p) >= 2
  {
    if i == 0 {
      assert xs[j] == xs[1..][j - 1];
      CountIfNone(xs[1..], p);
    } else {
      assert xs[i] == xs[1..][i - 1] && xs[j] == xs[1..][j - 1];
      CountIfTwo(xs[1..], p, i - 1, j - 1);
    }
  }

  /** Filtering keeps the relative order of the elements it keeps. */
  lemma {:induction false} FilterSorted(xs: seq<int>, p: int --> bool)
    requires forall x :: x in xs ==> p.requires(x)
    requires StrictlyIncreasing(xs)
    ensures StrictlyIncreasing(Filter(xs, p))
  {
    if xs != [] {
      FilterSorted(xs[1..], p);
      var rest := Filter(xs[1..], p);
      forall k | 0 <= k < |rest| ensures xs[0] < rest[k] {
        assert rest[k] in rest;
        var m :| 0 <= m < |xs[1..]| && xs[1..][m] == rest[k];
        assert xs[1..][m] == xs[m + 1];
      }
    }
  }

  function Map<A, B>(xs: seq<A>, f: A --> B): (r: seq<B>)
    requires forall x :: x in xs ==> f.requires(x)
    ensures |r| == |xs|
    ensures forall i :: 0 <= i < |xs| ==> r[i] == f(xs[i])
  {
    seq(|xs|, i requires 0 <= i < |xs| => f(xs[i]))
  }
}
