/** Counting and filtering over sequences, the two query shapes the booking store needs. */
module Seqs {

  /** The number of elements of `xs` that satisfy `p` (a SQL `COUNT(*) ... WHERE p`). */
  function Count<T>(xs: seq<T>, p: T -> bool): (n: nat)
    ensures n <= |xs|
  {
    if |xs| == 0 then 0
    else Count(xs[..|xs| - 1], p) + (if p(xs[|xs| - 1]) then 1 else 0)
  }

  /** The elements of `xs` that satisfy `p`, in their original order. */
  function Filter<T>(xs: seq<T>, p: T -> bool): (r: seq<T>)
    ensures |r| <= |xs|
    ensures forall i :: 0 <= i < |r| ==> r[i] in xs && p(r[i])
    ensures forall i :: 0 <= i < |xs| && p(xs[i]) ==> xs[i] in r
    ensures multiset(r) <= multiset(xs)
  {
    if |xs| == 0 then []
    else
      var init := xs[..|xs| - 1];
      assert xs == init + [xs[|xs| - 1]];
      Filter(init, p) + (if p(xs[|xs| - 1]) then [xs[|xs| - 1]] else [])
  }

  /** Every element is counted exactly when every element satisfies `p`. */
  lemma {:induction false} CountAll<T>(xs: seq<T>, p: T -> bool)
    ensures Count(xs, p) == |xs| <==> forall i :: 0 <= i < |xs| ==> p(xs[i])
    decreases |xs|
  {
    if |xs| > 0 {
      var init := xs[..|xs| - 1];
      CountAll(init, p);
      assert forall i :: 0 <= i < |init| ==> init[i] == xs[i];
    }
  }

  /** Some element is counted exactly when some element satisfies `p`. */
  lemma {:induction false} CountPositive<T>(xs: seq<T>, p: T -> bool)
    ensures Count(xs, p) > 0 <==> exists i :: 0 <= i < |xs| && p(xs[i])
    decreases |xs|
  {
    if |xs| > 0 {
      var init := xs[..|xs| - 1];
      CountPositive(init, p);
      assert forall i :: 0 <= i < |init| ==> init[i] == xs[i];
    }
  }

  /** The count of `p`-elements is the length of the `p`-filtered sequence. */
  lemma {:induction false} CountIsFilterLength<T>(xs: seq<T>, p: T -> bool)
    ensures Count(xs, p) == |Filter(xs, p)|
    decreases |xs|
  {
    if |xs| > 0 {
      CountIsFilterLength(xs[..|xs| - 1], p);
    }
  }

  /** Counting over a concatenation adds up. */
  lemma {:induction false} CountConcat<T>(a: seq<T>, b: seq<T>, p: T -> bool)
    ensures Count(a + b, p) == Count(a, p) + Count(b, p)
    decreases |b|
  {
    if |b| == 0 {
      assert a + b == a;
    } else {
      var b' := b[..|b| - 1];
      assert (a + b)[..|a + b| - 1] == a + b';
      assert (a + b)[|a + b| - 1] == b[|b| - 1];
      CountConcat(a, b', p);
    }
  }

  /** Appending one element raises the count by one exactly when it satisfies `p`. */
  lemma CountSnoc<T>(xs: seq<T>, x: T, p: T -> bool)
    ensures Count(xs + [x], p) == Count(xs, p) + (if p(x) then 1 else 0)
  {
  }

  /** Splitting the count around position `k`. */
  lemma CountSplit<T>(xs: seq<T>, k: nat, p: T -> bool)
    requires k < |xs|
    ensures Count(xs, p) == Count(xs[..k], p) + (if p(xs[k]) then 1 else 0) + Count(xs[k + 1..], p)
  {
    assert xs == (xs[..k] + [xs[k]]) + xs[k + 1..];
    CountConcat(xs[..k] + [xs[k]], xs[k + 1..], p);
    CountSnoc(xs[..k], xs[k], p);
  }

  /**
   * If, position by position, satisfying `q` in `b` implies satisfying `p` in `a`,
   * then `b` has no more `q`-elements than `a` has `p`-elements.
   */
  lemma {:induction false} CountPointwise<T>(a: seq<T>, p: T -> bool, b: seq<T>, q: T -> bool)
    requires |a| == |b|
    requires forall i :: 0 <= i < |b| ==> q(b[i]) ==> p(a[i])
    ensures Count(b, q) <= Count(a, p)
    decreases |a|
  {
    if |a| > 0 {
      CountPointwise(a[..|a| - 1], p, b[..|b| - 1], q);
    }
  }

  /** Equal counts for sequences that agree position by position on `p` and `q`. */
  lemma CountPointwiseEq<T>(a: seq<T>, p: T -> bool, b: seq<T>, q: T -> bool)
    requires |a| == |b|
    requires forall i :: 0 <= i < |b| ==> (q(b[i]) <==> p(a[i]))
    ensures Count(b, q) == Count(a, p)
  {
    CountPointwise(a, p, b, q);
    CountPointwise(b, q, a, p);
  }

  /** The count depends only on the multiset of elements, not on their order. */
  lemma {:induction false} CountPermutation<T>(a: seq<T>, b: seq<T>, p: T -> bool)
    requires multiset(a) == multiset(b)
    ensures Count(a, p) == Count(b, p)
    decreases |a|
  {
    if |a| == 0 {
      assert |b| == |multiset(b)| == 0;
    } else {
      var x := a[0];
      assert x in multiset(b);
      var k :| 0 <= k < |b| && b[k] == x;
      var b' := b[..k] + b[k + 1..];
      assert b == b[..k] + [x] + b[k + 1..];
      assert a == [x] + a[1..];
      assert multiset(b) == multiset(b[..k]) + multiset{x} + multiset(b[k + 1..]);
      assert multiset(b') == multiset(b[..k]) + multiset(b[k + 1..]);
      assert forall y :: multiset(a[1..])[y] == multiset(b')[y] by {
        forall y ensures multiset(a[1..])[y] == multiset(b')[y] {
          assert multiset(a)[y] == multiset{x}[y] + multiset(a[1..])[y];
          assert multiset(b)[y] == multiset{x}[y] + multiset(b')[y];
        }
      }
      assert multiset(a[1..]) == multiset(b');
      CountPermutation(a[1..], b', p);
      CountSplit(a, 0, p);
      assert a[..0] == [];
      CountSplit(b, k, p);
      CountConcat(b[..k], b[k + 1..], p);
    }
  }

  /** Counting `q` over the `p`-filtered sequence counts the elements satisfying both. */
  lemma {:induction false} CountFilter<T>(xs: seq<T>, p: T -> bool, q: T -> bool)
    ensures Count(Filter(xs, p), q) == Count(xs, x => p(x) && q(x))
    decreases |xs|
  {
    if |xs| > 0 {
      var init := xs[..|xs| - 1];
      var last := xs[|xs| - 1];
      CountFilter(init, p, q);
      CountConcat(Filter(init, p), if p(last) then [last] else [], q);
      if p(last) {
        assert ([] + [last])[..0] == [];
      }
    }
  }

  /**
   * Counting `q` over any reordering of the `p`-filtered `xs` counts, over `xs`,
   * the elements `both` selects, when `both` is `p` and `q` together.
   */
  lemma CountFilteredPermutation<T>(ys: seq<T>, xs: seq<T>, p: T -> bool, q: T -> bool, both: T -> bool)
    requires multiset(ys) == multiset(Filter(xs, p))
    requires forall x :: both(x) == (p(x) && q(x))
    ensures Count(ys, q) == Count(xs, both)
  {
    CountPermutation(ys, Filter(xs, p), q);
    CountFilter(xs, p, q);
    CountPointwiseEq(xs, both, xs, x => p(x) && q(x));
  }

  /** The largest `key` of `rows`, or 0 when there are none. */
  function MaxKey<T>(rows: seq<T>, key: T -> nat): (m: nat)
    ensures forall i :: 0 <= i < |rows| ==> key(rows[i]) <= m
  {
    if |rows| == 0 then 0
    else
      var init := rows[..|rows| - 1];
      var m := MaxKey(init, key);
      assert forall i :: 0 <= i < |init| ==> rows[i] == init[i];
      if key(rows[|rows| - 1]) > m then key(rows[|rows| - 1]) else m
  }

  /**
   * The key SQLite gives a new row of a table whose primary key is an
   * `INTEGER PRIMARY KEY` column: one more than the largest in use, 1 for an empty table.
   */
  function NextRowId<T>(rows: seq<T>, key: T -> nat): (n: nat)
    ensures n > 0
    ensures forall i :: 0 <= i < |rows| ==> key(rows[i]) < n
  {
    MaxKey(rows, key) + 1
  }
}
