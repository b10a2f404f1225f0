/** Sequences of distinct elements, and the sets they hold. */
module Sequences {

  ghost predicate Distinct<T>(w: seq<T>) {
    forall i, j :: 0 <= i < j < |w| ==> w[i] != w[j]
  }

  function Elements<T>(w: seq<T>): set<T> {
    set x | x in w
  }

  /** The sequence without the first occurrence of `x`. */
  function Without<T(==)>(w: seq<T>, x: T): seq<T> {
    if w == [] then []
    else if w[0] == x then w[1..]
    else [w[0]] + Without(w[1..], x)
  }

  /** The first `n` elements, or all of them when there are fewer. */
  function First<T>(w: seq<T>, n: nat): seq<T> {
    if n <= |w| then w[..n] else w
  }

  /** The last `n` elements, or all of them when there are fewer. */
  function Last<T>(w: seq<T>, n: nat): seq<T> {
    if n <= |w| then w[|w| - n..] else w
  }

  lemma CardinalityOfSubset<T>(a: set<T>, b: set<T>)
    requires a <= b
    ensures |a| <= |b|
  {
    assert b == a + (b - a);
  }

  lemma {:induction false} CardinalityOfElements<T>(w: seq<T>)
    ensures |Elements(w)| <= |w|
    ensures Distinct(w) ==> |Elements(w)| == |w|
  {
    if w == [] {
      assert Elements(w) == {};
    } else {
      CardinalityOfElements(w[1..]);
      assert w == [w[0]] + w[1..];
      assert Elements(w) == {w[0]} + Elements(w[1..]);
      if Distinct(w) {
        assert w[0] !in w[1..];
      }
    }
  }

  lemma {:induction false} WithoutRemoves<T>(w: seq<T>, x: T)
    requires Distinct(w)
    ensures forall y :: y in Without(w, x) <==> y in w && y != x
    ensures Distinct(Without(w, x))
  {
    if w != [] {
      assert w == [w[0]] + w[1..];
      if w[0] != x {
        WithoutRemoves(w[1..], x);
        assert w[0] !in w[1..];
        assert Without(w, x)[1..] == Without(w[1..], x);
      }
    }
  }

  /** Removing an element brings no element of the first `n` out of it. */
  lemma {:induction false} FirstAfterWithout<T>(w: seq<T>, x: T, n: nat)
    ensures forall y :: y in First(w, n) && y != x ==> y in First(Without(w, x), n)
  {
    if w != [] && n > 0 {
      assert w == [w[0]] + w[1..];
      var rest := First(w[1..], n - 1);
      assert First(w, n) == [w[0]] + rest;
      if w[0] == x {
        assert forall y :: y in rest ==> y in First(w[1..], n);
      } else {
        FirstAfterWithout(w[1..], x, n - 1);
        assert First(Without(w, x), n) == [w[0]] + First(Without(w[1..], x), n - 1);
      }
    }
  }

  lemma FirstOfPrefix<T>(v: seq<T>, w: seq<T>, n: nat)
    requires v <= w
    ensures First(v, n) <= First(w, n)
    ensures Elements(First(v, n)) <= Elements(First(w, n))
  {
    assert First(v, n) <= First(w, n);
  }

  lemma {:induction false} WithoutAbsent<T>(w: seq<T>, x: T)
    requires x !in w
    ensures Without(w, x) == w
  {
    if w != [] {
      WithoutAbsent(w[1..], x);
    }
  }

  lemma {:induction false} WithoutAt<T>(w: seq<T>, k: nat)
    requires k < |w| && Distinct(w)
    ensures Without(w, w[k]) == w[..k] + w[k + 1..]
  {
    if k > 0 {
      WithoutAt(w[1..], k - 1);
      assert w[1..][..k - 1] == w[1..k];
      assert w[..k] == [w[0]] + w[1..k];
    }
  }
}
