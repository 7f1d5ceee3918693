/** Sums and images of sequences do not depend on the order of the elements. */
module Multisets {

  function Sum<T>(f: T -> real, s: seq<T>): real {
    if s == [] then 0.0 else Sum(f, s[..|s| - 1]) + f(s[|s| - 1])
  }

  function MapSeq<T, U>(f: T -> U, s: seq<T>): (r: seq<U>)
    ensures |r| == |s| && forall i :: 0 <= i < |s| ==> r[i] == f(s[i])
  {
    if s == [] then [] else MapSeq(f, s[..|s| - 1]) + [f(s[|s| - 1])]
  }

  lemma SumSnoc<T>(f: T -> real, s: seq<T>, x: T)
    ensures Sum(f, s + [x]) == Sum(f, s) + f(x)
  {
    assert (s + [x])[..|s|] == s;
  }

  lemma {:induction false} SumConcat<T>(f: T -> real, a: seq<T>, b: seq<T>)
    ensures Sum(f, a + b) == Sum(f, a) + Sum(f, b)
  {
    if b == [] {
      assert a + b == a;
    } else {
      SumConcat(f, a, b[..|b| - 1]);
      assert (a + b)[..|a + b| - 1] == a + b[..|b| - 1];
    }
  }

  lemma {:induction false} MapConcat<T, U>(f: T -> U, a: seq<T>, b: seq<T>)
    ensures MapSeq(f, a + b) == MapSeq(f, a) + MapSeq(f, b)
  {
  }

  /** Takes one occurrence of x out of s. */
  lemma TakeOut<T>(s: seq<T>, x: T) returns (i: nat)
    requires x in multiset(s)
    ensures i < |s| && s[i] == x
    ensures s == s[..i] + [x] + s[i + 1..]
    ensures multiset(s[..i] + s[i + 1..]) == multiset(s) - multiset{x}
  {
    assert x in s;
    i :| 0 <= i < |s| && s[i] == x;
    assert s == s[..i] + [x] + s[i + 1..];
  }

  lemma {:induction false} SumPermutation<T>(f: T -> real, a: seq<T>, b: seq<T>)
    requires multiset(a) == multiset(b)
    ensures Sum(f, a) == Sum(f, b)
  {
    if a == [] {
      assert |multiset(b)| == 0;
    } else {
      var front, x := a[..|a| - 1], a[|a| - 1];
      assert a == front + [x];
      var i := TakeOut(b, x);
      SumPermutation(f, front, b[..i] + b[i + 1..]);
      SumConcat(f, b[..i], b[i + 1..]);
      SumSnoc(f, b[..i], x);
      SumConcat(f, b[..i] + [x], b[i + 1..]);
    }
  }

  /** The image of a part is a part of the image. */
  lemma {:induction false} MapSubset<T, U>(f: T -> U, a: seq<T>, b: seq<T>)
    requires multiset(a) <= multiset(b)
    ensures multiset(MapSeq(f, a)) <= multiset(MapSeq(f, b))
  {
    if a != [] {
      var front, x := a[..|a| - 1], a[|a| - 1];
      assert a == front + [x];
      var i := TakeOut(b, x);
      MapSubset(f, front, b[..i] + b[i + 1..]);
      MapConcat(f, b[..i], b[i + 1..]);
      MapConcat(f, b[..i], [x]);
      MapConcat(f, b[..i] + [x], b[i + 1..]);
    }
  }

  lemma MapPermutation<T, U>(f: T -> U, a: seq<T>, b: seq<T>)
    requires multiset(a) == multiset(b)
    ensures multiset(MapSeq(f, a)) == multiset(MapSeq(f, b))
  {
    MapSubset(f, a, b);
    MapSubset(f, b, a);
  }
}
