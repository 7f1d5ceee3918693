/** Python's ordering of strings (by code point) and `sorted` on lists of strings. */
module PyOrder {

  /** s <= t in Python's string order. */
  predicate StrLeq(s: string, t: string) {
    s == "" || (t != "" && (s[0] < t[0] || (s[0] == t[0] && StrLeq(s[1..], t[1..]))))
  }

  predicate IsSorted(s: seq<string>) {
    forall i, j :: 0 <= i < j < |s| ==> StrLeq(s[i], s[j])
  }

  lemma {:induction false} StrLeqTotal(s: string, t: string)
    ensures StrLeq(s, t) || StrLeq(t, s)
  {
    if s != "" && t != "" && s[0] == t[0] {
      StrLeqTotal(s[1..], t[1..]);
    }
  }

  lemma {:induction false} StrLeqTransitive(s: string, t: string, u: string)
    requires StrLeq(s, t) && StrLeq(t, u)
    ensures StrLeq(s, u)
  {
    if s != "" && s[0] == t[0] && t[0] == u[0] {
      StrLeqTransitive(s[1..], t[1..], u[1..]);
    }
  }

  lemma {:induction false} StrLeqAntisymmetric(s: string, t: string)
    requires StrLeq(s, t) && StrLeq(t, s)
    ensures s == t
  {
    if s != "" && t != "" {
      StrLeqAntisymmetric(s[1..], t[1..]);
      assert s == [s[0]] + s[1..] && t == [t[0]] + t[1..];
    }
  }

  function Insert(x: string, s: seq<string>): (r: seq<string>)
    ensures multiset(r) == multiset([x]) + multiset(s)
  {
    if s == [] then [x]
    else if StrLeq(x, s[0]) then [x] + s
    else
      assert s == [s[0]] + s[1..];
      [s[0]] + Insert(x, s[1..])
  }

  function Sorted(s: seq<string>): (r: seq<string>)
    ensures multiset(r) == multiset(s)
  {
    if s == [] then []
    else
      assert s == [s[0]] + s[1..];
      Insert(s[0], Sorted(s[1..]))
  }

  lemma {:induction false} InsertKeepsSorted(x: string, s: seq<string>)
    requires IsSorted(s)
    ensures IsSorted(Insert(x, s))
  {
    if s != [] {
      StrLeqTotal(x, s[0]);
      if StrLeq(x, s[0]) {
        forall j | 0 <= j < |s| ensures StrLeq(x, s[j]) {
          if j > 0 { StrLeqTransitive(x, s[0], s[j]); }
        }
      } else {
        InsertKeepsSorted(x, s[1..]);
        var r := Insert(x, s[1..]);
        forall j | 0 <= j < |r| ensures StrLeq(s[0], r[j]) {
          assert r[j] in multiset(r);
          assert r[j] in multiset([x]) + multiset(s[1..]);
          assert r[j] == x || r[j] in s[1..];
        }
      }
    }
  }

  lemma {:induction false} SortedIsSorted(s: seq<string>)
    ensures IsSorted(Sorted(s))
  {
    if s != [] {
      SortedIsSorted(s[1..]);
      InsertKeepsSorted(s[0], Sorted(s[1..]));
    }
  }
}
