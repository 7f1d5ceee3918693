/** What the three passes deliver for every list of candidates, references repeated or not. */
module BankReconProps {
  import opened Wrappers
  import opened BankReconSpec
  import opened BankReconSteps

  // ----- What holds of the pool -----

  /** Only references that some candidate puts there are in the lists of an index. */
  ghost predicate ListsOk<K(!new)>(gl: seq<Gl>, key: Gl -> K, index: map<K, seq<string>>) {
    forall k, r :: r in At(index, k) ==> Listed(gl, key, r, k)
  }

  ghost predicate PoolOk(gl: seq<Gl>, p: Pool) {
    && OpenOk(Survivors(gl), p.remaining)
    && ListsOk(gl, GlKey, p.exact)
    && ListsOk(gl, GlAmount, p.near)
  }

  /** Every open reference is still in every exact list it was put into. */
  ghost predicate Complete(gl: seq<Gl>, p: Pool) {
    forall r, k :: r in p.remaining && Listed(gl, GlKey, r, k) ==> r in At(p.exact, k)
  }

  ghost predicate RefusedAmong(seen: seq<Bank>, amount: real, g: Gl) {
    exists i :: 0 <= i < |seen| && Refuses(seen[i], amount, g)
  }

  /** An open reference is still in every amount list it was put into, or some transaction of that amount refused it. */
  ghost predicate Accounted(gl: seq<Gl>, p: Pool, seen: seq<Bank>) {
    forall r, a :: r in p.remaining && Listed(gl, GlAmount, r, a) ==>
      r in At(p.near, a) || RefusedAmong(seen, a, p.remaining[r])
  }

  /** Exactly the candidate that was taken left the open ones. */
  ghost predicate Closed(before: map<string, Gl>, after: map<string, Gl>, taken: Option<Gl>) {
    match taken
    case None => after == before
    case Some(g) => g.reference in before && before[g.reference] == g && after == before - {g.reference}
  }

  ghost predicate Shrinks(before: map<string, Gl>, after: map<string, Gl>) {
    forall r :: r in after ==> r in before && after[r] == before[r]
  }

  lemma IndexOk<K(!new)>(gl: seq<Gl>, key: Gl -> K)
    ensures ListsOk(gl, key, Index(key, gl))
    ensures forall r, k :: Listed(gl, key, r, k) ==> r in At(Index(key, gl), k)
  {
    hide Listed, Index;
    IndexLists(key, gl);
  }

  lemma ShorterListsOk(gl: seq<Gl>, index: map<real, seq<string>>, shorter: map<real, seq<string>>)
    requires ListsOk(gl, GlAmount, index) && forall a, r :: r in At(shorter, a) ==> r in At(index, a)
    ensures ListsOk(gl, GlAmount, shorter)
  {
    hide Listed;
    forall a: real, r | r in At(shorter, a) ensures Listed(gl, GlAmount, r, a) {
      assert r in At(index, a);
    }
  }

  lemma InitialOk(gl: seq<Gl>)
    ensures PoolOk(gl, InitialPool(gl)) && Complete(gl, InitialPool(gl)) && Accounted(gl, InitialPool(gl), [])
  {
    hide Listed, Index, ListsOk, At, OpenOk;
    InitialOpen(gl);
    IndexOk(gl, GlKey);
    IndexOk(gl, GlAmount);
  }

  // ----- One step of each pass -----

  lemma Popped(refs: seq<string>, hit: string -> bool)
    ensures var n := Misses(refs, hit);
      && (forall r :: r in Rest(refs, n) ==> r in refs)
      && (forall r :: r in refs ==> r in Rest(refs, n) || !hit(r) || (n < |refs| && r == refs[n]))
      && (n == |refs| ==> Rest(refs, n) == [] && forall r :: r in refs ==> !hit(r))
      && (n < |refs| ==> refs[n] in refs && hit(refs[n]))
  {
  }

  lemma TakenCloses(kept: seq<Gl>, open: map<string, Gl>, refs: seq<string>, n: nat)
    requires OpenOk(kept, open)
    ensures var (after, taken) := Take(open, refs, n);
      && OpenOk(kept, after)
      && Closed(open, after, taken)
      && (taken.Some? ==> n < |refs| && taken.value.reference == refs[n])
  {
  }

  lemma {:induction false} WithoutFacts(refs: seq<string>, r: string)
    ensures forall x :: x in Without(refs, r) <==> x in refs && x != r
  {
    if refs != [] {
      WithoutFacts(refs[..|refs| - 1], r);
      assert refs == refs[..|refs| - 1] + [refs[|refs| - 1]];
    }
  }

  /** Dropping a candidate touches no other reference. */
  lemma Dropped(p: Pool, taken: Option<Gl>)
    ensures DropNear(p, taken).remaining == p.remaining && DropNear(p, taken).exact == p.exact
    ensures forall a, r :: r in At(DropNear(p, taken).near, a) ==> r in At(p.near, a)
    ensures forall a, r :: r in At(p.near, a) && (taken.None? || r != taken.value.reference) ==>
      r in At(DropNear(p, taken).near, a)
  {
    if taken.Some? && At(p.near, taken.value.amount) != [] {
      WithoutFacts(p.near[taken.value.amount], taken.value.reference);
    }
  }

  /** After a candidate was dropped what holds of the pool still holds. */
  lemma DropKeeps(gl: seq<Gl>, p: Pool, taken: Option<Gl>, seen: seq<Bank>)
    requires PoolOk(gl, p) && Accounted(gl, p, seen)
    requires taken.Some? ==> taken.value.reference !in p.remaining
    ensures PoolOk(gl, DropNear(p, taken)) && Accounted(gl, DropNear(p, taken), seen)
    ensures Complete(gl, p) ==> Complete(gl, DropNear(p, taken))
    ensures DropNear(p, taken).remaining == p.remaining
  {
    hide DropNear, Listed, RefusedAmong;
    Dropped(p, taken);
    ShorterListsOk(gl, p.near, DropNear(p, taken).near);
  }

  lemma TakeExactKeeps(gl: seq<Gl>, p: Pool, key: Key)
    requires PoolOk(gl, p) && Complete(gl, p) && Accounted(gl, p, [])
    ensures var (q, taken) := TakeExact(p, key);
      && PoolOk(gl, q) && Complete(gl, q) && Accounted(gl, q, [])
      && Closed(p.remaining, q.remaining, taken)
      && (taken.Some? ==> Listed(gl, GlKey, taken.value.reference, key))
      && (taken.None? ==> forall r :: r in q.remaining ==> !Listed(gl, GlKey, r, key))
  {
    hide Listed, RefusedAmong, Survivors;
    var refs := At(p.exact, key);
    var n := Misses(refs, IsOpen(p.remaining));
    Popped(refs, IsOpen(p.remaining));
    TakenCloses(Survivors(gl), p.remaining, refs, n);
  }

  lemma ExactStep(gl: seq<Gl>, p: Pool, b: Bank)
    requires PoolOk(gl, p) && Complete(gl, p) && Accounted(gl, p, [])
    ensures var (q, taken) := MatchExact(p, b);
      && PoolOk(gl, q) && Complete(gl, q) && Accounted(gl, q, [])
      && Closed(p.remaining, q.remaining, taken)
      && (taken.Some? ==> ExactBy(gl, b, taken.value))
      && (taken.None? ==> forall r :: r in q.remaining ==> !Listed(gl, GlKey, r, BankKey(b)))
  {
    hide Listed, RefusedAmong, PoolOk, Complete, Accounted, TakeExact, DropNear;
    TakeExactKeeps(gl, p, BankKey(b));
    var (q, taken) := TakeExact(p, BankKey(b));
    DropKeeps(gl, q, taken, []);
  }

  lemma TakeNearKeeps(gl: seq<Gl>, p: Pool, b: Bank, seen: seq<Bank>)
    requires PoolOk(gl, p) && Accounted(gl, p, seen)
    ensures var (q, taken) := TakeNear(p, b);
      && PoolOk(gl, q) && Accounted(gl, q, seen + [b])
      && Closed(p.remaining, q.remaining, taken)
      && (taken.Some? ==> NearBy(gl, b, taken.value))
      && (taken.None? ==> At(q.near, b.amount) == [])
  {
    hide Listed, RefusedAmong, Survivors;
    var refs := At(p.near, b.amount);
    var hit := IsNear(p.remaining, b);
    Popped(refs, hit);
    TakenCloses(Survivors(gl), p.remaining, refs, Misses(refs, hit));
    var q := TakeNear(p, b).0;
    forall r, a | r in q.remaining && Listed(gl, GlAmount, r, a)
      ensures r in At(q.near, a) || RefusedAmong(seen + [b], a, q.remaining[r])
    {
      if r in At(p.near, a) {
        if a == b.amount && r !in At(q.near, a) {
          assert !hit(r);
          RefusedNow(seen, b, q.remaining[r]);
        }
      } else {
        RefusedBefore(seen, b, a, q.remaining[r]);
      }
    }
  }

  lemma RefusedNow(seen: seq<Bank>, b: Bank, g: Gl)
    requires DayGap(b, g) > 3
    ensures RefusedAmong(seen + [b], b.amount, g)
  {
    assert (seen + [b])[|seen|] == b;
  }

  lemma RefusedBefore(seen: seq<Bank>, b: Bank, amount: real, g: Gl)
    requires RefusedAmong(seen, amount, g)
    ensures RefusedAmong(seen + [b], amount, g)
  {
    var i :| 0 <= i < |seen| && Refuses(seen[i], amount, g);
    assert (seen + [b])[i] == seen[i];
  }

  lemma NearStep(gl: seq<Gl>, p: Pool, b: Bank, seen: seq<Bank>)
    requires PoolOk(gl, p) && Accounted(gl, p, seen)
    ensures var (q, taken) := MatchNear(p, b);
      && PoolOk(gl, q) && Accounted(gl, q, seen + [b])
      && Closed(p.remaining, q.remaining, taken)
      && (taken.Some? ==> NearBy(gl, b, taken.value))
      && (taken.None? ==> forall r :: r in q.remaining && Listed(gl, GlAmount, r, b.amount) ==>
            RefusedBy(seen + [b], b, b.amount, q.remaining[r]))
  {
    hide Listed, PoolOk, TakeNear, NearBy;
    TakeNearKeeps(gl, p, b, seen);
    var (q, taken) := TakeNear(p, b);
    DropKeeps(gl, q, taken, seen + [b]);
    if taken.None? {
      forall r | r in q.remaining && Listed(gl, GlAmount, r, b.amount)
        ensures RefusedBy(seen + [b], b, b.amount, q.remaining[r])
      {
        assert (seen + [b])[|seen|] == b;
      }
    }
  }

  lemma OrderCovers(gl: seq<Gl>, open: map<string, Gl>)
    requires OpenOk(Survivors(gl), open)
    ensures forall r :: r in open ==> r in Order(gl)
  {
    forall r | r in open ensures r in Order(gl) {
      var k :| 0 <= k < |Survivors(gl)| && Survivors(gl)[k] == open[r];
      assert Order(gl)[k] == r;
    }
  }

  lemma FuzzyStep(similar: Similarity, gl: seq<Gl>, p: Pool, b: Bank)
    requires OpenOk(Survivors(gl), p.remaining)
    ensures var (q, taken) := MatchFuzzy(similar, Order(gl))(p, b);
      && OpenOk(Survivors(gl), q.remaining)
      && Closed(p.remaining, q.remaining, taken)
      && (taken.Some? ==> Fuzzy(similar, b, taken.value))
      && (taken.None? ==> forall r :: r in q.remaining ==> !Fuzzy(similar, b, q.remaining[r]))
  {
    hide Fuzzy, Survivors, Order, OpenOk;
    OrderCovers(gl, p.remaining);
    var hit := IsFuzzy(similar, p.remaining, b);
    Popped(Order(gl), hit);
    TakenCloses(Survivors(gl), p.remaining, Order(gl), Misses(Order(gl), hit));
    var (q, taken) := TakeFuzzy(similar, Order(gl), p, b);
    Dropped(q, taken);
  }

  // ----- Whole passes -----

  /** The pairs of a pass and what it leaves are what it was given. */
  ghost predicate Splits(kept: seq<Gl>, before: map<string, Gl>, bank: seq<Bank>, s: Passed) {
    && multiset(bank) == multiset(Banks(s.pairs)) + multiset(s.left)
    && multiset(Left(kept, before.Keys)) == multiset(Gls(s.pairs)) + multiset(Left(kept, s.pool.remaining.Keys))
    && Shrinks(before, s.pool.remaining)
  }

  lemma CloseOne(kept: seq<Gl>, before: map<string, Gl>, after: map<string, Gl>, g: Gl)
    requires OpenOk(kept, before) && Closed(before, after, Some(g))
    ensures multiset(Left(kept, before.Keys)) == multiset(Left(kept, after.Keys)) + multiset{g}
  {
    assert after.Keys == before.Keys - {g.reference};
    LeftWithout(kept, before.Keys, g);
  }

  lemma SplitPairs(pairs: seq<Pair>, b: Bank, g: Gl)
    ensures multiset(Banks(pairs + [(b, g)])) == multiset(Banks(pairs)) + multiset{b}
    ensures multiset(Gls(pairs + [(b, g)])) == multiset(Gls(pairs)) + multiset{g}
  {
    assert Banks(pairs + [(b, g)]) == Banks(pairs) + [b];
    assert Gls(pairs + [(b, g)]) == Gls(pairs) + [g];
  }

  lemma SplitStep(kept: seq<Gl>, start: map<string, Gl>, bank: seq<Bank>, s: Passed, step: Step, b: Bank)
    requires Splits(kept, start, bank, s) && OpenOk(kept, s.pool.remaining)
    requires Closed(s.pool.remaining, step(s.pool, b).0.remaining, step(s.pool, b).1)
    ensures Splits(kept, start, bank + [b], Extend(s, step, b))
  {
    hide OpenOk, Left, Banks, Gls;
    var (q, taken) := step(s.pool, b);
    if taken.Some? {
      CloseOne(kept, s.pool.remaining, q.remaining, taken.value);
      SplitPairs(s.pairs, b, taken.value);
    }
  }

  lemma PassStart(kept: seq<Gl>, p: Pool)
    ensures Splits(kept, p.remaining, [], Passed(p, [], []))
  {
  }

  lemma Snoc<T>(s: seq<T>)
    requires s != []
    ensures s == s[..|s| - 1] + [s[|s| - 1]]
  {
  }

  ghost predicate ExactLeft(gl: seq<Gl>, s: Passed) {
    forall b, r :: b in s.left && r in s.pool.remaining ==> !Listed(gl, GlKey, r, BankKey(b))
  }

  lemma {:induction false} ExactPass(gl: seq<Gl>, p: Pool, bank: seq<Bank>)
    requires PoolOk(gl, p) && Complete(gl, p) && Accounted(gl, p, [])
    ensures var s := Pass(MatchExact, p, bank);
      && PoolOk(gl, s.pool) && Complete(gl, s.pool) && Accounted(gl, s.pool, [])
      && Splits(Survivors(gl), p.remaining, bank, s)
      && (forall x :: x in s.pairs ==> ExactBy(gl, x.0, x.1))
      && ExactLeft(gl, s)
  {
    hide Complete, Accounted, Splits, Survivors, Listed, MatchExact, OpenOk;
    if bank == [] {
      PassStart(Survivors(gl), p);
    } else {
      var front, b := bank[..|bank| - 1], bank[|bank| - 1];
      Snoc(bank);
      ExactPass(gl, p, front);
      var s := Pass(MatchExact, p, front);
      ExactStep(gl, s.pool, b);
      SplitStep(Survivors(gl), p.remaining, front, s, MatchExact, b);
    }
  }

  ghost predicate NearLeft(gl: seq<Gl>, queue: seq<Bank>, s: Passed) {
    forall b, r :: b in s.left && r in s.pool.remaining && Listed(gl, GlAmount, r, b.amount) ==>
      RefusedBy(queue, b, b.amount, s.pool.remaining[r])
  }

  lemma NearStart(gl: seq<Gl>, p: Pool)
    ensures NearLeft(gl, [], Passed(p, [], []))
  {
  }

  lemma RefusedStill(queue: seq<Bank>, c: Bank, b: Bank, g: Gl)
    requires RefusedBy(queue, b, b.amount, g)
    ensures RefusedBy(queue + [c], b, b.amount, g)
  {
    var i, j :| 0 <= i <= j < |queue| && queue[j] == b && Refuses(queue[i], b.amount, g);
    assert (queue + [c])[i] == queue[i] && (queue + [c])[j] == queue[j];
  }

  lemma NearLeftStep(gl: seq<Gl>, queue: seq<Bank>, s: Passed, b: Bank)
    requires NearLeft(gl, queue, s)
    requires Closed(s.pool.remaining, MatchNear(s.pool, b).0.remaining, MatchNear(s.pool, b).1)
    requires var (q, taken) := MatchNear(s.pool, b);
      taken.None? ==> forall r :: r in q.remaining && Listed(gl, GlAmount, r, b.amount) ==>
        RefusedBy(queue + [b], b, b.amount, q.remaining[r])
    ensures NearLeft(gl, queue + [b], Extend(s, MatchNear, b))
  {
    hide Listed, RefusedBy, MatchNear;
    var t := Extend(s, MatchNear, b);
    forall c, r | c in t.left && r in t.pool.remaining && Listed(gl, GlAmount, r, c.amount)
      ensures RefusedBy(queue + [b], c, c.amount, t.pool.remaining[r])
    {
      if c in s.left {
        RefusedStill(queue, b, c, s.pool.remaining[r]);
      }
    }
  }

  lemma {:induction false} NearPass(gl: seq<Gl>, p: Pool, bank: seq<Bank>)
    requires PoolOk(gl, p) && Accounted(gl, p, [])
    ensures var s := Pass(MatchNear, p, bank);
      && PoolOk(gl, s.pool) && Accounted(gl, s.pool, bank)
      && Splits(Survivors(gl), p.remaining, bank, s)
      && (forall x :: x in s.pairs ==> NearBy(gl, x.0, x.1))
      && NearLeft(gl, bank, s)
  {
    hide Accounted, Splits, Survivors, Listed, MatchNear, OpenOk, NearLeft, NearBy, RefusedBy;
    if bank == [] {
      PassStart(Survivors(gl), p);
      NearStart(gl, p);
    } else {
      var front, b := bank[..|bank| - 1], bank[|bank| - 1];
      Snoc(bank);
      NearPass(gl, p, front);
      var s := Pass(MatchNear, p, front);
      NearStep(gl, s.pool, b, front);
      SplitStep(Survivors(gl), p.remaining, front, s, MatchNear, b);
      NearLeftStep(gl, front, s, b);
    }
  }

  ghost predicate FuzzyLeft(similar: Similarity, s: Passed) {
    forall b, r :: b in s.left && r in s.pool.remaining ==> !Fuzzy(similar, b, s.pool.remaining[r])
  }

  lemma {:induction false} FuzzyPass(similar: Similarity, gl: seq<Gl>, p: Pool, bank: seq<Bank>)
    requires OpenOk(Survivors(gl), p.remaining)
    ensures var s := Pass(MatchFuzzy(similar, Order(gl)), p, bank);
      && OpenOk(Survivors(gl), s.pool.remaining)
      && Splits(Survivors(gl), p.remaining, bank, s)
      && (forall x :: x in s.pairs ==> Fuzzy(similar, x.0, x.1))
      && FuzzyLeft(similar, s)
  {
    hide Splits, Survivors, MatchFuzzy, OpenOk, Fuzzy, Order;
    if bank == [] {
      PassStart(Survivors(gl), p);
    } else {
      var front, b := bank[..|bank| - 1], bank[|bank| - 1];
      Snoc(bank);
      FuzzyPass(similar, gl, p, front);
      var step := MatchFuzzy(similar, Order(gl));
      var s := Pass(step, p, front);
      FuzzyStep(similar, gl, s.pool, b);
      SplitStep(Survivors(gl), p.remaining, front, s, step, b);
    }
  }

  // ----- The run -----

  lemma PartOf<T>(all: seq<T>, part: seq<T>, rest: seq<T>)
    requires multiset(all) == multiset(part) + multiset(rest)
    ensures forall x :: x in part + rest <==> x in all
  {
    forall x ensures x in part + rest <==> x in all {
      assert x in part + rest <==> x in multiset(part) + multiset(rest);
      assert x in all <==> x in multiset(all);
    }
  }

  lemma ThreeSplits<T>(all: seq<T>, a: seq<T>, left1: seq<T>, b: seq<T>, left2: seq<T>, c: seq<T>, left3: seq<T>)
    requires multiset(all) == multiset(a) + multiset(left1)
    requires multiset(left1) == multiset(b) + multiset(left2)
    requires multiset(left2) == multiset(c) + multiset(left3)
    ensures multiset(all) == multiset(a + b + c + left3)
    ensures multiset(left1) == multiset(b + c + left3)
    ensures forall x :: x in b + c + left3 <==> x in left1
    ensures forall x :: x in c + left3 <==> x in left2
  {
    PartOf(left1, b + c, left3);
    PartOf(left2, c, left3);
  }

  /** The three passes one after the other, each on what the one before left. */
  lemma RunFacts(similar: Similarity, bank: seq<Bank>, gl: seq<Gl>)
    ensures var (e, n, f) := (ExactPassed(bank, gl), NearPassed(bank, gl), FuzzyPassed(similar, bank, gl));
      && Splits(Survivors(gl), ByReference(gl), bank, e)
      && Splits(Survivors(gl), e.pool.remaining, e.left, n)
      && Splits(Survivors(gl), n.pool.remaining, n.left, f)
      && (forall x :: x in e.pairs ==> ExactBy(gl, x.0, x.1))
      && (forall x :: x in n.pairs ==> NearBy(gl, x.0, x.1))
      && (forall x :: x in f.pairs ==> Fuzzy(similar, x.0, x.1))
      && OpenOk(Survivors(gl), e.pool.remaining) && OpenOk(Survivors(gl), n.pool.remaining)
      && OpenOk(Survivors(gl), f.pool.remaining)
      && ExactLeft(gl, e) && NearLeft(gl, e.left, n) && FuzzyLeft(similar, f)
  {
    hide Splits, ExactBy, NearBy, Fuzzy, OpenOk, ExactLeft, NearLeft, FuzzyLeft, Pass, Survivors, Complete, Accounted;
    InitialOk(gl);
    ExactPass(gl, InitialPool(gl), bank);
    var e := ExactPassed(bank, gl);
    NearPass(gl, e.pool, e.left);
    var n := NearPassed(bank, gl);
    FuzzyPass(similar, gl, n.pool, n.left);
  }

  lemma ExactLeftOnes(gl: seq<Gl>, s: Passed)
    requires OpenOk(Survivors(gl), s.pool.remaining) && ExactLeft(gl, s)
    ensures forall b, g :: b in s.left && g in Left(Survivors(gl), s.pool.remaining.Keys) ==> !ExactBy(gl, b, g)
  {
    OpenOnes(Survivors(gl), s.pool.remaining);
  }

  lemma NearLeftOnes(gl: seq<Gl>, queue: seq<Bank>, s: Passed)
    requires OpenOk(Survivors(gl), s.pool.remaining) && NearLeft(gl, queue, s)
    ensures forall b, g :: b in s.left && g in Left(Survivors(gl), s.pool.remaining.Keys) ==>
      RefusedIfListed(gl, queue, b, g)
  {
    hide RefusedBy, Listed;
    OpenOnes(Survivors(gl), s.pool.remaining);
  }

  lemma FuzzyLeftOnes(similar: Similarity, gl: seq<Gl>, s: Passed)
    requires OpenOk(Survivors(gl), s.pool.remaining) && FuzzyLeft(similar, s)
    ensures forall b, g :: b in s.left && g in Left(Survivors(gl), s.pool.remaining.Keys) ==> !Fuzzy(similar, b, g)
  {
    hide Fuzzy;
    OpenOnes(Survivors(gl), s.pool.remaining);
  }

  lemma ReconcileSplits(similar: Similarity, bank: seq<Bank>, gl: seq<Gl>)
    ensures var o := Reconcile(similar, bank, gl);
      var (e, n, f) := (ExactPassed(bank, gl), NearPassed(bank, gl), FuzzyPassed(similar, bank, gl));
      && Delivered(similar, bank, gl, o)
      && multiset(e.left) == multiset(Banks(o.near) + Banks(o.fuzzy) + o.bankLeft)
      && Members(Banks(o.near) + Banks(o.fuzzy) + o.bankLeft, e.left) && Members(Banks(o.fuzzy) + o.bankLeft, n.left)
      && Members(Gls(o.near) + Gls(o.fuzzy) + o.glLeft, Left(Survivors(gl), e.pool.remaining.Keys))
      && Members(Gls(o.fuzzy) + o.glLeft, Left(Survivors(gl), n.pool.remaining.Keys))
  {
    hide ExactBy, NearBy, Fuzzy, Survivors, Left, ExactPassed, NearPassed, FuzzyPassed, OpenOk;
    hide ExactLeft, NearLeft, FuzzyLeft, Banks, Gls, Shrinks, ByReference;
    RunFacts(similar, bank, gl);
    InitialOpen(gl);
    var e, n, f := ExactPassed(bank, gl), NearPassed(bank, gl), FuzzyPassed(similar, bank, gl);
    var kept := Survivors(gl);
    var open1, open2, open3 := Left(kept, e.pool.remaining.Keys), Left(kept, n.pool.remaining.Keys),
      Left(kept, f.pool.remaining.Keys);
    ThreeSplits(bank, Banks(e.pairs), e.left, Banks(n.pairs), n.left, Banks(f.pairs), f.left);
    ThreeSplits(kept, Gls(e.pairs), open1, Gls(n.pairs), open2, Gls(f.pairs), open3);
  }

  ghost predicate Members<T>(part: seq<T>, all: seq<T>) { forall x :: x in part ==> x in all }

  /**
    What a run delivers, for every list of transactions and of candidates: each transaction and each
    surviving candidate is in exactly one pair or left over, pairs were found by their own test, and
    what is left over no pass could have paired, up to the near pass's refusals.
  */
  lemma ReconcileDelivers(similar: Similarity, bank: seq<Bank>, gl: seq<Gl>)
    ensures var o := Reconcile(similar, bank, gl);
      Delivered(similar, bank, gl, o) && ExactDone(gl, o) && NearDone(gl, o) && FuzzyExhausted(similar, o)
  {
    hide ExactBy, NearBy, Fuzzy, RefusedIfListed, Survivors, Left, ExactPassed, NearPassed, FuzzyPassed, OpenOk, Splits;
    hide ExactLeft, NearLeft, FuzzyLeft, Banks, Gls, Shrinks, ByReference, Delivered;
    RunFacts(similar, bank, gl);
    ReconcileSplits(similar, bank, gl);
    ExactLeftOnes(gl, ExactPassed(bank, gl));
    NearLeftOnes(gl, ExactPassed(bank, gl).left, NearPassed(bank, gl));
    FuzzyLeftOnes(similar, gl, FuzzyPassed(similar, bank, gl));
  }

  // ----- When a near match cannot be missed -----

  /** A pass leaves transactions in the order it got them. */
  lemma {:induction false} LeftInOrder(step: Step, p: Pool, bank: seq<Bank>, i: nat, j: nat) returns (k: nat, l: nat)
    requires i <= j < |Pass(step, p, bank).left|
    ensures k <= l < |bank| && bank[k] == Pass(step, p, bank).left[i] && bank[l] == Pass(step, p, bank).left[j]
  {
    var n := |bank| - 1;
    var left := Pass(step, p, bank[..n]).left;
    if j < |left| {
      k, l := LeftInOrder(step, p, bank[..n], i, j);
    } else if i < j {
      k, l := LeftInOrder(step, p, bank[..n], i, i);
      l := n;
    } else {
      k, l := n, n;
    }
  }

  /** No transaction of the candidate's amount, up to the last occurrence of b, is too far from it. */
  predicate NoneTooFar(bank: seq<Bank>, b: Bank, g: Gl) {
    forall i, j :: 0 <= i <= j < |bank| && bank[j] == b ==> !Refuses(bank[i], g.amount, g)
  }

  lemma QueueKeepsNear(bank: seq<Bank>, gl: seq<Gl>, b: Bank, g: Gl)
    requires NoneTooFar(bank, b, g)
    ensures NoneTooFar(ExactPassed(bank, gl).left, b, g)
  {
    hide Refuses, Pass, InitialPool;
    var queue := ExactPassed(bank, gl).left;
    forall i, j | 0 <= i <= j < |queue| && queue[j] == b ensures !Refuses(queue[i], g.amount, g) {
      var k, l := LeftInOrder(MatchExact, InitialPool(gl), bank, i, j);
    }
  }

  /**
    The near pass is not maximal, but it does not leave a transaction b and a candidate of b's amount behind
    unless that candidate is more than three days from b or from a transaction of the amount before b.
  */
  lemma NearMissNeedsRefusal(similar: Similarity, bank: seq<Bank>, gl: seq<Gl>, b: Bank, g: Gl)
    requires b.amount == g.amount && NoneTooFar(bank, b, g)
    ensures var o := Reconcile(similar, bank, gl);
      !(b in Banks(o.fuzzy) + o.bankLeft && g in Gls(o.fuzzy) + o.glLeft)
  {
    hide Reconcile, ExactPassed, Banks, Gls, Refuses;
    QueueKeepsNear(bank, gl, b, g);
    QueueIs(similar, bank, gl);
    var o := Reconcile(similar, bank, gl);
    if b in Banks(o.fuzzy) + o.bankLeft && g in Gls(o.fuzzy) + o.glLeft {
      BothLeftRefused(similar, bank, gl, b, g);
    }
  }

  lemma QueueIs(similar: Similarity, bank: seq<Bank>, gl: seq<Gl>)
    ensures Reconcile(similar, bank, gl).queue == ExactPassed(bank, gl).left
  {
    hide ExactPassed, NearPassed, FuzzyPassed, Survivors, Left;
  }

  lemma BothLeftRefused(similar: Similarity, bank: seq<Bank>, gl: seq<Gl>, b: Bank, g: Gl)
    requires b.amount == g.amount
    requires var o := Reconcile(similar, bank, gl); b in Banks(o.fuzzy) + o.bankLeft && g in Gls(o.fuzzy) + o.glLeft
    ensures RefusedBy(Reconcile(similar, bank, gl).queue, b, b.amount, g)
  {
    hide Reconcile, Delivered, ExactDone, FuzzyExhausted, Banks, Gls, RefusedBy, Listed;
    ReconcileDelivers(similar, bank, gl);
    LeftIsListed(similar, bank, gl, g);
    assert RefusedIfListed(gl, Reconcile(similar, bank, gl).queue, b, g);
  }

  /** Whatever candidate is left over was loaded, so its reference is listed under its amount. */
  lemma LeftIsListed(similar: Similarity, bank: seq<Bank>, gl: seq<Gl>, g: Gl)
    requires var o := Reconcile(similar, bank, gl); g in Gls(o.fuzzy) + o.glLeft
    ensures Listed(gl, GlAmount, g.reference, g.amount)
  {
    hide Reconcile, ExactDone, NearDone, FuzzyExhausted, Survivors, Delivered;
    ReconcileDelivers(similar, bank, gl);
    GlsLoaded(similar, bank, gl, Reconcile(similar, bank, gl));
    SurvivorsFacts(gl);
    assert g in Survivors(gl);
    assert g in gl && GlAmount(g) == g.amount;
  }

  /** With distinct references the run reconciles what was loaded, candidate by candidate. */
  lemma ReconcileDistinct(similar: Similarity, bank: seq<Bank>, gl: seq<Gl>)
    requires DistinctReferences(gl)
    ensures var o := Reconcile(similar, bank, gl);
      Reconciled(similar, bank, gl, o) && ExactExhausted(o) && NearExhausted(o) && FuzzyExhausted(similar, o)
  {
    hide Reconcile, Delivered, ExactDone, NearDone, Reconciled, ExactExhausted, NearExhausted, FuzzyExhausted;
    hide DistinctReferences;
    ReconcileDelivers(similar, bank, gl);
    DistinctReconciled(similar, bank, gl, Reconcile(similar, bank, gl));
  }
}
