/** The three-pass matcher of run_bank_reconciliation (services/bank_recon_service.py). */
module BankRecon {
  import opened Wrappers
  import opened Multisets
  import opened BankReconSpec
  import opened BankReconSteps
  import opened BankReconProps
  import opened BankReconReport

  // ----- The indexes -----

  method BuildGlExactIndex(gl: seq<Gl>) returns (index: map<Key, seq<string>>)
    ensures index == Index(GlKey, gl)
    ensures forall k :: At(index, k) == RefsWith(GlKey, gl, k)
  {
    index := map[];
    for i := 0 to |gl|
      invariant index == Index(GlKey, gl[..i])
      invariant forall k :: At(index, k) == RefsWith(GlKey, gl[..i], k)
    {
      assert gl[..i + 1][..i] == gl[..i];
      var key := (gl[i].amount, gl[i].postingDate);
      index := index[key := At(index, key) + [gl[i].reference]];
    }
    assert gl[..|gl|] == gl;
  }

  method BuildGlNearIndex(gl: seq<Gl>) returns (index: map<real, seq<string>>)
    ensures index == Index(GlAmount, gl)
    ensures forall a :: At(index, a) == RefsWith(GlAmount, gl, a)
  {
    index := map[];
    for i := 0 to |gl|
      invariant index == Index(GlAmount, gl[..i])
      invariant forall a :: At(index, a) == RefsWith(GlAmount, gl[..i], a)
    {
      assert gl[..i + 1][..i] == gl[..i];
      var amount := gl[i].amount;
      index := index[amount := At(index, amount) + [gl[i].reference]];
    }
    assert gl[..|gl|] == gl;
  }

  // ----- Popping a reference list -----

  /** The references popped so far are misses. */
  lemma MissesFrom(refs: seq<string>, hit: string -> bool, n: nat)
    requires n <= |refs| && forall k :: 0 <= k < n ==> !hit(refs[k])
    requires n < |refs| ==> hit(refs[n])
    ensures Misses(refs, hit) == n
  {
  }

  /** Pops references until one is open. */
  method PopUntilOpen(candidateRefs: seq<string>, remaining: map<string, Gl>)
    returns (refs: seq<string>, hit: Option<string>)
    ensures var n := Misses(candidateRefs, IsOpen(remaining));
      && refs == Rest(candidateRefs, n)
      && hit == (if n < |candidateRefs| then Some(candidateRefs[n]) else None)
  {
    ghost var n := 0;
    refs, hit := candidateRefs, None;
    while refs != []
      invariant n <= |candidateRefs| && refs == candidateRefs[n..]
      invariant forall k :: 0 <= k < n ==> candidateRefs[k] !in remaining
    {
      var r := refs[0];
      if r in remaining {
        MissesFrom(candidateRefs, IsOpen(remaining), n);
        return refs[1..], Some(r);
      }
      refs, n := refs[1..], n + 1;
    }
    MissesFrom(candidateRefs, IsOpen(remaining), n);
  }

  /** Pops references until one is open and within three days of the transaction. */
  method PopUntilNear(b: Bank, candidateRefs: seq<string>, remaining: map<string, Gl>)
    returns (refs: seq<string>, hit: Option<string>)
    ensures var n := Misses(candidateRefs, IsNear(remaining, b));
      && refs == Rest(candidateRefs, n)
      && hit == (if n < |candidateRefs| then Some(candidateRefs[n]) else None)
  {
    ghost var n := 0;
    refs, hit := candidateRefs, None;
    while refs != []
      invariant n <= |candidateRefs| && refs == candidateRefs[n..]
      invariant forall k :: 0 <= k < n ==> !IsNear(remaining, b)(candidateRefs[k])
    {
      var r := refs[0];
      if r in remaining && DayGap(b, remaining[r]) <= 3 {
        MissesFrom(candidateRefs, IsNear(remaining, b), n);
        return refs[1..], Some(r);
      }
      refs, n := refs[1..], n + 1;
    }
    MissesFrom(candidateRefs, IsNear(remaining, b), n);
  }

  // ----- The matcher's state -----

  /** The open candidates and the two indexes, all shrinking as pairs are made. */
  class MatchPool {
    const loadOrder: seq<string>
    var remaining: map<string, Gl>
    var exactIndex: map<Key, seq<string>>
    var nearIndex: map<real, seq<string>>

    ghost function State(): Pool
      reads this
    {
      Pool(remaining, exactIndex, nearIndex)
    }

    constructor (gl: seq<Gl>)
      ensures State() == InitialPool(gl) && loadOrder == Order(gl)
    {
      var exact := BuildGlExactIndex(gl);
      var near := BuildGlNearIndex(gl);
      loadOrder := Order(gl);
      remaining := ByReference(gl);
      exactIndex := exact;
      nearIndex := near;
    }

    /** Takes the first listed candidate that is still open, and drops what is listed before it. */
    method TakeFromExactIndex(key: Key) returns (taken: Option<Gl>)
      modifies `remaining, `exactIndex
      ensures Named(old(remaining)) ==> KeepsBehind(old(At(exactIndex, key)), At(exactIndex, key), taken)
      ensures forall k: Key :: k != key ==> At(exactIndex, k) == At(old(exactIndex), k)
      ensures (State(), taken) == TakeExact(old(State()), key)
      ensures FirstOf(old(At(exactIndex, key)), IsOpen(old(remaining)), old(remaining), taken)
    {
      var refs, hit := PopUntilOpen(At(exactIndex, key), remaining);
      if hit.Some? {
        taken := Some(remaining[hit.value]);
        remaining := remaining - {hit.value};
      } else {
        taken := None;
      }
      if key in exactIndex {
        exactIndex := exactIndex[key := refs];
      }
    }

    /**
      Takes the first open candidate of the amount that is within three days; refused references are dropped for good.
    */
    method FindNearMatch(b: Bank) returns (found: Option<Gl>)
      modifies `remaining, `nearIndex
      ensures (State(), found) == TakeNear(old(State()), b)
      ensures FirstOf(old(At(nearIndex, b.amount)), IsNear(old(remaining), b), old(remaining), found)
      ensures Named(old(remaining)) ==> KeepsBehind(old(At(nearIndex, b.amount)), At(nearIndex, b.amount), found)
      ensures found.None? ==> At(nearIndex, b.amount) == []
    {
      var refs, hit := PopUntilNear(b, At(nearIndex, b.amount), remaining);
      if hit.Some? {
        found := Some(remaining[hit.value]);
        remaining := remaining - {hit.value};
      } else {
        found := None;
      }
      if b.amount in nearIndex {
        nearIndex := nearIndex[b.amount := refs];
      }
    }

    /** The first open candidate, in load order, that passes the fuzzy test. */
    method FindFuzzyMatch(similar: Similarity, b: Bank) returns (found: Option<Gl>)
      ensures FirstOf(loadOrder, IsFuzzy(similar, remaining, b), remaining, found)
      ensures var n := Misses(loadOrder, IsFuzzy(similar, remaining, b));
        found == Take(remaining, loadOrder, n).1
    {
      ghost var hit := IsFuzzy(similar, remaining, b);
      for i := 0 to |loadOrder|
        invariant forall j :: 0 <= j < i ==> !hit(loadOrder[j])
      {
        var r := loadOrder[i];
        if r !in remaining {
          continue;
        }
        var g := remaining[r];
        if g.amount == 0.0 {
          continue;
        }
        if Abs(b.amount - g.amount) / Abs(g.amount) >= 0.0001 {
          continue;
        }
        if DayGap(b, g) > 7 {
          continue;
        }
        if similar(b.description, g.narration) > 0.8 {
          MissesFrom(loadOrder, hit, i);
          return Some(g);
        }
      }
      MissesFrom(loadOrder, hit, |loadOrder|);
      return None;
    }

    /** remaining_gl.pop(reference, None) */
    method Close(reference: string)
      modifies `remaining
      ensures remaining == old(remaining) - {reference}
    {
      remaining := remaining - {reference};
    }

    /** Drops a candidate from the list of its amount. */
    method RemoveFromNearIndex(g: Gl)
      modifies `nearIndex
      ensures State() == DropNear(old(State()), Some(g))
      ensures At(nearIndex, g.amount) == Without(old(At(nearIndex, g.amount)), g.reference)
      ensures forall a :: a != g.amount ==> At(nearIndex, a) == old(At(nearIndex, a))
    {
      if At(nearIndex, g.amount) == [] {
        return;
      }
      nearIndex := nearIndex[g.amount := Without(nearIndex[g.amount], g.reference)];
    }

    /** One transaction of the first pass. */
    method MatchExactly(b: Bank) returns (taken: Option<Gl>)
      modifies this
      ensures (State(), taken) == MatchExact(old(State()), b)
    {
      taken := TakeFromExactIndex((b.amount, b.valueDate));
      if taken.Some? {
        RemoveFromNearIndex(taken.value);
      }
    }

    /** One transaction of the second pass. */
    method MatchNearby(b: Bank) returns (found: Option<Gl>)
      modifies this
      ensures (State(), found) == MatchNear(old(State()), b)
    {
      found := FindNearMatch(b);
      if found.Some? {
        RemoveFromNearIndex(found.value);
      }
    }

    /** One transaction of the third pass. */
    method MatchFuzzily(similar: Similarity, b: Bank) returns (found: Option<Gl>)
      modifies this
      requires Named(remaining)
      ensures (State(), found) == MatchFuzzy(similar, loadOrder)(old(State()), b)
    {
      found := FindFuzzyMatch(similar, b);
      if found.Some? {
        Close(found.value.reference);
        RemoveFromNearIndex(found.value);
      }
    }
  }

  // ----- The three passes -----

  lemma MapSnoc<T, U>(f: T -> U, s: seq<T>, x: T)
    ensures MapSeq(f, s + [x]) == MapSeq(f, s) + [f(x)]
  {
    assert (s + [x])[..|s|] == s;
  }

  method ExactPass(pool: MatchPool, bank: seq<Bank>)
    returns (items: seq<Item>, matched: nat, unmatched: seq<Bank>, ghost pairs: seq<Pair>)
    modifies pool
    ensures Passed(pool.State(), pairs, unmatched) == Pass(MatchExact, old(pool.State()), bank)
    ensures items == MapSeq(ExactItem, pairs) && matched == |pairs|
  {
    items, matched, unmatched, pairs := [], 0, [], [];
    for i := 0 to |bank|
      invariant Passed(pool.State(), pairs, unmatched) == Pass(MatchExact, old(pool.State()), bank[..i])
      invariant items == MapSeq(ExactItem, pairs) && matched == |pairs|
    {
      assert bank[..i + 1][..i] == bank[..i];
      var b := bank[i];
      var g := pool.MatchExactly(b);
      if g.None? {
        unmatched := unmatched + [b];
      } else {
        MapSnoc(ExactItem, pairs, (b, g.value));
        items, matched := items + [PairItem(Matched, (b, g.value))], matched + 1;
        pairs := pairs + [(b, g.value)];
      }
    }
    assert bank[..|bank|] == bank;
  }

  method NearPass(pool: MatchPool, bank: seq<Bank>)
    returns (items: seq<Item>, matched: nat, unmatched: seq<Bank>, ghost pairs: seq<Pair>)
    modifies pool
    ensures Passed(pool.State(), pairs, unmatched) == Pass(MatchNear, old(pool.State()), bank)
    ensures items == MapSeq(NearItem, pairs) && matched == |pairs|
  {
    items, matched, unmatched, pairs := [], 0, [], [];
    for i := 0 to |bank|
      invariant Passed(pool.State(), pairs, unmatched) == Pass(MatchNear, old(pool.State()), bank[..i])
      invariant items == MapSeq(NearItem, pairs) && matched == |pairs|
    {
      assert bank[..i + 1][..i] == bank[..i];
      var b := bank[i];
      var g := pool.MatchNearby(b);
      if g.None? {
        unmatched := unmatched + [b];
      } else {
        MapSnoc(NearItem, pairs, (b, g.value));
        items, matched := items + [PairItem(NearMatch, (b, g.value))], matched + 1;
        pairs := pairs + [(b, g.value)];
      }
    }
    assert bank[..|bank|] == bank;
  }

  /** Every open reference is its candidate's own. */
  ghost predicate Named(open: map<string, Gl>) { forall r :: r in open ==> open[r].reference == r }

  method FuzzyPass(pool: MatchPool, similar: Similarity, bank: seq<Bank>)
    returns (items: seq<Item>, matched: nat, unmatched: seq<Bank>, ghost pairs: seq<Pair>)
    requires Named(pool.remaining)
    modifies pool
    ensures Passed(pool.State(), pairs, unmatched) == Pass(MatchFuzzy(similar, pool.loadOrder), old(pool.State()), bank)
    ensures items == MapSeq(FuzzyItem, pairs) && matched == |pairs|
  {
    items, matched, unmatched, pairs := [], 0, [], [];
    for i := 0 to |bank|
      invariant Passed(pool.State(), pairs, unmatched) ==
        Pass(MatchFuzzy(similar, pool.loadOrder), old(pool.State()), bank[..i])
      invariant items == MapSeq(FuzzyItem, pairs) && matched == |pairs|
      invariant Named(pool.remaining)
    {
      assert bank[..i + 1][..i] == bank[..i];
      var b := bank[i];
      var g := pool.MatchFuzzily(similar, b);
      if g.None? {
        unmatched := unmatched + [b];
      } else {
        MapSnoc(FuzzyItem, pairs, (b, g.value));
        items, matched := items + [PairItem(FuzzyMatch, (b, g.value))], matched + 1;
        pairs := pairs + [(b, g.value)];
      }
    }
    assert bank[..|bank|] == bank;
  }

  // ----- What is left at the end -----

  method ListBankOnly(bankLeft: seq<Bank>) returns (items: seq<Item>, count: nat, difference: real)
    ensures items == MapSeq(BankItem, bankLeft) && count == |bankLeft| && difference == Sum(BankAmount, bankLeft)
  {
    items, count, difference := [], 0, 0.0;
    for i := 0 to |bankLeft|
      invariant items == MapSeq(BankItem, bankLeft[..i]) && count == i && difference == Sum(BankAmount, bankLeft[..i])
    {
      assert bankLeft[..i + 1][..i] == bankLeft[..i];
      items, count := items + [BankItem(bankLeft[i])], count + 1;
      difference := difference + bankLeft[i].amount;
    }
    assert bankLeft[..|bankLeft|] == bankLeft;
  }

  lemma LeftSnoc(kept: seq<Gl>, open: set<string>, i: nat)
    requires i < |kept|
    ensures kept[i].reference in open ==> Left(kept[..i + 1], open) == Left(kept[..i], open) + [kept[i]]
    ensures kept[i].reference !in open ==> Left(kept[..i + 1], open) == Left(kept[..i], open)
  {
    assert kept[..i + 1][..i] == kept[..i];
  }

  /** The open candidates in load order. */
  method ListGlOnly(pool: MatchPool, ghost kept: seq<Gl>) returns (items: seq<Item>, count: nat, total: real)
    requires OpenOk(kept, pool.remaining) && pool.loadOrder == MapSeq(Reference, kept)
    ensures var left := Left(kept, pool.remaining.Keys);
      items == MapSeq(GlItem, left) && count == |left| && total == Sum(GlAmount, left)
  {
    items, count, total := [], 0, 0.0;
    for i := 0 to |pool.loadOrder|
      invariant items == MapSeq(GlItem, Left(kept[..i], pool.remaining.Keys))
      invariant count == |Left(kept[..i], pool.remaining.Keys)|
      invariant total == Sum(GlAmount, Left(kept[..i], pool.remaining.Keys))
    {
      var r := pool.loadOrder[i];
      LeftSnoc(kept, pool.remaining.Keys, i);
      if r in pool.remaining {
        var g := pool.remaining[r];
        OneOfReference(kept, g, kept[i]);
        SumSnoc(GlAmount, Left(kept[..i], pool.remaining.Keys), g);
        MapSnoc(GlItem, Left(kept[..i], pool.remaining.Keys), g);
        items, count, total := items + [GlItem(g)], count + 1, total + g.amount;
      }
    }
    assert kept[..|kept|] == kept;
  }

  /**
    The run delivers what the three passes leave and pair, for every list of candidates. Each item says
    what was found out about the transaction and the line it names, and the summary tallies the items.
  */
  method RunBankReconciliation(similar: Similarity, bank: seq<Bank>, gl: seq<Gl>)
    returns (items: seq<Item>, summary: Summary, ghost o: Outcome)
    ensures bank == [] ==> items == [] && summary == Summary(0, 0, 0, 0, 0, 0.0)
    ensures bank != [] ==> o == Reconcile(similar, bank, gl) && items == Items(o) && summary == SummaryOf(o)
    ensures bank != [] ==>
      Delivered(similar, bank, gl, o) && ExactDone(gl, o) && NearDone(gl, o) && FuzzyExhausted(similar, o)
    ensures bank != [] && DistinctReferences(gl) ==>
      Reconciled(similar, bank, gl, o) && ExactExhausted(o) && NearExhausted(o)
    ensures forall item :: item in items ==> Justified(similar, bank, gl, item)
    ensures Tallies(items, summary)
  {
    hide Justified, Tallies, Items, SummaryOf;
    hide Delivered, ExactDone, NearDone, FuzzyExhausted, Reconciled, ExactExhausted, NearExhausted, DistinctReferences;
    hide Survivors, Left, Pass, Sum, OpenOk, Index, ByReference;
    if bank == [] {
      NothingToTally();
      return [], Summary(0, 0, 0, 0, 0, 0.0), Outcome([], [], [], [], [], []);
    }
    var pool := new MatchPool(gl);
    var exactItems, matched, left1, exact := ExactPass(pool, bank);
    var nearItems, nearMatch, left2, near := NearPass(pool, left1);
    StillOpen(similar, bank, gl);
    var fuzzyItems, fuzzyCount, left3, fuzzy := FuzzyPass(pool, similar, left2);
    var bankItems, bankOnly, bankTotal := ListBankOnly(left3);
    var glItems, glOnly, glTotal := ListGlOnly(pool, Survivors(gl));
    o := Reconcile(similar, bank, gl);
    items := exactItems + nearItems + fuzzyItems + bankItems + glItems;
    summary := Summary(matched, nearMatch, fuzzyCount, bankOnly, glOnly, bankTotal - glTotal);
    Reported(similar, bank, gl);
    ReconcileDelivers(similar, bank, gl);
    ItemsJustified(similar, bank, gl, o);
    SummaryTallies(o);
    if DistinctReferences(gl) {
      ReconcileDistinct(similar, bank, gl);
    }
  }

  /** The items and the counters in the order the method lists them. */
  lemma Reported(similar: Similarity, bank: seq<Bank>, gl: seq<Gl>)
    ensures var o := Reconcile(similar, bank, gl);
      && Items(o) == MapSeq(ExactItem, o.exact) + MapSeq(NearItem, o.near) + MapSeq(FuzzyItem, o.fuzzy) +
                     MapSeq(BankItem, o.bankLeft) + MapSeq(GlItem, o.glLeft)
      && SummaryOf(o) == Summary(|o.exact|, |o.near|, |o.fuzzy|, |o.bankLeft|, |o.glLeft|,
                                 Sum(BankAmount, o.bankLeft) - Sum(GlAmount, o.glLeft))
  {
    hide Reconcile;
  }

  lemma StillOpen(similar: Similarity, bank: seq<Bank>, gl: seq<Gl>)
    ensures OpenOk(Survivors(gl), NearPassed(bank, gl).pool.remaining) && Named(NearPassed(bank, gl).pool.remaining)
    ensures OpenOk(Survivors(gl), FuzzyPassed(similar, bank, gl).pool.remaining)
  {
    hide NearPassed, FuzzyPassed, ExactPassed, Splits, NearBy, ExactBy, Fuzzy, NearLeft, FuzzyLeft, ExactLeft;
    RunFacts(similar, bank, gl);
  }
}
