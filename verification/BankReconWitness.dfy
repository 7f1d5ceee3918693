/** What repeated references and a refused candidate cost, for the smallest runs of that shape and at one input each. */
module BankReconWitness {
  import opened Wrappers
  import opened Multisets
  import opened BankReconSpec
  import opened BankReconSteps

  // ----- Indexes and passes of a few elements -----

  lemma IndexOfOne<K>(key: Gl -> K, g: Gl)
    ensures Index(key, [g]) == map[key(g) := [g.reference]]
  {
    assert [g][..|[g]| - 1] == [];
    var none: map<K, seq<string>> := Index(key, []);
    assert none == map[];
    assert [] + [g.reference] == [g.reference];
    assert Index(key, [g]) == none[key(g) := At(none, key(g)) + [g.reference]];
  }

  lemma PassOfNone(step: Step, p: Pool)
    ensures Pass(step, p, []) == Passed(p, [], [])
  {
  }

  lemma PassOfOne(step: Step, p: Pool, b: Bank)
    ensures Pass(step, p, [b]) == Extend(Passed(p, [], []), step, b)
  {
    assert [b][..0] == [];
  }

  lemma PassOfTwo(step: Step, p: Pool, q: Pool, b: Bank, c: Bank)
    requires step(p, b) == (q, None) && step(q, c) == (q, None)
    ensures Pass(step, p, [b, c]) == Passed(q, [], [b, c])
  {
    PassOfOne(step, p, b);
    assert [b, c][..1] == [b];
  }

  lemma NothingLeft(gl: seq<Gl>)
    ensures Left(gl, {}) == []
  {
  }

  // ----- Two lines with one reference -----

  lemma OneKept(g: Gl)
    ensures Survivors([g]) == [g] && ByReference([g]) == map[g.reference := g]
  {
    assert [g][..0] == [];
    var none: map<string, Gl> := ByReference([]);
    assert none == map[] && ByReference([g]) == none[g.reference := g];
  }

  lemma SecondSurvives(first: Gl, second: Gl)
    requires first.reference == second.reference
    ensures Survivors([first, second]) == [second] && ByReference([first, second]) == map[second.reference := second]
  {
    assert [first, second][..1] == [first];
    OneKept(first);
    assert Place([first], second.reference) == 0;
  }

  lemma FirstListed(first: Gl, second: Gl)
    requires first.reference == second.reference
    ensures At(Index(GlKey, [first, second]), GlKey(first)) != []
    ensures At(Index(GlKey, [first, second]), GlKey(first))[0] == second.reference
  {
    assert [first, second][..1] == [first];
    IndexOfOne(GlKey, first);
  }

  lemma SecondTaken(first: Gl, second: Gl, b: Bank)
    requires first.reference == second.reference && Exact(b, first)
    ensures var e := ExactPassed([b], [first, second]);
      e.pairs == [(b, second)] && e.left == [] && e.pool.remaining == map[]
  {
    var p := InitialPool([first, second]);
    SecondSurvives(first, second);
    FirstListed(first, second);
    hide Index, ByReference;
    PassOfOne(MatchExact, p, b);
    var refs := At(p.exact, BankKey(b));
    assert Misses(refs, IsOpen(p.remaining)) == 0;
    assert TakeExact(p, BankKey(b)).1 == Some(second);
    assert map[second.reference := second] - {second.reference} == map[];
  }

  /** With two lines of one reference, the transaction that matches the first exactly is paired with the second. */
  lemma LaterVersionTaken(similar: Similarity, first: Gl, second: Gl, b: Bank)
    requires first.reference == second.reference && Exact(b, first)
    ensures Reconcile(similar, [b], [first, second]) == Outcome([(b, second)], [], [], [], [], [])
  {
    var gl := [first, second];
    SecondTaken(first, second, b);
    hide ExactPassed;
    PassOfNone(MatchNear, ExactPassed([b], gl).pool);
    PassOfNone(MatchFuzzy(similar, Order(gl)), NearPassed([b], gl).pool);
    NothingLeft(Survivors(gl));
    var none: map<string, Gl> := map[];
    assert none.Keys == {};
  }

  lemma OneSum(b: Bank)
    ensures Sum(BankAmount, [b]) == b.amount
  {
    assert [b] == [] + [b];
    SumSnoc(BankAmount, [], b);
  }

  lemma TwoSum(g: Gl, h: Gl)
    ensures Sum(GlAmount, [g, h]) == g.amount + h.amount
  {
    assert [g] == [] + [g] && [g, h] == [g] + [h];
    SumSnoc(GlAmount, [], g);
    SumSnoc(GlAmount, [g], h);
  }

  lemma OneItem(b: Bank, g: Gl)
    ensures Items(Outcome([(b, g)], [], [], [], [], [])) == [PairItem(Matched, (b, g))]
    ensures SummaryOf(Outcome([(b, g)], [], [], [], [], [])).netDifference == 0.0
  {
    assert [(b, g)][..0] == [];
    assert MapSeq(ExactItem, [(b, g)]) == [ExactItem((b, g))];
  }

  /**
    A deposit of 100 is paired as an exact match with the second version's line of 250, the line it does
    match is in no item, and the net difference is zero although the books differ by 250.
  */
  lemma RepeatedReferenceMispairs(similar: Similarity)
    ensures var first, second := Gl("J:1", 100.0, 5, "FEE"), Gl("J:1", 250.0, 5, "FEE");
      var deposit := Bank("T", 100.0, 5, "WIRE IN");
      var o := Reconcile(similar, [deposit], [first, second]);
      && o.exact == [(deposit, second)] && !Exact(deposit, second) && Exact(deposit, first)
      && Items(o) == [Item(Matched, 100.0, Some("T"), Some("J:1"))]
      && SummaryOf(o).netDifference == 0.0
      && Sum(BankAmount, [deposit]) - Sum(GlAmount, [first, second]) == -250.0
  {
    hide Reconcile, Items, SummaryOf, Sum;
    var first, second := Gl("J:1", 100.0, 5, "FEE"), Gl("J:1", 250.0, 5, "FEE");
    var deposit := Bank("T", 100.0, 5, "WIRE IN");
    LaterVersionTaken(similar, first, second, deposit);
    OneItem(deposit, second);
    OneSum(deposit);
    TwoSum(first, second);
  }

  // ----- A candidate refused too early -----

  /** The pool of one candidate as it starts, and with the candidate dropped from its amount's list. */
  function OneOpen(g: Gl): Pool {
    Pool(map[g.reference := g], map[GlKey(g) := [g.reference]], map[g.amount := [g.reference]])
  }

  function Drained(g: Gl): Pool { OneOpen(g).(near := map[g.amount := []]) }

  lemma StartIs(g: Gl)
    ensures Survivors([g]) == [g] && Order([g]) == [g.reference] && InitialPool([g]) == OneOpen(g)
  {
    OneKept(g);
    IndexOfOne(GlKey, g);
    IndexOfOne(GlAmount, g);
    assert [g][..0] == [];
  }

  lemma NotExactly(g: Gl, b: Bank)
    requires !Exact(b, g)
    ensures MatchExact(OneOpen(g), b) == (OneOpen(g), None)
  {
    var p := OneOpen(g);
    assert BankKey(b) !in p.exact && At(p.exact, BankKey(b)) == [];
  }

  lemma TooFarDrains(g: Gl, b: Bank)
    requires Refuses(b, g.amount, g)
    ensures MatchNear(OneOpen(g), b) == (Drained(g), None)
  {
    var p := OneOpen(g);
    var refs := [g.reference];
    assert At(p.near, b.amount) == refs;
    assert !IsNear(p.remaining, b)(refs[0]);
    assert Misses(refs, IsNear(p.remaining, b)) == 1;
    assert p.near[g.amount := []] == map[g.amount := []];
  }

  lemma DrainedFindsNone(g: Gl, b: Bank)
    requires b.amount == g.amount
    ensures MatchNear(Drained(g), b) == (Drained(g), None)
  {
    var p := Drained(g);
    assert At(p.near, b.amount) == [];
    assert SetList(p.near, b.amount, []) == p.near;
  }

  lemma NotFuzzily(similar: Similarity, g: Gl, b: Bank)
    requires !Fuzzy(similar, b, g)
    ensures MatchFuzzy(similar, [g.reference])(Drained(g), b) == (Drained(g), None)
  {
    hide Fuzzy;
    var open, refs := Drained(g).remaining, [g.reference];
    assert !IsFuzzy(similar, open, b)(refs[0]);
    assert Misses(refs, IsFuzzy(similar, open, b)) == 1;
  }

  lemma CandidateLeft(g: Gl)
    ensures Left(Survivors([g]), Drained(g).remaining.Keys) == [g]
  {
    StartIs(g);
    LeftAll([g], {g.reference});
  }

  /**
    A transaction too far from the only candidate of its amount drops it from the list, so a later one
    that is near is left over as well, unless the descriptions bring one of them together with it.
  */
  lemma EarlyRefusalCostsMatch(similar: Similarity, early: Bank, late: Bank, g: Gl)
    requires Refuses(early, g.amount, g) && Near(late, g) && !Exact(late, g)
    requires !Fuzzy(similar, early, g) && !Fuzzy(similar, late, g)
    ensures Reconcile(similar, [early, late], [g]) == Outcome([], [], [], [early, late], [early, late], [g])
  {
    hide MatchExact, MatchNear, MatchFuzzy, OneOpen, Drained, Pass, Extend, Survivors, Left, Fuzzy, Order, InitialPool;
    StartIs(g);
    NotExactly(g, early);
    NotExactly(g, late);
    PassOfTwo(MatchExact, OneOpen(g), OneOpen(g), early, late);
    TooFarDrains(g, early);
    DrainedFindsNone(g, late);
    PassOfTwo(MatchNear, OneOpen(g), Drained(g), early, late);
    NotFuzzily(similar, g, early);
    NotFuzzily(similar, g, late);
    PassOfTwo(MatchFuzzy(similar, [g.reference]), Drained(g), Drained(g), early, late);
    CandidateLeft(g);
    assert ExactPassed([early, late], [g]) == Passed(OneOpen(g), [], [early, late]);
    assert NearPassed([early, late], [g]) == Passed(Drained(g), [], [early, late]);
  }

  /**
    Two wires and a line a day from the second one, whose texts have nothing to do with each other: all three are left
    over.
  */
  lemma NearMatchMissed(similar: Similarity)
    requires similar("WIRE IN", "FEE") <= 0.8
    ensures var early, late := Bank("T1", 100.0, 0, "WIRE IN"), Bank("T2", 100.0, 9, "WIRE IN");
      var line := Gl("J:1", 100.0, 10, "FEE");
      var o := Reconcile(similar, [early, late], [line]);
      && o.exact == o.near == o.fuzzy == [] && o.bankLeft == [early, late] && o.glLeft == [line]
      && Near(late, line) && Refuses(early, 100.0, line)
  {
    hide Reconcile;
    var early, late := Bank("T1", 100.0, 0, "WIRE IN"), Bank("T2", 100.0, 9, "WIRE IN");
    EarlyRefusalCostsMatch(similar, early, late, Gl("J:1", 100.0, 10, "FEE"));
  }
}
