/**
  The three matching tests of the bank reconciliation, what a run of the matcher has to
  deliver, and what follows from it (services/bank_recon_service.py).
*/
module BankReconSpec {
  import opened Wrappers
  import opened Multisets

  datatype Bank = Bank(txnId: string, amount: real, valueDate: int, description: string)

  datatype Gl = Gl(reference: string, amount: real, postingDate: int, narration: string)

  datatype ItemType = Matched | NearMatch | FuzzyMatch | BankOnly | GlOnly

  datatype Item = Item(kind: ItemType, amount: real, txnId: Option<string>, reference: Option<string>)

  datatype Summary = Summary(matched: nat, nearMatch: nat, fuzzy: nat, bankOnly: nat, glOnly: nat, netDifference: real)

  type Pair = (Bank, Gl)

  /** SequenceMatcher(None, a, b).ratio() */
  type Similarity = (string, string) -> real

  // ----- The tests -----

  function Abs(x: real): real { if x < 0.0 then -x else x }

  function DayGap(b: Bank, g: Gl): int {
    if b.valueDate < g.postingDate then g.postingDate - b.valueDate else b.valueDate - g.postingDate
  }

  predicate Exact(b: Bank, g: Gl) { b.amount == g.amount && b.valueDate == g.postingDate }

  predicate Near(b: Bank, g: Gl) { b.amount == g.amount && DayGap(b, g) <= 3 }

  predicate Fuzzy(similar: Similarity, b: Bank, g: Gl) {
    && g.amount != 0.0
    && Abs(b.amount - g.amount) / Abs(g.amount) < 0.0001
    && DayGap(b, g) <= 7
    && similar(b.description, g.narration) > 0.8
  }

  /** min and max of the transactions' value dates */
  function FirstDate(bank: seq<Bank>): (d: int)
    requires bank != []
    ensures forall b :: b in bank ==> d <= b.valueDate
    ensures exists b :: b in bank && b.valueDate == d
  {
    var front, last := bank[..|bank| - 1], bank[|bank| - 1];
    assert bank == front + [last];
    if front == [] || last.valueDate <= FirstDate(front) then last.valueDate else FirstDate(front)
  }

  function LastDate(bank: seq<Bank>): (d: int)
    requires bank != []
    ensures forall b :: b in bank ==> b.valueDate <= d
    ensures exists b :: b in bank && b.valueDate == d
  {
    var front, last := bank[..|bank| - 1], bank[|bank| - 1];
    assert bank == front + [last];
    if front == [] || last.valueDate >= LastDate(front) then last.valueDate else LastDate(front)
  }

  /** The loader's window: a ledger line outside it fails all three tests with every transaction. */
  lemma WindowLosesNothing(similar: Similarity, bank: seq<Bank>, b: Bank, g: Gl)
    requires b in bank && (Exact(b, g) || Near(b, g) || Fuzzy(similar, b, g))
    ensures FirstDate(bank) - 7 <= g.postingDate <= LastDate(bank) + 7
  {
    assert FirstDate(bank) <= b.valueDate <= LastDate(bank);
    assert DayGap(b, g) <= 7;
  }

  // ----- What a run delivers -----

  /**
    The pairs of the three passes, the transactions the near pass looks at in order, and what is left on either side.
  */
  datatype Outcome = Outcome(exact: seq<Pair>, near: seq<Pair>, fuzzy: seq<Pair>, queue: seq<Bank>,
                             bankLeft: seq<Bank>, glLeft: seq<Gl>)

  function BankOf(p: Pair): Bank { p.0 }
  function GlOf(p: Pair): Gl { p.1 }

  function Banks(ps: seq<Pair>): seq<Bank> { MapSeq(BankOf, ps) }
  function Gls(ps: seq<Pair>): seq<Gl> { MapSeq(GlOf, ps) }

  /** Every transaction and every candidate is in exactly one pair or left over, each pair passes its own test. */
  ghost predicate Reconciled(similar: Similarity, bank: seq<Bank>, gl: seq<Gl>, o: Outcome) {
    && multiset(bank) == multiset(Banks(o.exact) + Banks(o.near) + Banks(o.fuzzy) + o.bankLeft)
    && multiset(gl) == multiset(Gls(o.exact) + Gls(o.near) + Gls(o.fuzzy) + o.glLeft)
    && (forall p :: p in o.exact ==> Exact(p.0, p.1))
    && (forall p :: p in o.near ==> Near(p.0, p.1))
    && (forall p :: p in o.fuzzy ==> Fuzzy(similar, p.0, p.1))
  }

  /** No transaction and candidate that the exact pass left over match exactly. */
  predicate ExactExhausted(o: Outcome) {
    forall b, g ::
      b in Banks(o.near) + Banks(o.fuzzy) + o.bankLeft && g in Gls(o.near) + Gls(o.fuzzy) + o.glLeft ==> !Exact(b, g)
  }

  /**
    If the near pass leaves a transaction and a candidate of one amount behind, the candidate was
    refused: it is more than three days from a transaction of that amount the pass looked at no later.
  */
  ghost predicate NearExhausted(o: Outcome) {
    && multiset(o.queue) == multiset(Banks(o.near) + Banks(o.fuzzy) + o.bankLeft)
    && forall b, g :: b in Banks(o.fuzzy) + o.bankLeft && g in Gls(o.fuzzy) + o.glLeft && b.amount == g.amount ==>
         RefusedBy(o.queue, b, b.amount, g)
  }

  /** Some transaction of the amount, no later in the queue than b, is too far from the candidate. */
  ghost predicate RefusedBy(queue: seq<Bank>, b: Bank, amount: real, g: Gl) {
    exists i, j :: 0 <= i <= j < |queue| && queue[j] == b && Refuses(queue[i], amount, g)
  }

  predicate Refuses(b: Bank, amount: real, g: Gl) { b.amount == amount && DayGap(b, g) > 3 }

  /** No transaction and candidate left at the end pass the fuzzy test. */
  ghost predicate FuzzyExhausted(similar: Similarity, o: Outcome) {
    forall b, g :: b in o.bankLeft && g in o.glLeft ==> !Fuzzy(similar, b, g)
  }

  // ----- Candidates that share a reference -----

  predicate DistinctReferences(gl: seq<Gl>) {
    forall i, j :: 0 <= i < j < |gl| ==> gl[i].reference != gl[j].reference
  }

  /** Where the reference stands in a sequence without repetitions. */
  function Place(gl: seq<Gl>, r: string): (i: nat)
    ensures i <= |gl| && (i < |gl| ==> gl[i].reference == r)
    ensures forall k :: 0 <= k < i ==> gl[k].reference != r
  {
    if gl == [] || gl[0].reference == r then 0 else 1 + Place(gl[1..], r)
  }

  /** The values of {candidate.reference: candidate}: a reference keeps its first place and gets its last candidate. */
  function Survivors(gl: seq<Gl>): (kept: seq<Gl>)
    ensures |kept| <= |gl|
  {
    if gl == [] then []
    else
      var kept, last := Survivors(gl[..|gl| - 1]), gl[|gl| - 1];
      var i := Place(kept, last.reference);
      if i < |kept| then kept[i := last] else kept + [last]
  }

  /** Some loaded candidate with this reference has this key: the indexes list the reference under it. */
  ghost predicate Listed<K>(gl: seq<Gl>, key: Gl -> K, r: string, k: K) {
    exists h :: h in gl && h.reference == r && key(h) == k
  }

  ghost predicate ExactBy(gl: seq<Gl>, b: Bank, g: Gl) { Listed(gl, GlKey, g.reference, BankKey(b)) }

  ghost predicate NearBy(gl: seq<Gl>, b: Bank, g: Gl) {
    Listed(gl, GlAmount, g.reference, b.amount) && DayGap(b, g) <= 3
  }

  /**
    What a run delivers for every list of candidates: the surviving candidate of each reference is in
    exactly one pair or left over. An exact or near pair was found through the index, so the test was
    passed by some candidate with the pair's reference.
  */
  ghost predicate Delivered(similar: Similarity, bank: seq<Bank>, gl: seq<Gl>, o: Outcome) {
    && multiset(bank) == multiset(Banks(o.exact) + Banks(o.near) + Banks(o.fuzzy) + o.bankLeft)
    && multiset(Survivors(gl)) == multiset(Gls(o.exact) + Gls(o.near) + Gls(o.fuzzy) + o.glLeft)
    && (forall p :: p in o.exact ==> ExactBy(gl, p.0, p.1))
    && (forall p :: p in o.near ==> NearBy(gl, p.0, p.1))
    && (forall p :: p in o.fuzzy ==> Fuzzy(similar, p.0, p.1))
  }

  ghost predicate ExactDone(gl: seq<Gl>, o: Outcome) {
    forall b, g ::
      b in Banks(o.near) + Banks(o.fuzzy) + o.bankLeft && g in Gls(o.near) + Gls(o.fuzzy) + o.glLeft ==>
        !ExactBy(gl, b, g)
  }

  ghost predicate RefusedIfListed(gl: seq<Gl>, queue: seq<Bank>, b: Bank, g: Gl) {
    Listed(gl, GlAmount, g.reference, b.amount) ==> RefusedBy(queue, b, b.amount, g)
  }

  ghost predicate NearDone(gl: seq<Gl>, o: Outcome) {
    && multiset(o.queue) == multiset(Banks(o.near) + Banks(o.fuzzy) + o.bankLeft)
    && forall b, g :: b in Banks(o.fuzzy) + o.bankLeft && g in Gls(o.fuzzy) + o.glLeft ==>
         RefusedIfListed(gl, o.queue, b, g)
  }

  // ----- The items and the summary -----

  function PairItem(kind: ItemType, p: Pair): Item {
    Item(kind, p.0.amount, Some(p.0.txnId), Some(p.1.reference))
  }

  function ExactItem(p: Pair): Item { PairItem(Matched, p) }
  function NearItem(p: Pair): Item { PairItem(NearMatch, p) }
  function FuzzyItem(p: Pair): Item { PairItem(FuzzyMatch, p) }
  function BankItem(b: Bank): Item { Item(BankOnly, b.amount, Some(b.txnId), None) }
  function GlItem(g: Gl): Item { Item(GlOnly, g.amount, None, Some(g.reference)) }

  function Items(o: Outcome): seq<Item> {
    MapSeq(ExactItem, o.exact) + MapSeq(NearItem, o.near) + MapSeq(FuzzyItem, o.fuzzy)
    + MapSeq(BankItem, o.bankLeft) + MapSeq(GlItem, o.glLeft)
  }

  function BankAmount(b: Bank): real { b.amount }
  function GlAmount(g: Gl): real { g.amount }

  function SummaryOf(o: Outcome): Summary {
    Summary(|o.exact|, |o.near|, |o.fuzzy|, |o.bankLeft|, |o.glLeft|,
            Sum(BankAmount, o.bankLeft) - Sum(GlAmount, o.glLeft))
  }

  // ----- The exact pass is a maximum matching -----

  type Key = (real, int)

  function BankKey(b: Bank): Key { (b.amount, b.valueDate) }
  function GlKey(g: Gl): Key { (g.amount, g.postingDate) }
  function PairKey(p: Pair): Key { BankKey(p.0) }

  lemma {:induction false} ExactKeys(ps: seq<Pair>)
    requires forall p :: p in ps ==> Exact(p.0, p.1)
    ensures MapSeq(BankKey, Banks(ps)) == MapSeq(PairKey, ps) == MapSeq(GlKey, Gls(ps))
  {
    forall i | 0 <= i < |ps| ensures BankKey(ps[i].0) == GlKey(ps[i].1) {
      assert ps[i] in ps;
    }
  }

  lemma MapMember<T, U>(f: T -> U, s: seq<T>, k: U) returns (x: T)
    requires k in multiset(MapSeq(f, s))
    ensures x in s && f(x) == k
  {
    assert k in MapSeq(f, s);
    var i :| 0 <= i < |s| && MapSeq(f, s)[i] == k;
    x := s[i];
  }

  /**
    For every amount and date the exact pass makes as many pairs as it can: the smaller of the
    numbers of transactions and of candidates with that amount and date (multiset intersection).
  */
  lemma ExactCounts(similar: Similarity, bank: seq<Bank>, gl: seq<Gl>, o: Outcome)
    requires Reconciled(similar, bank, gl, o) && ExactExhausted(o)
    ensures multiset(MapSeq(PairKey, o.exact)) == multiset(MapSeq(BankKey, bank)) * multiset(MapSeq(GlKey, gl))
  {
    Regroup(Banks(o.exact), Banks(o.near), Banks(o.fuzzy), o.bankLeft);
    Regroup(Gls(o.exact), Gls(o.near), Gls(o.fuzzy), o.glLeft);
    var bankRest, glRest := Banks(o.near) + Banks(o.fuzzy) + o.bankLeft, Gls(o.near) + Gls(o.fuzzy) + o.glLeft;
    CountsOfSplit(bank, gl, o.exact, bankRest, glRest);
  }

  lemma Regroup<T>(a: seq<T>, b: seq<T>, c: seq<T>, d: seq<T>)
    ensures a + b + c + d == a + (b + c + d)
  {
  }

  lemma CountsOfSplit(bank: seq<Bank>, gl: seq<Gl>, exact: seq<Pair>, restB: seq<Bank>, restG: seq<Gl>)
    requires multiset(bank) == multiset(Banks(exact) + restB) && multiset(gl) == multiset(Gls(exact) + restG)
    requires forall p :: p in exact ==> Exact(p.0, p.1)
    requires forall b, g :: b in restB && g in restG ==> !Exact(b, g)
    ensures multiset(MapSeq(PairKey, exact)) == multiset(MapSeq(BankKey, bank)) * multiset(MapSeq(GlKey, gl))
  {
    ExactKeys(exact);
    KeysOfSplit(BankKey, bank, Banks(exact), restB);
    KeysOfSplit(GlKey, gl, Gls(exact), restG);
    NoCommonKey(restB, restG);
    CommonPart(multiset(MapSeq(PairKey, exact)), multiset(MapSeq(BankKey, restB)), multiset(MapSeq(GlKey, restG)));
  }

  lemma KeysOfSplit<T, U>(f: T -> U, all: seq<T>, a: seq<T>, b: seq<T>)
    requires multiset(all) == multiset(a + b)
    ensures multiset(MapSeq(f, all)) == multiset(MapSeq(f, a)) + multiset(MapSeq(f, b))
  {
    MapPermutation(f, all, a + b);
    MapConcat(f, a, b);
  }

  lemma NoCommonKey(bs: seq<Bank>, gs: seq<Gl>)
    requires forall b, g :: b in bs && g in gs ==> !Exact(b, g)
    ensures forall k :: multiset(MapSeq(BankKey, bs))[k] == 0 || multiset(MapSeq(GlKey, gs))[k] == 0
  {
    forall k ensures multiset(MapSeq(BankKey, bs))[k] == 0 || multiset(MapSeq(GlKey, gs))[k] == 0 {
      if multiset(MapSeq(BankKey, bs))[k] > 0 && multiset(MapSeq(GlKey, gs))[k] > 0 {
        var b := MapMember(BankKey, bs, k);
        var g := MapMember(GlKey, gs, k);
        assert Exact(b, g);
      }
    }
  }

  lemma CommonPart<T>(m: multiset<T>, a: multiset<T>, b: multiset<T>)
    requires forall k :: a[k] == 0 || b[k] == 0
    ensures m == (m + a) * (m + b)
  {
  }

  /** No set of exact pairs over the same transactions and candidates is larger than the exact pass's. */
  lemma ExactIsMaximum(similar: Similarity, bank: seq<Bank>, gl: seq<Gl>, o: Outcome, other: seq<Pair>)
    requires Reconciled(similar, bank, gl, o) && ExactExhausted(o)
    requires multiset(Banks(other)) <= multiset(bank) && multiset(Gls(other)) <= multiset(gl)
    requires forall p :: p in other ==> Exact(p.0, p.1)
    ensures |other| <= |o.exact|
  {
    ExactCounts(similar, bank, gl, o);
    ExactKeys(other);
    MapSubset(BankKey, Banks(other), bank);
    MapSubset(GlKey, Gls(other), gl);
    IntersectionBound(multiset(MapSeq(PairKey, other)), multiset(MapSeq(BankKey, bank)), multiset(MapSeq(GlKey, gl)));
    PartSize(multiset(MapSeq(PairKey, other)), multiset(MapSeq(PairKey, o.exact)));
  }

  lemma IntersectionBound<T>(m: multiset<T>, a: multiset<T>, b: multiset<T>)
    requires m <= a && m <= b
    ensures m <= a * b
  {
  }

  lemma PartSize<T>(a: multiset<T>, b: multiset<T>)
    requires a <= b
    ensures |a| <= |b|
  {
    assert b == a + (b - a);
  }

  // ----- When references are distinct -----

  lemma {:induction false} DistinctSurvive(gl: seq<Gl>)
    requires DistinctReferences(gl)
    ensures Survivors(gl) == gl
  {
    if gl != [] {
      var front, last := gl[..|gl| - 1], gl[|gl| - 1];
      DistinctSurvive(front);
      assert gl == front + [last];
      forall k | 0 <= k < |front| ensures front[k].reference != last.reference {
        assert gl[k].reference != gl[|gl| - 1].reference;
      }
    }
  }

  lemma {:induction false} SurvivorsFacts(gl: seq<Gl>)
    ensures DistinctReferences(Survivors(gl))
    ensures forall g :: g in Survivors(gl) ==> g in gl
    ensures forall g :: g in gl ==> Place(Survivors(gl), g.reference) < |Survivors(gl)|
    ensures |Survivors(gl)| == |gl| ==> DistinctReferences(gl)
  {
    hide Place;
    if gl != [] {
      var front, last := gl[..|gl| - 1], gl[|gl| - 1];
      assert gl == front + [last];
      SurvivorsFacts(front);
      SurvivorsStep(front, last);
    }
  }

  lemma SurvivorsStep(front: seq<Gl>, last: Gl)
    requires var kept := Survivors(front);
      && DistinctReferences(kept)
      && (forall g :: g in kept ==> g in front)
      && (forall g :: g in front ==> Place(kept, g.reference) < |kept|)
    requires |Survivors(front)| == |front| ==> DistinctReferences(front)
    ensures var kept, gl := Survivors(front + [last]), front + [last];
      && DistinctReferences(kept)
      && (forall g :: g in kept ==> g in gl)
      && (forall g :: g in gl ==> Place(kept, g.reference) < |kept|)
      && (|kept| == |gl| ==> DistinctReferences(gl))
  {
    var kept, gl := Survivors(front), front + [last];
    assert gl[..|gl| - 1] == front;
    var i := Place(kept, last.reference);
    var all := Survivors(gl);
    assert all == if i < |kept| then kept[i := last] else kept + [last];
    PlaceMeans(kept, last.reference);
    hide Place, Survivors, DistinctReferences;
    if i < |kept| {
      ReplacedDistinct(kept, i, last);
    } else {
      AddedDistinct(kept, last);
    }
    forall g | g in gl ensures Place(all, g.reference) < |all| {
      if g.reference == last.reference {
        PlaceFound(all, i, g.reference);
      } else {
        assert g in front;
        PlaceFound(all, Place(kept, g.reference), g.reference);
      }
    }
    if |all| == |gl| {
      forall g | g in front ensures g.reference != last.reference {
        PlaceMeans(kept, g.reference);
      }
      AddedDistinct(front, last);
    }
  }

  lemma ReplacedDistinct(kept: seq<Gl>, i: nat, last: Gl)
    requires DistinctReferences(kept) && i < |kept| && kept[i].reference == last.reference
    ensures DistinctReferences(kept[i := last])
  {
  }

  lemma AddedDistinct(kept: seq<Gl>, last: Gl)
    requires DistinctReferences(kept) && forall g :: g in kept ==> g.reference != last.reference
    ensures DistinctReferences(kept + [last])
  {
    forall k | 0 <= k < |kept| ensures kept[k].reference != last.reference {
      assert kept[k] in kept;
    }
  }

  lemma PlaceMeans(gl: seq<Gl>, r: string)
    ensures Place(gl, r) < |gl| ==> gl[Place(gl, r)].reference == r
    ensures Place(gl, r) == |gl| ==> forall g :: g in gl ==> g.reference != r
  {
  }

  lemma PlaceFound(gl: seq<Gl>, i: nat, r: string)
    requires i < |gl| && gl[i].reference == r
    ensures Place(gl, r) < |gl|
  {
  }

  lemma OneOfReference(gl: seq<Gl>, a: Gl, b: Gl)
    requires DistinctReferences(gl) && a in gl && b in gl && a.reference == b.reference
    ensures a == b
  {
    var i :| 0 <= i < |gl| && gl[i] == a;
    var j :| 0 <= j < |gl| && gl[j] == b;
    assert i == j;
  }

  /** With distinct references every pair passes its own test and nothing that would is left. */
  lemma DistinctReconciled(similar: Similarity, bank: seq<Bank>, gl: seq<Gl>, o: Outcome)
    requires DistinctReferences(gl) && Delivered(similar, bank, gl, o) && ExactDone(gl, o) && NearDone(gl, o)
    ensures Reconciled(similar, bank, gl, o) && ExactExhausted(o) && NearExhausted(o)
  {
    hide Exact, Near, Fuzzy, ExactBy, NearBy, RefusedBy, RefusedIfListed, Banks, Gls, Survivors, DistinctReferences;
    DistinctSurvive(gl);
    GlsLoaded(similar, bank, gl, o);
    forall p: Pair | p.1 in gl
      ensures ExactBy(gl, p.0, p.1) <==> Exact(p.0, p.1)
      ensures NearBy(gl, p.0, p.1) <==> Near(p.0, p.1)
    {
      OwnTest(gl, p.0, p.1);
    }
    forall b, g | g in gl
      ensures ExactBy(gl, b, g) <==> Exact(b, g)
      ensures b.amount == g.amount && RefusedIfListed(gl, o.queue, b, g) ==> RefusedBy(o.queue, b, b.amount, g)
    {
      OwnTest(gl, b, g);
      if b.amount == g.amount && RefusedIfListed(gl, o.queue, b, g) {
        OwnAmount(gl, o.queue, b, g);
      }
    }
  }

  lemma OwnTest(gl: seq<Gl>, b: Bank, g: Gl)
    requires DistinctReferences(gl) && g in gl
    ensures ExactBy(gl, b, g) <==> Exact(b, g)
    ensures NearBy(gl, b, g) <==> Near(b, g)
  {
    forall h | h in gl && h.reference == g.reference ensures h == g {
      OneOfReference(gl, h, g);
    }
  }

  lemma OwnAmount(gl: seq<Gl>, queue: seq<Bank>, b: Bank, g: Gl)
    requires g in gl && b.amount == g.amount && RefusedIfListed(gl, queue, b, g)
    ensures RefusedBy(queue, b, b.amount, g)
  {
    assert Listed(gl, GlAmount, g.reference, b.amount);
  }

  lemma GlsLoaded(similar: Similarity, bank: seq<Bank>, gl: seq<Gl>, o: Outcome)
    requires Delivered(similar, bank, gl, o)
    ensures forall g :: g in Gls(o.near) + Gls(o.fuzzy) + o.glLeft ==> g in Survivors(gl)
    ensures forall p :: p in o.exact || p in o.near ==> p.1 in Survivors(gl)
  {
    hide ExactBy, NearBy, Fuzzy, Survivors, Listed;
    var all := Gls(o.exact) + Gls(o.near) + Gls(o.fuzzy) + o.glLeft;
    forall g | g in all ensures g in Survivors(gl) {
      assert g in multiset(all);
      assert g in multiset(Survivors(gl));
    }
    forall p | p in o.exact || p in o.near ensures p.1 in Survivors(gl) {
      if p in o.exact {
        var k :| 0 <= k < |o.exact| && o.exact[k] == p;
        assert Gls(o.exact)[k] == p.1;
        assert p.1 in all;
      } else {
        var k :| 0 <= k < |o.near| && o.near[k] == p;
        assert Gls(o.near)[k] == p.1;
        assert p.1 in all;
      }
    }
  }

  // ----- The net difference -----

  function Gap(p: Pair): real { p.0.amount - p.1.amount }
  function GlMagnitude(p: Pair): real { Abs(p.1.amount) }

  lemma {:induction false} GapSum(ps: seq<Pair>)
    ensures Sum(BankAmount, Banks(ps)) - Sum(GlAmount, Gls(ps)) == Sum(Gap, ps)
  {
    if ps != [] {
      GapSum(ps[..|ps| - 1]);
    }
  }

  lemma {:induction false} EqualAmountsNoGap(ps: seq<Pair>)
    requires forall p :: p in ps ==> p.0.amount == p.1.amount
    ensures Sum(Gap, ps) == 0.0
  {
    if ps != [] {
      assert ps[|ps| - 1] in ps;
      EqualAmountsNoGap(ps[..|ps| - 1]);
    }
  }

  lemma FourSums<T>(f: T -> real, a: seq<T>, b: seq<T>, c: seq<T>, d: seq<T>)
    ensures Sum(f, a + b + c + d) == Sum(f, a) + Sum(f, b) + Sum(f, c) + Sum(f, d)
  {
    SumConcat(f, a, b);
    SumConcat(f, a + b, c);
    SumConcat(f, a + b + c, d);
  }

  /** The books' difference is the reported net difference plus what the fuzzy pairs gloss over. */
  lemma NetDifferenceExact(similar: Similarity, bank: seq<Bank>, gl: seq<Gl>, o: Outcome)
    requires Reconciled(similar, bank, gl, o)
    ensures Sum(BankAmount, bank) - Sum(GlAmount, gl) == SummaryOf(o).netDifference + Sum(Gap, o.fuzzy)
  {
    SumPermutation(BankAmount, bank, Banks(o.exact) + Banks(o.near) + Banks(o.fuzzy) + o.bankLeft);
    SumPermutation(GlAmount, gl, Gls(o.exact) + Gls(o.near) + Gls(o.fuzzy) + o.glLeft);
    FourSums(BankAmount, Banks(o.exact), Banks(o.near), Banks(o.fuzzy), o.bankLeft);
    FourSums(GlAmount, Gls(o.exact), Gls(o.near), Gls(o.fuzzy), o.glLeft);
    GapSum(o.exact);
    GapSum(o.near);
    GapSum(o.fuzzy);
    EqualAmountsNoGap(o.exact);
    EqualAmountsNoGap(o.near);
  }

  lemma FuzzyGap(similar: Similarity, p: Pair)
    requires Fuzzy(similar, p.0, p.1)
    ensures Abs(Gap(p)) < 0.0001 * GlMagnitude(p)
  {
    QuotientBound(Abs(p.0.amount - p.1.amount), Abs(p.1.amount), 0.0001);
  }

  lemma QuotientBound(d: real, m: real, t: real)
    requires m > 0.0 && d / m < t
    ensures d < t * m
  {
    var q := d / m;
    assert d == q * m;
    assert (t - q) * m > 0.0;
  }

  lemma {:induction false} FuzzyGapSum(similar: Similarity, ps: seq<Pair>)
    requires forall p :: p in ps ==> Fuzzy(similar, p.0, p.1)
    ensures Abs(Sum(Gap, ps)) <= 0.0001 * Sum(GlMagnitude, ps)
    ensures ps != [] ==> Abs(Sum(Gap, ps)) < 0.0001 * Sum(GlMagnitude, ps)
  {
    if ps != [] {
      assert ps[|ps| - 1] in ps;
      FuzzyGap(similar, ps[|ps| - 1]);
      FuzzyGapSum(similar, ps[..|ps| - 1]);
    }
  }

  /**
    The reported net difference is off by less than 0.01 percent of the ledger amounts that were
    matched fuzzily, and exact when there was no fuzzy match.
  */
  lemma NetDifferenceBound(similar: Similarity, bank: seq<Bank>, gl: seq<Gl>, o: Outcome)
    requires Reconciled(similar, bank, gl, o)
    ensures var error := Sum(BankAmount, bank) - Sum(GlAmount, gl) - SummaryOf(o).netDifference;
      && (o.fuzzy == [] ==> error == 0.0)
      && (o.fuzzy != [] ==> Abs(error) < 0.0001 * Sum(GlMagnitude, o.fuzzy))
  {
    NetDifferenceExact(similar, bank, gl, o);
    FuzzyGapSum(similar, o.fuzzy);
  }

  // ----- Exactly-once accounting on the items -----

  function TxnIds(items: seq<Item>): seq<string> {
    if items == [] then []
    else
      var last := items[|items| - 1];
      TxnIds(items[..|items| - 1]) + (if last.txnId.Some? then [last.txnId.value] else [])
  }

  function References(items: seq<Item>): seq<string> {
    if items == [] then []
    else
      var last := items[|items| - 1];
      References(items[..|items| - 1]) + (if last.reference.Some? then [last.reference.value] else [])
  }

  function TxnId(b: Bank): string { b.txnId }
  function Reference(g: Gl): string { g.reference }

  lemma {:induction false} IdsConcat(a: seq<Item>, b: seq<Item>)
    ensures TxnIds(a + b) == TxnIds(a) + TxnIds(b)
    ensures References(a + b) == References(a) + References(b)
  {
    if b == [] {
      assert a + b == a;
    } else {
      IdsConcat(a, b[..|b| - 1]);
      assert (a + b)[..|a + b| - 1] == a + b[..|b| - 1];
    }
  }

  lemma {:induction false} PairItemIds(kind: ItemType, f: Pair -> Item, ps: seq<Pair>)
    requires forall p :: f(p) == PairItem(kind, p)
    ensures TxnIds(MapSeq(f, ps)) == MapSeq(TxnId, Banks(ps))
    ensures References(MapSeq(f, ps)) == MapSeq(Reference, Gls(ps))
  {
    if ps != [] {
      PairItemIds(kind, f, ps[..|ps| - 1]);
    }
  }

  lemma {:induction false} BankItemIds(bs: seq<Bank>)
    ensures TxnIds(MapSeq(BankItem, bs)) == MapSeq(TxnId, bs)
    ensures References(MapSeq(BankItem, bs)) == []
  {
    if bs != [] {
      BankItemIds(bs[..|bs| - 1]);
    }
  }

  lemma {:induction false} GlItemIds(gs: seq<Gl>)
    ensures TxnIds(MapSeq(GlItem, gs)) == []
    ensures References(MapSeq(GlItem, gs)) == MapSeq(Reference, gs)
  {
    if gs != [] {
      GlItemIds(gs[..|gs| - 1]);
    }
  }

  lemma FiveIds(a: seq<Item>, b: seq<Item>, c: seq<Item>, d: seq<Item>, e: seq<Item>)
    ensures TxnIds(a + b + c + d + e) == TxnIds(a) + TxnIds(b) + TxnIds(c) + TxnIds(d) + TxnIds(e)
    ensures References(a + b + c + d + e) ==
      References(a) + References(b) + References(c) + References(d) + References(e)
  {
    IdsConcat(a, b);
    IdsConcat(a + b, c);
    IdsConcat(a + b + c, d);
    IdsConcat(a + b + c + d, e);
  }

  lemma MatchItemIds(ps: seq<Pair>)
    ensures TxnIds(MapSeq(ExactItem, ps)) == TxnIds(MapSeq(NearItem, ps)) == TxnIds(MapSeq(FuzzyItem, ps))
         == MapSeq(TxnId, Banks(ps))
    ensures References(MapSeq(ExactItem, ps)) == References(MapSeq(NearItem, ps)) == References(MapSeq(FuzzyItem, ps))
         == MapSeq(Reference, Gls(ps))
  {
    PairItemIds(Matched, ExactItem, ps);
    PairItemIds(NearMatch, NearItem, ps);
    PairItemIds(FuzzyMatch, FuzzyItem, ps);
  }

  lemma ItemTxnIds(o: Outcome)
    ensures TxnIds(Items(o)) == MapSeq(TxnId, Banks(o.exact) + Banks(o.near) + Banks(o.fuzzy) + o.bankLeft)
  {
    var e, n, f := MapSeq(ExactItem, o.exact), MapSeq(NearItem, o.near), MapSeq(FuzzyItem, o.fuzzy);
    var b, g := MapSeq(BankItem, o.bankLeft), MapSeq(GlItem, o.glLeft);
    assert TxnIds(e) == MapSeq(TxnId, Banks(o.exact)) by { MatchItemIds(o.exact); }
    assert TxnIds(n) == MapSeq(TxnId, Banks(o.near)) by { MatchItemIds(o.near); }
    assert TxnIds(f) == MapSeq(TxnId, Banks(o.fuzzy)) by { MatchItemIds(o.fuzzy); }
    assert TxnIds(b) == MapSeq(TxnId, o.bankLeft) by { BankItemIds(o.bankLeft); }
    assert TxnIds(g) == [] by { GlItemIds(o.glLeft); }
    assert TxnIds(e + n + f + b + g) == TxnIds(e) + TxnIds(n) + TxnIds(f) + TxnIds(b) + TxnIds(g) by {
      FiveIds(e, n, f, b, g);
    }
    FourMaps(TxnId, Banks(o.exact), Banks(o.near), Banks(o.fuzzy), o.bankLeft);
  }

  lemma ItemReferences(o: Outcome)
    ensures References(Items(o)) == MapSeq(Reference, Gls(o.exact) + Gls(o.near) + Gls(o.fuzzy) + o.glLeft)
  {
    var e, n, f := MapSeq(ExactItem, o.exact), MapSeq(NearItem, o.near), MapSeq(FuzzyItem, o.fuzzy);
    var b, g := MapSeq(BankItem, o.bankLeft), MapSeq(GlItem, o.glLeft);
    assert References(e) == MapSeq(Reference, Gls(o.exact)) by { MatchItemIds(o.exact); }
    assert References(n) == MapSeq(Reference, Gls(o.near)) by { MatchItemIds(o.near); }
    assert References(f) == MapSeq(Reference, Gls(o.fuzzy)) by { MatchItemIds(o.fuzzy); }
    assert References(b) == [] by { BankItemIds(o.bankLeft); }
    assert References(g) == MapSeq(Reference, o.glLeft) by { GlItemIds(o.glLeft); }
    assert References(e + n + f + b + g) ==
      References(e) + References(n) + References(f) + References(b) + References(g) by {
      FiveIds(e, n, f, b, g);
    }
    FourMaps(Reference, Gls(o.exact), Gls(o.near), Gls(o.fuzzy), o.glLeft);
  }

  lemma FourMaps<T, U>(f: T -> U, a: seq<T>, b: seq<T>, c: seq<T>, d: seq<T>)
    ensures MapSeq(f, a + b + c + d) == MapSeq(f, a) + MapSeq(f, b) + MapSeq(f, c) + MapSeq(f, d)
  {
    MapConcat(f, a, b);
    MapConcat(f, a + b, c);
    MapConcat(f, a + b + c, d);
  }

  /** The items name every transaction exactly as often as it was loaded, and every surviving reference once. */
  lemma NamedOnce(similar: Similarity, bank: seq<Bank>, gl: seq<Gl>, o: Outcome)
    requires Delivered(similar, bank, gl, o)
    ensures multiset(TxnIds(Items(o))) == multiset(MapSeq(TxnId, bank))
    ensures multiset(References(Items(o))) == multiset(MapSeq(Reference, Survivors(gl)))
  {
    ItemTxnIds(o);
    ItemReferences(o);
    MapPermutation(TxnId, bank, Banks(o.exact) + Banks(o.near) + Banks(o.fuzzy) + o.bankLeft);
    MapPermutation(Reference, Survivors(gl), Gls(o.exact) + Gls(o.near) + Gls(o.fuzzy) + o.glLeft);
  }

  /** Every loaded ledger line ends in exactly one item if and only if no two share a reference. */
  lemma ExactlyOnceIff(similar: Similarity, bank: seq<Bank>, gl: seq<Gl>, o: Outcome)
    requires Delivered(similar, bank, gl, o)
    ensures multiset(TxnIds(Items(o))) == multiset(MapSeq(TxnId, bank))
    ensures multiset(References(Items(o))) == multiset(MapSeq(Reference, gl)) <==> DistinctReferences(gl)
  {
    NamedOnce(similar, bank, gl, o);
    SurvivorsFacts(gl);
    if DistinctReferences(gl) {
      DistinctSurvive(gl);
    }
    if multiset(MapSeq(Reference, Survivors(gl))) == multiset(MapSeq(Reference, gl)) {
      assert |multiset(MapSeq(Reference, gl))| == |gl|;
      assert |multiset(MapSeq(Reference, Survivors(gl)))| == |Survivors(gl)|;
    }
  }
}
