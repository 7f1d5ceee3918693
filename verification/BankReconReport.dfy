/** What the items and the summary of a bank reconciliation say, in terms of the data it was run on. */
module BankReconReport {
  import opened Wrappers
  import opened Multisets
  import opened BankReconSpec

  /** How many items are of the kind. */
  function CountOf(items: seq<Item>, kind: ItemType): nat {
    if items == [] then 0
    else CountOf(items[..|items| - 1], kind) + (if items[|items| - 1].kind == kind then 1 else 0)
  }

  /** The amounts of the items of the kind, added up. */
  function AmountOf(items: seq<Item>, kind: ItemType): real {
    if items == [] then 0.0
    else
      var last := items[|items| - 1];
      AmountOf(items[..|items| - 1], kind) + (if last.kind == kind then last.amount else 0.0)
  }

  /**
    The summary counts the items of each kind; the net difference is what is left on the bank side minus what is left
    on the ledger side.
  */
  predicate Tallies(items: seq<Item>, summary: Summary) {
    && summary.matched == CountOf(items, Matched)
    && summary.nearMatch == CountOf(items, NearMatch)
    && summary.fuzzy == CountOf(items, FuzzyMatch)
    && summary.bankOnly == CountOf(items, BankOnly)
    && summary.glOnly == CountOf(items, GlOnly)
    && summary.netDifference == AmountOf(items, BankOnly) - AmountOf(items, GlOnly)
  }

  /** The item names this transaction and this reference, and carries the transaction's amount. */
  predicate Pairs(item: Item, b: Bank, reference: string) {
    item.txnId == Some(b.txnId) && item.reference == Some(reference) && item.amount == b.amount
  }

  predicate SameDay(b: Bank, g: Gl) { g.postingDate == b.valueDate }

  predicate WithinDays(b: Bank, g: Gl, days: nat) { b.valueDate - days <= g.postingDate <= b.valueDate + days }

  /** The amounts differ by less than a hundredth of a percent of the ledger's, which is not zero. */
  predicate CloseAmount(b: Bank, g: Gl) {
    var tolerance := 0.0001 * (if g.amount < 0.0 then -g.amount else g.amount);
    g.amount != 0.0 && g.amount - tolerance < b.amount < g.amount + tolerance
  }

  /**
    A line with this reference was loaded with the transaction's amount; an index may still list it after a later
    version replaced it.
  */
  ghost predicate AmountLoaded(gl: seq<Gl>, b: Bank, reference: string) {
    exists h :: h in gl && h.reference == reference && h.amount == b.amount
  }

  ghost predicate MatchedItem(bank: seq<Bank>, gl: seq<Gl>, item: Item) {
    exists b, g :: b in bank && g in gl && Pairs(item, b, g.reference) && g.amount == b.amount && SameDay(b, g)
  }

  ghost predicate NearMatchItem(bank: seq<Bank>, gl: seq<Gl>, item: Item) {
    exists b, g ::
      b in bank && g in gl && Pairs(item, b, g.reference) && AmountLoaded(gl, b, g.reference) && WithinDays(b, g, 3)
  }

  ghost predicate FuzzyMatchItem(similar: Similarity, bank: seq<Bank>, gl: seq<Gl>, item: Item) {
    exists b, g ::
      && b in bank && g in gl && Pairs(item, b, g.reference)
      && CloseAmount(b, g) && WithinDays(b, g, 7) && similar(b.description, g.narration) > 0.8
  }

  ghost predicate BankOnlyItem(bank: seq<Bank>, item: Item) {
    exists b :: b in bank && item.txnId == Some(b.txnId) && item.reference == None && item.amount == b.amount
  }

  ghost predicate GlOnlyItem(gl: seq<Gl>, item: Item) {
    exists g :: g in gl && item.txnId == None && item.reference == Some(g.reference) && item.amount == g.amount
  }

  /** The item's kind says what was found out about the transaction and the line it names. */
  ghost predicate Justified(similar: Similarity, bank: seq<Bank>, gl: seq<Gl>, item: Item) {
    match item.kind
    case Matched => MatchedItem(bank, gl, item)
    case NearMatch => NearMatchItem(bank, gl, item)
    case FuzzyMatch => FuzzyMatchItem(similar, bank, gl, item)
    case BankOnly => BankOnlyItem(bank, item)
    case GlOnly => GlOnlyItem(gl, item)
  }

  // ----- The tallies -----

  lemma {:induction false} TallyConcat(a: seq<Item>, b: seq<Item>, kind: ItemType)
    ensures CountOf(a + b, kind) == CountOf(a, kind) + CountOf(b, kind)
    ensures AmountOf(a + b, kind) == AmountOf(a, kind) + AmountOf(b, kind)
  {
    if b == [] {
      assert a + b == a;
    } else {
      TallyConcat(a, b[..|b| - 1], kind);
      assert (a + b)[..|a + b| - 1] == a + b[..|b| - 1];
    }
  }

  lemma {:induction false} TallyOfOneKind<T>(f: T -> Item, s: seq<T>, of: ItemType, kind: ItemType)
    requires forall x :: f(x).kind == of
    ensures CountOf(MapSeq(f, s), kind) == if kind == of then |s| else 0
    ensures kind != of ==> AmountOf(MapSeq(f, s), kind) == 0.0
  {
    if s != [] {
      TallyOfOneKind(f, s[..|s| - 1], of, kind);
    }
  }

  lemma {:induction false} BankAmounts(bs: seq<Bank>)
    ensures AmountOf(MapSeq(BankItem, bs), BankOnly) == Sum(BankAmount, bs)
  {
    if bs != [] {
      BankAmounts(bs[..|bs| - 1]);
    }
  }

  lemma {:induction false} GlAmounts(gs: seq<Gl>)
    ensures AmountOf(MapSeq(GlItem, gs), GlOnly) == Sum(GlAmount, gs)
  {
    if gs != [] {
      GlAmounts(gs[..|gs| - 1]);
    }
  }

  lemma FiveTallies(a: seq<Item>, b: seq<Item>, c: seq<Item>, d: seq<Item>, e: seq<Item>, kind: ItemType)
    ensures CountOf(a + b + c + d + e, kind)
         == CountOf(a, kind) + CountOf(b, kind) + CountOf(c, kind) + CountOf(d, kind) + CountOf(e, kind)
    ensures AmountOf(a + b + c + d + e, kind)
         == AmountOf(a, kind) + AmountOf(b, kind) + AmountOf(c, kind) + AmountOf(d, kind) + AmountOf(e, kind)
  {
    hide CountOf, AmountOf;
    TallyConcat(a, b, kind);
    TallyConcat(a + b, c, kind);
    TallyConcat(a + b + c, d, kind);
    TallyConcat(a + b + c + d, e, kind);
  }

  lemma KindTallies(o: Outcome, kind: ItemType)
    ensures CountOf(Items(o), kind) ==
      match kind
      case Matched => |o.exact|
      case NearMatch => |o.near|
      case FuzzyMatch => |o.fuzzy|
      case BankOnly => |o.bankLeft|
      case GlOnly => |o.glLeft|
    ensures kind == BankOnly ==> AmountOf(Items(o), kind) == Sum(BankAmount, o.bankLeft)
    ensures kind == GlOnly ==> AmountOf(Items(o), kind) == Sum(GlAmount, o.glLeft)
  {
    FiveTallies(MapSeq(ExactItem, o.exact), MapSeq(NearItem, o.near), MapSeq(FuzzyItem, o.fuzzy),
                MapSeq(BankItem, o.bankLeft), MapSeq(GlItem, o.glLeft), kind);
    hide CountOf, AmountOf, Sum, MapSeq;
    TallyOfOneKind(ExactItem, o.exact, Matched, kind);
    TallyOfOneKind(NearItem, o.near, NearMatch, kind);
    TallyOfOneKind(FuzzyItem, o.fuzzy, FuzzyMatch, kind);
    TallyOfOneKind(BankItem, o.bankLeft, BankOnly, kind);
    TallyOfOneKind(GlItem, o.glLeft, GlOnly, kind);
    BankAmounts(o.bankLeft);
    GlAmounts(o.glLeft);
  }

  lemma NothingToTally()
    ensures Tallies([], Summary(0, 0, 0, 0, 0, 0.0))
  {
  }

  lemma SummaryTallies(o: Outcome)
    ensures Tallies(Items(o), SummaryOf(o))
  {
    hide Items, CountOf, AmountOf, Sum;
    KindTallies(o, Matched);
    KindTallies(o, NearMatch);
    KindTallies(o, FuzzyMatch);
    KindTallies(o, BankOnly);
    KindTallies(o, GlOnly);
  }

  // ----- The items -----

  lemma BanksLoaded(similar: Similarity, bank: seq<Bank>, gl: seq<Gl>, o: Outcome)
    requires Delivered(similar, bank, gl, o)
    ensures forall p :: p in o.exact || p in o.near || p in o.fuzzy ==> p.0 in bank
    ensures forall b :: b in o.bankLeft ==> b in bank
  {
    hide ExactBy, NearBy, Fuzzy, Survivors;
    var all := Banks(o.exact) + Banks(o.near) + Banks(o.fuzzy) + o.bankLeft;
    forall b | b in all ensures b in bank {
      assert b in multiset(all);
      assert b in multiset(bank);
    }
    forall p | p in o.exact || p in o.near || p in o.fuzzy ensures p.0 in all {
      BankOfPair(o.exact, p);
      BankOfPair(o.near, p);
      BankOfPair(o.fuzzy, p);
    }
  }

  lemma BankOfPair(ps: seq<Pair>, p: Pair)
    ensures p in ps ==> p.0 in Banks(ps) && p.1 in Gls(ps)
  {
    if p in ps {
      var k :| 0 <= k < |ps| && ps[k] == p;
      assert Banks(ps)[k] == p.0 && Gls(ps)[k] == p.1;
    }
  }

  lemma LinesLoaded(similar: Similarity, bank: seq<Bank>, gl: seq<Gl>, o: Outcome)
    requires Delivered(similar, bank, gl, o)
    ensures forall p :: p in o.near || p in o.fuzzy ==> p.1 in gl
    ensures forall g :: g in o.glLeft ==> g in gl
  {
    hide ExactBy, NearBy, Fuzzy, Survivors;
    GlsLoaded(similar, bank, gl, o);
    SurvivorsFacts(gl);
    forall p | p in o.fuzzy ensures p.1 in gl {
      BankOfPair(o.fuzzy, p);
    }
  }

  lemma ExactJustified(bank: seq<Bank>, gl: seq<Gl>, p: Pair)
    requires p.0 in bank && ExactBy(gl, p.0, p.1)
    ensures MatchedItem(bank, gl, ExactItem(p))
  {
    var h :| h in gl && h.reference == p.1.reference && GlKey(h) == BankKey(p.0);
    assert Pairs(ExactItem(p), p.0, h.reference) && SameDay(p.0, h);
  }

  lemma NearJustified(bank: seq<Bank>, gl: seq<Gl>, p: Pair)
    requires p.0 in bank && p.1 in gl && NearBy(gl, p.0, p.1)
    ensures NearMatchItem(bank, gl, NearItem(p))
  {
    var h :| h in gl && h.reference == p.1.reference && GlAmount(h) == p.0.amount;
    assert h.amount == p.0.amount;
    assert Pairs(NearItem(p), p.0, p.1.reference) && AmountLoaded(gl, p.0, p.1.reference) && WithinDays(p.0, p.1, 3);
  }

  lemma FuzzyJustified(similar: Similarity, bank: seq<Bank>, gl: seq<Gl>, p: Pair)
    requires p.0 in bank && p.1 in gl && Fuzzy(similar, p.0, p.1)
    ensures FuzzyMatchItem(similar, bank, gl, FuzzyItem(p))
  {
    QuotientBound(Abs(p.0.amount - p.1.amount), Abs(p.1.amount), 0.0001);
    assert Pairs(FuzzyItem(p), p.0, p.1.reference) && CloseAmount(p.0, p.1) && WithinDays(p.0, p.1, 7);
  }

  lemma InMap<T>(f: T -> Item, s: seq<T>, item: Item) returns (x: T)
    requires item in MapSeq(f, s)
    ensures x in s && f(x) == item
  {
    var i :| 0 <= i < |s| && MapSeq(f, s)[i] == item;
    x := s[i];
  }

  lemma ItemsJustified(similar: Similarity, bank: seq<Bank>, gl: seq<Gl>, o: Outcome)
    requires Delivered(similar, bank, gl, o)
    ensures forall item :: item in Items(o) ==> Justified(similar, bank, gl, item)
  {
    hide ExactBy, NearBy, Fuzzy, MatchedItem, NearMatchItem, FuzzyMatchItem, BankOnlyItem, GlOnlyItem, Survivors;
    hide Banks, Gls, Items, MapSeq;
    BanksLoaded(similar, bank, gl, o);
    LinesLoaded(similar, bank, gl, o);
    forall item | item in Items(o) ensures Justified(similar, bank, gl, item) {
      ItemsAre(o, item);
      if item in MapSeq(ExactItem, o.exact) {
        var p := InMap(ExactItem, o.exact, item);
        ExactJustified(bank, gl, p);
      } else if item in MapSeq(NearItem, o.near) {
        var p := InMap(NearItem, o.near, item);
        NearJustified(bank, gl, p);
      } else if item in MapSeq(FuzzyItem, o.fuzzy) {
        var p := InMap(FuzzyItem, o.fuzzy, item);
        FuzzyJustified(similar, bank, gl, p);
      } else if item in MapSeq(BankItem, o.bankLeft) {
        var b := InMap(BankItem, o.bankLeft, item);
        BankLeftJustified(bank, b);
      } else {
        var g := InMap(GlItem, o.glLeft, item);
        GlLeftJustified(gl, g);
      }
    }
  }

  lemma ItemsAre(o: Outcome, item: Item)
    ensures item in Items(o) ==>
      || item in MapSeq(ExactItem, o.exact) || item in MapSeq(NearItem, o.near) || item in MapSeq(FuzzyItem, o.fuzzy)
      || item in MapSeq(BankItem, o.bankLeft) || item in MapSeq(GlItem, o.glLeft)
  {
    hide MapSeq;
  }

  lemma BankLeftJustified(bank: seq<Bank>, b: Bank)
    requires b in bank
    ensures BankOnlyItem(bank, BankItem(b)) && BankItem(b).kind == BankOnly
  {
  }

  lemma GlLeftJustified(gl: seq<Gl>, g: Gl)
    requires g in gl
    ensures GlOnlyItem(gl, GlItem(g)) && GlItem(g).kind == GlOnly
  {
  }
}
