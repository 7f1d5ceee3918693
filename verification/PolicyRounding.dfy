/**
  The amounts of the three accounting policies, rounded half to even at six decimals
  (backend/financeops/accounting_policy_engine/policy_service.py).
*/
module PolicyRounding {
  import opened Multisets

  const MICRO := 1000000.0

  /** Half of the last decimal. */
  const HALF_UNIT := 0.0000005

  function Magnitude(x: real): real { if x < 0.0 then -x else x }

  /** The nearest integer, the even one of two. */
  function HalfEven(x: real): int {
    var f := x.Floor;
    var over := x - f as real;
    if over < 0.5 then f else if over > 0.5 then f + 1 else if f % 2 == 0 then f else f + 1
  }

  /** Decimal.quantize(Decimal("0.000000")) */
  function Quantize(x: real): real {
    HalfEven(x * MICRO) as real / MICRO
  }

  predicate OnGrid(x: real) {
    (x * MICRO).Floor as real == x * MICRO
  }

  // ----- Rounding -----

  predicate NearestEven(n: int, x: real) {
    Magnitude(n as real - x) < 0.5 || (Magnitude(n as real - x) == 0.5 && n % 2 == 0)
  }

  /** The rounded value is the one integer within a half, or the even one of the two at exactly a half. */
  lemma HalfEvenIff(x: real, n: int)
    ensures HalfEven(x) == n <==> NearestEven(n, x)
  {
    var f := x.Floor;
    assert f as real <= x < (f + 1) as real;
    if NearestEven(n, x) {
      assert n == f || n == f + 1 by {
        assert n as real >= x - 0.5 && n as real <= x + 0.5;
        assert (f - 1) as real < n as real < (f + 2) as real;
      }
    }
  }

  lemma HalfEvenClose(x: real)
    ensures Magnitude(HalfEven(x) as real - x) <= 0.5
  {
    HalfEvenIff(x, HalfEven(x));
  }

  lemma HalfEvenExact(x: real, n: int)
    requires x == n as real
    ensures HalfEven(x) == n
  {
    HalfEvenIff(x, n);
  }

  lemma HalfEvenOdd(x: real)
    ensures HalfEven(-x) == -HalfEven(x)
  {
    HalfEvenIff(x, HalfEven(x));
    HalfEvenIff(-x, -HalfEven(x));
  }

  lemma HalfEvenMonotone(x: real, y: real)
    requires x <= y
    ensures HalfEven(x) <= HalfEven(y)
  {
    HalfEvenIff(x, HalfEven(x));
    HalfEvenIff(y, HalfEven(y));
  }

  lemma QuantizeClose(x: real)
    ensures Magnitude(Quantize(x) - x) <= HALF_UNIT
  {
    HalfEvenClose(x * MICRO);
  }

  lemma QuantizeOnGrid(x: real)
    ensures OnGrid(Quantize(x))
    ensures OnGrid(x) <==> Quantize(x) == x
  {
    var n := HalfEven(x * MICRO);
    assert Quantize(x) * MICRO == n as real;
    assert (n as real).Floor == n;
    if OnGrid(x) {
      HalfEvenExact(x * MICRO, (x * MICRO).Floor);
    }
  }

  lemma QuantizeMonotone(x: real, y: real)
    requires x <= y
    ensures Quantize(x) <= Quantize(y)
  {
    HalfEvenMonotone(x * MICRO, y * MICRO);
  }

  lemma QuantizeOdd(x: real)
    ensures Quantize(-x) == -Quantize(x)
  {
    assert (-x) * MICRO == -(x * MICRO);
    HalfEvenOdd(x * MICRO);
  }

  lemma GridDifference(x: real, y: real)
    requires OnGrid(x) && OnGrid(y)
    ensures OnGrid(x - y) && OnGrid(x + y) && OnGrid(-x)
  {
    var m, n := (x * MICRO).Floor, (y * MICRO).Floor;
    assert (x - y) * MICRO == (m - n) as real;
    assert (x + y) * MICRO == (m + n) as real;
    assert (-x) * MICRO == (-m) as real;
    assert ((m - n) as real).Floor == m - n;
    assert ((m + n) as real).Floor == m + n;
    assert ((-m) as real).Floor == -m;
  }

  // ----- One entry -----

  function Product(a: real, b: real): real { a * b }

  /** The profit taken out of one entry. */
  function Adjustment(before: real, rate: real): real {
    Quantize(Product(Magnitude(before), rate))
  }

  function TakenOut(before: real, adjustment: real): real {
    Quantize(before - (if before >= 0.0 then adjustment else -adjustment))
  }

  /** One entry after intercompany profit elimination. */
  function Eliminated(before: real, rate: real): real {
    TakenOut(before, Adjustment(before, rate))
  }

  function Scaled(multiplier: real): real -> real {
    (before: real) => Quantize(Product(before, multiplier))
  }

  function EliminatedAt(rate: real): real -> real {
    (before: real) => Eliminated(before, rate)
  }

  /** A row of consolidated metrics and whether its metric is one the policy reclassifies. */
  datatype Metric = Metric(amount: real, isRevenue: bool)

  function Reclassified(rate: real): Metric -> real {
    (m: Metric) => if m.isRevenue then Eliminated(m.amount, rate) else Quantize(m.amount)
  }

  function MetricAmount(m: Metric): real { m.amount }

  predicate Fraction(rate: real) { 0.0 <= rate <= 1.0 }

  lemma ProductFits(m: real, rate: real)
    requires m >= 0.0 && Fraction(rate)
    ensures 0.0 <= Product(m, rate) <= m
  {
    assert m * (1.0 - rate) >= 0.0;
    assert m * rate >= 0.0;
  }

  lemma TakenOutOdd(before: real, adjustment: real)
    requires before > 0.0
    ensures TakenOut(-before, adjustment) == -TakenOut(before, adjustment)
  {
    QuantizeOdd(before - adjustment);
    assert -before + adjustment == -(before - adjustment);
  }

  lemma TakenOutFits(before: real, product: real)
    requires 0.0 <= product <= before
    ensures 0.0 <= TakenOut(before, Quantize(product)) <= Quantize(before)
  {
    var adjustment := Quantize(product);
    assert 0.0 <= adjustment by {
      QuantizeMonotone(0.0, product);
      HalfEvenExact(0.0, 0);
    }
    assert before - adjustment >= -HALF_UNIT by {
      QuantizeClose(product);
    }
    QuantizeMonotone(before - adjustment, before);
    QuantizeMonotone(-HALF_UNIT, before - adjustment);
    assert (-HALF_UNIT) * MICRO == -0.5;
    HalfEvenIff(-0.5, 0);
  }

  /**
    Elimination at a rate between 0 and 1 keeps an amount's sign or makes it zero, and never takes it
    past its own rounding.
  */
  lemma EliminationShrinks(before: real, rate: real)
    requires Fraction(rate)
    ensures before >= 0.0 ==> 0.0 <= Eliminated(before, rate) <= Quantize(before)
    ensures before <= 0.0 ==> Quantize(before) <= Eliminated(before, rate) <= 0.0
  {
    ProductFits(Magnitude(before), rate);
    TakenOutShrinks(before, Product(Magnitude(before), rate));
  }

  lemma TakenOutShrinks(before: real, product: real)
    requires 0.0 <= product <= Magnitude(before)
    ensures before >= 0.0 ==> 0.0 <= TakenOut(before, Quantize(product)) <= Quantize(before)
    ensures before <= 0.0 ==> Quantize(before) <= TakenOut(before, Quantize(product)) <= 0.0
  {
    TakenOutFits(Magnitude(before), product);
    if before < 0.0 {
      TakenOutOdd(-before, Quantize(product));
      QuantizeOdd(-before);
    } else if before == 0.0 {
      HalfEvenExact(0.0, 0);
    }
  }

  ghost predicate NeverGrows(before: real) {
    forall rate :: Fraction(rate) ==> Magnitude(Eliminated(before, rate)) <= Magnitude(before)
  }

  lemma ZeroRateRounds(before: real)
    ensures Eliminated(before, 0.0) == Quantize(before)
  {
    assert Product(Magnitude(before), 0.0) == 0.0;
    HalfEvenExact(0.0, 0);
  }

  /**
    An amount never grows at any rate exactly when rounding it does not make it grow; six decimals are enough for
    that.
  */
  lemma NeverGrowsIff(before: real)
    ensures NeverGrows(before) <==> Magnitude(Quantize(before)) <= Magnitude(before)
    ensures OnGrid(before) ==> NeverGrows(before)
  {
    if NeverGrows(before) {
      ZeroRateRounds(before);
      assert Fraction(0.0);
    }
    if Magnitude(Quantize(before)) <= Magnitude(before) {
      forall rate | Fraction(rate) ensures Magnitude(Eliminated(before, rate)) <= Magnitude(before) {
        EliminationShrinks(before, rate);
      }
    }
    QuantizeOnGrid(before);
  }

  /** A seventh decimal can make an amount grow although nothing is eliminated. */
  lemma SeventhDecimalGrows()
    ensures Eliminated(0.0000006, 0.0) == 0.000001 > 0.0000006
  {
    ZeroRateRounds(0.0000006);
    assert 0.0000006 * MICRO == 0.6;
    HalfEvenIff(0.6, 1);
  }

  lemma TakenOutClose(before: real, product: real)
    requires OnGrid(before)
    ensures TakenOut(before, Quantize(product)) ==
      before - (if before >= 0.0 then Quantize(product) else -Quantize(product))
    ensures Magnitude(TakenOut(before, Quantize(product)) - (before - (if before >= 0.0 then product else -product))) <=
      HALF_UNIT
  {
    QuantizeClose(product);
    QuantizeOnGrid(product);
    GridDifference(before, Quantize(product));
    QuantizeOnGrid(before - Quantize(product));
    QuantizeOnGrid(before + Quantize(product));
  }

  lemma SignedProduct(before: real, rate: real)
    ensures (if before >= 0.0 then Product(Magnitude(before), rate) else -Product(Magnitude(before), rate)) ==
      Product(before, rate)
  {
  }

  /** On six-decimal amounts only the product is rounded. */
  lemma EliminatedClose(before: real, rate: real)
    requires OnGrid(before)
    ensures Magnitude(Eliminated(before, rate) - (before - Product(before, rate))) <= HALF_UNIT
  {
    SignedProduct(before, rate);
    TakenOutClose(before, Product(Magnitude(before), rate));
  }

  // ----- Whole batches -----

  function Amount(x: real): real { x }

  /** n entries, each within half a unit, are together within n half units. */
  lemma {:induction false} ErrorsAdd<T>(f: T -> real, g: T -> real, s: seq<T>)
    requires forall x :: x in s ==> Magnitude(f(x) - g(x)) <= HALF_UNIT
    ensures Magnitude(Sum(f, s) - Sum(g, s)) <= |s| as real * HALF_UNIT
  {
    if s != [] {
      assert s[|s| - 1] in s;
      ErrorsAdd(f, g, s[..|s| - 1]);
    }
  }

  function Times(c: real): real -> real {
    (x: real) => Product(x, c)
  }

  function Less(rate: real): real -> real {
    (x: real) => x - Product(x, rate)
  }

  lemma Distribute(c: real, a: real, b: real)
    ensures Product(a + b, c) == Product(a, c) + Product(b, c)
  {
  }

  lemma {:induction false} SumScales(c: real, s: seq<real>)
    ensures Sum(Times(c), s) == Product(Sum(Amount, s), c)
    ensures Sum(Less(c), s) == Sum(Amount, s) - Product(Sum(Amount, s), c)
  {
    if s == [] {
      assert Product(0.0, c) == 0.0;
    } else {
      SumScales(c, s[..|s| - 1]);
      Distribute(c, Sum(Amount, s[..|s| - 1]), s[|s| - 1]);
    }
  }

  lemma EntryClose(rate: real, x: real)
    requires OnGrid(x)
    ensures Magnitude(EliminatedAt(rate)(x) - Less(rate)(x)) <= HALF_UNIT
  {
    EliminatedClose(x, rate);
  }

  lemma EntityClose(multiplier: real, x: real)
    ensures Magnitude(Scaled(multiplier)(x) - Times(multiplier)(x)) <= HALF_UNIT
  {
    QuantizeClose(Product(x, multiplier));
  }

  /** A batch of six-decimal amounts: the total is (1 - rate) times the total before, up to half a unit an entry. */
  lemma {:induction false} EliminationTotal(rate: real, amounts: seq<real>)
    requires forall x :: x in amounts ==> OnGrid(x)
    ensures Magnitude(Sum(EliminatedAt(rate), amounts) - (Sum(Amount, amounts) - Product(Sum(Amount, amounts), rate)))
         <= |amounts| as real * HALF_UNIT
  {
    forall x | x in amounts ensures Magnitude(EliminatedAt(rate)(x) - Less(rate)(x)) <= HALF_UNIT {
      EntryClose(rate, x);
    }
    ErrorsAdd(EliminatedAt(rate), Less(rate), amounts);
    SumScales(rate, amounts);
  }

  /** Minority interest: the aggregate is the multiplier times the total before, up to half a unit an entity. */
  lemma {:induction false} MinorityAggregate(multiplier: real, amounts: seq<real>)
    ensures Magnitude(Sum(Scaled(multiplier), amounts) - Product(Sum(Amount, amounts), multiplier)) <=
      |amounts| as real * HALF_UNIT
  {
    forall x | x in amounts ensures Magnitude(Scaled(multiplier)(x) - Times(multiplier)(x)) <= HALF_UNIT {
      EntityClose(multiplier, x);
    }
    ErrorsAdd(Scaled(multiplier), Times(multiplier), amounts);
    SumScales(multiplier, amounts);
  }

  lemma {:induction false} GridSum(multiplier: real, amounts: seq<real>)
    ensures OnGrid(Sum(Scaled(multiplier), amounts))
  {
    if amounts != [] {
      GridSum(multiplier, amounts[..|amounts| - 1]);
      QuantizeOnGrid(Product(amounts[|amounts| - 1], multiplier));
      GridDifference(Sum(Scaled(multiplier), amounts[..|amounts| - 1]), Scaled(multiplier)(amounts[|amounts| - 1]));
    }
  }

  lemma OneMetric(rate: real, m: Metric)
    requires OnGrid(m.amount)
    ensures m.isRevenue ==> Magnitude(Reclassified(rate)(m) - (m.amount - Product(m.amount, rate))) <= HALF_UNIT
    ensures !m.isRevenue ==> Reclassified(rate)(m) == m.amount
  {
    if m.isRevenue {
      EliminatedClose(m.amount, rate);
    } else {
      QuantizeOnGrid(m.amount);
    }
  }

  /** The revenue metrics lose their share, all other six-decimal metrics stay exactly as they are. */
  lemma {:induction false} ReclassificationTotal(rate: real, rows: seq<Metric>)
    requires forall m :: m in rows ==> OnGrid(m.amount)
    ensures Magnitude(Sum(Reclassified(rate), rows) - (Sum(MetricAmount, rows) - Product(RevenueTotal(rows), rate)))
         <= RevenueCount(rows) as real * HALF_UNIT
  {
    if rows == [] {
      assert Product(0.0, rate) == 0.0;
    } else {
      var front, m := rows[..|rows| - 1], rows[|rows| - 1];
      assert m in rows;
      ReclassificationTotal(rate, front);
      OneMetric(rate, m);
      if m.isRevenue {
        Distribute(rate, RevenueTotal(front), m.amount);
      }
    }
  }

  function RevenueTotal(rows: seq<Metric>): real {
    if rows == [] then 0.0
    else RevenueTotal(rows[..|rows| - 1]) + (if rows[|rows| - 1].isRevenue then rows[|rows| - 1].amount else 0.0)
  }

  function RevenueCount(rows: seq<Metric>): nat {
    if rows == [] then 0 else RevenueCount(rows[..|rows| - 1]) + (if rows[|rows| - 1].isRevenue then 1 else 0)
  }

  /** Whatever a policy writes has six decimals, also for inputs with more, and what it leaves alone is only rounded. */
  lemma ResultsOnGrid(rate: real, multiplier: real, before: real, m: Metric)
    ensures OnGrid(Eliminated(before, rate)) && OnGrid(Adjustment(before, rate)) && OnGrid(Scaled(multiplier)(before))
    ensures OnGrid(Reclassified(rate)(m))
    ensures !m.isRevenue ==> Magnitude(Reclassified(rate)(m) - m.amount) <= HALF_UNIT
    ensures m.isRevenue ==> Reclassified(rate)(m) == Eliminated(m.amount, rate)
  {
    QuantizeOnGrid(before - (if before >= 0.0 then Adjustment(before, rate) else -Adjustment(before, rate)));
    QuantizeOnGrid(Product(Magnitude(before), rate));
    QuantizeOnGrid(Product(before, multiplier));
    QuantizeOnGrid(m.amount);
    QuantizeClose(m.amount);
    QuantizeOnGrid(m.amount - (if m.amount >= 0.0 then Adjustment(m.amount, rate) else -Adjustment(m.amount, rate)));
  }

  // ----- The service's loops -----

  /** The entries in the order they are sorted into; affected lists the positions that changed. */
  method ApplyIntercompanyElimination(rate: real, amounts: seq<real>)
    returns (applied: seq<real>, adjustments: seq<real>, affected: seq<nat>)
    ensures applied == MapSeq(EliminatedAt(rate), amounts)
    ensures |adjustments| == |amounts| && forall i :: 0 <= i < |amounts| ==>
      adjustments[i] == Adjustment(amounts[i], rate)
    ensures forall i :: i in affected <==> 0 <= i < |amounts| && applied[i] != amounts[i]
  {
    applied, adjustments, affected := [], [], [];
    for i := 0 to |amounts|
      invariant applied == MapSeq(EliminatedAt(rate), amounts[..i])
      invariant |adjustments| == i && forall k :: 0 <= k < i ==> adjustments[k] == Adjustment(amounts[k], rate)
      invariant forall k :: k in affected <==> 0 <= k < i && applied[k] != amounts[k]
    {
      assert amounts[..i + 1][..i] == amounts[..i];
      var before := amounts[i];
      var adjustment := Adjustment(before, rate);
      var after := TakenOut(before, adjustment);
      applied, adjustments := applied + [after], adjustments + [adjustment];
      if after != before {
        affected := affected + [i];
      }
    }
    assert amounts[..|amounts|] == amounts;
  }

  method ApplyMinorityInterest(multiplier: real, amounts: seq<real>) returns (applied: seq<real>, aggregate: real)
    ensures applied == MapSeq(Scaled(multiplier), amounts)
    ensures aggregate == Sum(Scaled(multiplier), amounts)
  {
    applied, aggregate := [], 0.0;
    for i := 0 to |amounts|
      invariant applied == MapSeq(Scaled(multiplier), amounts[..i]) &&
        aggregate == Sum(Scaled(multiplier), amounts[..i])
    {
      assert amounts[..i + 1][..i] == amounts[..i];
      var after := Quantize(Product(amounts[i], multiplier));
      applied, aggregate := applied + [after], aggregate + after;
    }
    assert amounts[..|amounts|] == amounts;
    GridSum(multiplier, amounts);
    QuantizeOnGrid(aggregate);
    aggregate := Quantize(aggregate);
  }

  method ApplyRevenueReclassification(rate: real, rows: seq<Metric>) returns (applied: seq<real>)
    ensures applied == MapSeq(Reclassified(rate), rows)
  {
    applied := [];
    for i := 0 to |rows|
      invariant applied == MapSeq(Reclassified(rate), rows[..i])
    {
      assert rows[..i + 1][..i] == rows[..i];
      var before := rows[i].amount;
      var adjustment := if rows[i].isRevenue then Adjustment(before, rate) else Quantize(0.0);
      var after := if rows[i].isRevenue then TakenOut(before, adjustment) else Quantize(before);
      applied := applied + [after];
    }
    assert rows[..|rows|] == rows;
  }
}
