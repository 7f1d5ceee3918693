/** The three passes of run_bank_reconciliation as functions on the open candidates and the two indexes. */
module BankReconSteps {
  import opened Wrappers
  import opened Multisets
  import opened BankReconSpec

  // ----- The pool -----

  /** The open candidates by reference, and the lists of references both indexes still hold. */
  datatype Pool = Pool(remaining: map<string, Gl>, exact: map<Key, seq<string>>, near: map<real, seq<string>>)

  function At<K>(index: map<K, seq<string>>, k: K): seq<string> {
    if k in index then index[k] else []
  }

  function Index<K>(key: Gl -> K, gl: seq<Gl>): map<K, seq<string>> {
    if gl == [] then map[]
    else
      var index, last := Index(key, gl[..|gl| - 1]), gl[|gl| - 1];
      index[key(last) := At(index, key(last)) + [last.reference]]
  }

  /** The references of the candidates with the given key, in load order. */
  function RefsWith<K(==)>(key: Gl -> K, gl: seq<Gl>, k: K): seq<string> {
    if gl == [] then []
    else
      var last := gl[|gl| - 1];
      RefsWith(key, gl[..|gl| - 1], k) + (if key(last) == k then [last.reference] else [])
  }

  /** {candidate.reference: candidate} */
  function ByReference(gl: seq<Gl>): map<string, Gl> {
    if gl == [] then map[] else ByReference(gl[..|gl| - 1])[gl[|gl| - 1].reference := gl[|gl| - 1]]
  }

  function InitialPool(gl: seq<Gl>): Pool {
    Pool(ByReference(gl), Index(GlKey, gl), Index(GlAmount, gl))
  }

  /** How many references come before the first hit. */
  function Misses(refs: seq<string>, hit: string -> bool): (n: nat)
    ensures n <= |refs| && (n < |refs| ==> hit(refs[n]))
    ensures forall k :: 0 <= k < n ==> !hit(refs[k])
  {
    if refs == [] || hit(refs[0]) then 0 else 1 + Misses(refs[1..], hit)
  }

  /** Taken is the candidate of the first reference that hits, and nothing when none does. */
  ghost predicate FirstOf(refs: seq<string>, hit: string -> bool, open: map<string, Gl>, taken: Option<Gl>) {
    if taken.None? then forall k :: 0 <= k < |refs| ==> !hit(refs[k])
    else
      exists n :: 0 <= n < |refs| && hit(refs[n]) && (forall k :: 0 <= k < n ==> !hit(refs[k]))
        && refs[n] in open && open[refs[n]] == taken.value
  }

  /** What the list keeps: everything behind the taken candidate's reference, nothing when none was taken. */
  ghost predicate KeepsBehind(before: seq<string>, after: seq<string>, taken: Option<Gl>) {
    if taken.None? then after == []
    else exists n :: 0 <= n < |before| && before[n] == taken.value.reference && after == before[n + 1..]
  }

  /** The list after popping up to and including the first hit. */
  function Rest(refs: seq<string>, n: nat): seq<string> { if n < |refs| then refs[n + 1..] else [] }

  function SetList<K>(index: map<K, seq<string>>, k: K, refs: seq<string>): map<K, seq<string>> {
    if k in index then index[k := refs] else index
  }

  function IsOpen(open: map<string, Gl>): string -> bool { (r: string) => r in open }

  function IsNear(open: map<string, Gl>, b: Bank): string -> bool {
    (r: string) => r in open && DayGap(b, open[r]) <= 3
  }

  function IsFuzzy(similar: Similarity, open: map<string, Gl>, b: Bank): string -> bool {
    (r: string) => r in open && Fuzzy(similar, b, open[r])
  }

  /** The candidate of the first hit, taken out of the open ones. */
  function Take(open: map<string, Gl>, refs: seq<string>, n: nat): (map<string, Gl>, Option<Gl>) {
    if n < |refs| && refs[n] in open then (open - {refs[n]}, Some(open[refs[n]])) else (open, None)
  }

  function TakeExact(p: Pool, key: Key): (Pool, Option<Gl>) {
    var refs := At(p.exact, key);
    var n := Misses(refs, IsOpen(p.remaining));
    var (open, taken) := Take(p.remaining, refs, n);
    (Pool(open, SetList(p.exact, key, Rest(refs, n)), p.near), taken)
  }

  function TakeNear(p: Pool, b: Bank): (Pool, Option<Gl>) {
    var refs := At(p.near, b.amount);
    var n := Misses(refs, IsNear(p.remaining, b));
    var (open, taken) := Take(p.remaining, refs, n);
    (Pool(open, p.exact, SetList(p.near, b.amount, Rest(refs, n))), taken)
  }

  function TakeFuzzy(similar: Similarity, order: seq<string>, p: Pool, b: Bank): (Pool, Option<Gl>) {
    var (open, taken) := Take(p.remaining, order, Misses(order, IsFuzzy(similar, p.remaining, b)));
    (p.(remaining := open), taken)
  }

  function Without(refs: seq<string>, r: string): seq<string> {
    if refs == [] then []
    else Without(refs[..|refs| - 1], r) + (if refs[|refs| - 1] != r then [refs[|refs| - 1]] else [])
  }

  /** A matched candidate's reference leaves the list of the candidate's amount. */
  function DropNear(p: Pool, taken: Option<Gl>): Pool {
    if taken.None? || At(p.near, taken.value.amount) == [] then p
    else
      var a := taken.value.amount;
      p.(near := p.near[a := Without(p.near[a], taken.value.reference)])
  }

  type Step = (Pool, Bank) -> (Pool, Option<Gl>)

  function MatchExact(p: Pool, b: Bank): (Pool, Option<Gl>) {
    var (q, taken) := TakeExact(p, BankKey(b));
    (DropNear(q, taken), taken)
  }

  function MatchNear(p: Pool, b: Bank): (Pool, Option<Gl>) {
    var (q, taken) := TakeNear(p, b);
    (DropNear(q, taken), taken)
  }

  function MatchFuzzy(similar: Similarity, order: seq<string>): Step {
    (p: Pool, b: Bank) =>
      var (q, taken) := TakeFuzzy(similar, order, p, b);
      (DropNear(q, taken), taken)
  }

  // ----- Passes and the run -----

  datatype Passed = Passed(pool: Pool, pairs: seq<Pair>, left: seq<Bank>)

  function Extend(s: Passed, step: Step, b: Bank): Passed {
    var (q, taken) := step(s.pool, b);
    if taken.None? then Passed(q, s.pairs, s.left + [b]) else Passed(q, s.pairs + [(b, taken.value)], s.left)
  }

  function Pass(step: Step, p: Pool, bank: seq<Bank>): Passed {
    if bank == [] then Passed(p, [], []) else Extend(Pass(step, p, bank[..|bank| - 1]), step, bank[|bank| - 1])
  }

  /** The candidates whose references are still open, in the order they were loaded. */
  function Left(gl: seq<Gl>, open: set<string>): seq<Gl> {
    if gl == [] then []
    else
      var last := gl[|gl| - 1];
      Left(gl[..|gl| - 1], open) + (if last.reference in open then [last] else [])
  }

  function Order(gl: seq<Gl>): seq<string> { MapSeq(Reference, Survivors(gl)) }

  function ExactPassed(bank: seq<Bank>, gl: seq<Gl>): Passed { Pass(MatchExact, InitialPool(gl), bank) }

  function NearPassed(bank: seq<Bank>, gl: seq<Gl>): Passed {
    var e := ExactPassed(bank, gl);
    Pass(MatchNear, e.pool, e.left)
  }

  function FuzzyPassed(similar: Similarity, bank: seq<Bank>, gl: seq<Gl>): Passed {
    var n := NearPassed(bank, gl);
    Pass(MatchFuzzy(similar, Order(gl)), n.pool, n.left)
  }

  function Reconcile(similar: Similarity, bank: seq<Bank>, gl: seq<Gl>): Outcome {
    var e, n, f := ExactPassed(bank, gl), NearPassed(bank, gl), FuzzyPassed(similar, bank, gl);
    Outcome(e.pairs, n.pairs, f.pairs, e.left, f.left, Left(Survivors(gl), f.pool.remaining.Keys))
  }

  // ----- The open candidates -----

  lemma {:induction false} LeftFacts(gl: seq<Gl>, open: set<string>)
    ensures forall g :: g in Left(gl, open) <==> g in gl && g.reference in open
  {
    if gl != [] {
      LeftFacts(gl[..|gl| - 1], open);
      assert gl == gl[..|gl| - 1] + [gl[|gl| - 1]];
    }
  }

  lemma {:induction false} LeftAll(gl: seq<Gl>, open: set<string>)
    requires forall g :: g in gl ==> g.reference in open
    ensures Left(gl, open) == gl
  {
    if gl != [] {
      assert gl == gl[..|gl| - 1] + [gl[|gl| - 1]];
      LeftAll(gl[..|gl| - 1], open);
    }
  }

  lemma {:induction false} LeftSame(gl: seq<Gl>, a: set<string>, b: set<string>)
    requires forall g :: g in gl ==> (g.reference in a <==> g.reference in b)
    ensures Left(gl, a) == Left(gl, b)
  {
    if gl != [] {
      assert gl == gl[..|gl| - 1] + [gl[|gl| - 1]];
      LeftSame(gl[..|gl| - 1], a, b);
    }
  }

  /** Closing one reference takes exactly its candidate out. */
  lemma {:induction false} LeftWithout(gl: seq<Gl>, open: set<string>, g: Gl)
    requires DistinctReferences(gl) && g in gl && g.reference in open
    ensures multiset(Left(gl, open)) == multiset(Left(gl, open - {g.reference})) + multiset{g}
  {
    var front, last := gl[..|gl| - 1], gl[|gl| - 1];
    assert gl == front + [last];
    OtherReferences(front, last);
    hide DistinctReferences;
    if last == g {
      LeftSame(front, open, open - {g.reference});
    } else {
      LeftWithout(front, open, g);
    }
  }

  lemma OtherReferences(front: seq<Gl>, last: Gl)
    requires DistinctReferences(front + [last])
    ensures DistinctReferences(front) && forall g :: g in front ==> g.reference != last.reference
  {
    var gl := front + [last];
    forall g | g in front ensures g.reference != last.reference {
      var i :| 0 <= i < |front| && front[i] == g;
      assert gl[i].reference != gl[|front|].reference;
    }
    forall i, j | 0 <= i < j < |front| ensures front[i].reference != front[j].reference {
      assert gl[i].reference != gl[j].reference;
    }
  }

  /** Every open reference stands for the surviving candidate with that reference. */
  ghost predicate OpenOk(kept: seq<Gl>, open: map<string, Gl>) {
    && DistinctReferences(kept)
    && forall r :: r in open ==> open[r] in kept && open[r].reference == r
  }

  lemma OpenOnes(kept: seq<Gl>, open: map<string, Gl>)
    requires OpenOk(kept, open)
    ensures forall g :: g in Left(kept, open.Keys) ==> g.reference in open && open[g.reference] == g
  {
    LeftFacts(kept, open.Keys);
    forall g | g in Left(kept, open.Keys) ensures open[g.reference] == g {
      OneOfReference(kept, g, open[g.reference]);
    }
  }

  // ----- Where the pool starts -----

  lemma {:induction false} IndexLists<K>(key: Gl -> K, gl: seq<Gl>)
    ensures forall k, r :: r in At(Index(key, gl), k) <==> Listed(gl, key, r, k)
  {
    if gl != [] {
      var front, last := gl[..|gl| - 1], gl[|gl| - 1];
      IndexLists(key, front);
      assert gl == front + [last];
      forall k, r ensures r in At(Index(key, gl), k) <==> Listed(gl, key, r, k) {
        ListedSnoc(key, front, last, r, k);
      }
    }
  }

  lemma ListedSnoc<K>(key: Gl -> K, front: seq<Gl>, last: Gl, r: string, k: K)
    ensures Listed(front + [last], key, r, k) <==> Listed(front, key, r, k) || (last.reference == r && key(last) == k)
  {
    forall h ensures h in front + [last] <==> h in front || h == last {
    }
  }

  lemma {:induction false} ByReferenceSurvives(gl: seq<Gl>)
    ensures forall r :: r in ByReference(gl) ==>
      ByReference(gl)[r] in Survivors(gl) && ByReference(gl)[r].reference == r
    ensures forall g :: g in Survivors(gl) ==> g.reference in ByReference(gl) && ByReference(gl)[g.reference] == g
  {
    if gl != [] {
      var front, last := gl[..|gl| - 1], gl[|gl| - 1];
      ByReferenceSurvives(front);
      SurvivorsFacts(front);
      var kept := Survivors(front);
      var i := Place(kept, last.reference);
      if i < |kept| {
        Replaced(kept, i, last);
      } else {
        forall g | g in kept ensures g.reference != last.reference {
          var k :| 0 <= k < |kept| && kept[k] == g;
        }
      }
    }
  }

  lemma Replaced(kept: seq<Gl>, i: nat, last: Gl)
    requires DistinctReferences(kept) && i < |kept| && kept[i].reference == last.reference
    ensures forall g :: g in kept[i := last] <==> g == last || (g in kept && g.reference != last.reference)
  {
    var s := kept[i := last];
    assert s[i] == last;
    forall g | g in kept && g.reference != last.reference ensures g in s {
      var k :| 0 <= k < |kept| && kept[k] == g;
      assert s[k] == g;
    }
    forall g | g in s && g != last ensures g in kept && g.reference != last.reference {
      var k :| 0 <= k < |s| && s[k] == g;
      assert kept[k].reference != kept[i].reference;
    }
  }

  lemma InitialOpen(gl: seq<Gl>)
    ensures OpenOk(Survivors(gl), ByReference(gl))
    ensures Left(Survivors(gl), ByReference(gl).Keys) == Survivors(gl)
  {
    SurvivorsFacts(gl);
    ByReferenceSurvives(gl);
    LeftAll(Survivors(gl), ByReference(gl).Keys);
  }
}
