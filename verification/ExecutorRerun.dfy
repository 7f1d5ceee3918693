/**
  What the next run finds after a complete one, when appends may have been lost (prompt_engine/executor.py,
  rework_engine.py).
*/
module ExecutorRerun {
  import opened Wrappers
  import opened PromptTypes
  import opened ExecutorSpec
  import opened ExecutorProps

  // ----- Lost rows -----

  predicate LostSuccess(lost: seq<LogRow>, id: string) {
    exists r :: r in lost && r.promptId == id && r.status == Succeeded
  }

  /** No row that says SUCCESS failed to reach the ledger. */
  predicate NoLostSuccess(lost: seq<LogRow>) {
    forall r :: r in lost ==> r.status != Succeeded
  }

  predicate LostFor(before: seq<LogRow>, after: seq<LogRow>, id: string) {
    before <= after && forall r :: r in after[|before|..] ==> r.promptId == id
  }

  lemma LostForStep(a: seq<LogRow>, b: seq<LogRow>, row: LogRow, id: string)
    requires LostFor(a, b, id) && row.promptId == id
    ensures LostFor(a, b + [row], id)
    ensures LostSuccess((b + [row])[|a|..], id) <==> LostSuccess(b[|a|..], id) || row.status == Succeeded
  {
    assert (b + [row])[|a|..] == b[|a|..] + [row];
  }

  lemma LostNothing(a: seq<LogRow>, id: string)
    ensures LostFor(a, a, id) && !LostSuccess(a[|a|..], id)
  {
    assert a[|a|..] == [];
  }

  /** Whether the ledger now says SUCCESS for the prompt being worked on, as far as it has been decided. */
  ghost predicate Undecided(s: RunState, s0: RunState, id: string) {
    && id in Latest(s.log) && Latest(s.log)[id] != Succeeded
    && LostFor(s0.lost, s.lost, id) && !LostSuccess(s.lost[|s0.lost|..], id)
  }

  ghost predicate Decided(s: RunState, s0: RunState, id: string) {
    && LostFor(s0.lost, s.lost, id)
    && (!s.raised && s.failed.None? ==> (id in Successes(s.log) <==> !LostSuccess(s.lost[|s0.lost|..], id)))
  }

  lemma AppendUndecided(s: RunState, s0: RunState, row: LogRow, w: World)
    requires Undecided(s, s0, row.promptId) && row.promptId != ""
    ensures var a := Append(s, row, w);
      && (row.status != Succeeded ==> Undecided(a, s0, row.promptId))
      && LostFor(s0.lost, a.lost, row.promptId)
      && (row.status == Succeeded ==>
            (row.promptId in Successes(a.log) <==> !LostSuccess(a.lost[|s0.lost|..], row.promptId)))
  {
    LatestSnoc(s.log, row);
    LostForStep(s0.lost, s.lost, row, row.promptId);
  }

  /** A rework loop that succeeds is in the ledger exactly when its SUCCESS row was not lost. */
  lemma {:induction false} ReworkDecides(s: RunState, s0: RunState, p: Prompt, attempt: nat, w: World)
    requires !Stopped(s) && p.promptId != "" && Undecided(s, s0, p.promptId)
    ensures Decided(Rework(s, p, attempt, w), s0, p.promptId)
    decreases w.maxRework - attempt
  {
    var id := p.promptId;
    if attempt > w.maxRework {
      AppendUndecided(s, s0, LogRow(id, Failed, w.maxRework), w);
    } else if !ReworkRaises(w, id, attempt) {
      var row := LogRow(id, ReworkStatus(w, id, attempt), attempt);
      AppendUndecided(s, s0, row, w);
      if row.status == ReworkRequired {
        ReworkDecides(Append(s, row, w).(details := s.details[id := row.status]), s0, p, attempt + 1, w);
      }
    }
  }

  /** A transaction that was started is decided by its own row, or by the rework that follows it. */
  lemma TransactionDecides(s1: RunState, s: RunState, p: Prompt, w: World)
    requires !Stopped(s1) && p.promptId != "" && Undecided(s1, s, p.promptId)
    ensures var id := p.promptId;
      var decided := TxStatus(w.tx(id), DependenciesMet(p, s.successful));
      var s2 := Append(TxBooks(s1, p, w.tx(id)), LogRow(id, decided, 0), w);
      && LostFor(s.lost, s2.lost, id)
      && (decided == Succeeded ==> (id in Successes(s2.log) <==> !LostSuccess(s2.lost[|s.lost|..], id)))
      && (decided == ReworkRequired ==> forall details :: Decided(Rework(s2.(details := details), p, 1, w), s, id))
  {
    hide Append, Rework, Latest, Successes, LostFor, LostSuccess, TxStatus, Launched, GateReached;
    var id := p.promptId;
    var decided := TxStatus(w.tx(id), DependenciesMet(p, s.successful));
    var books := TxBooks(s1, p, w.tx(id));
    var s2 := Append(books, LogRow(id, decided, 0), w);
    AppendUndecided(books, s, LogRow(id, decided, 0), w);
    if decided == ReworkRequired {
      forall details ensures Decided(Rework(s2.(details := details), p, 1, w), s, id) {
        AppendNeverStops(books, LogRow(id, decided, 0), w);
        ReworkDecides(s2.(details := details), s, p, 1, w);
      }
    }
  }

  lemma AppendNeverStops(s: RunState, row: LogRow, w: World)
    ensures Stopped(Append(s, row, w)) <==> Stopped(s)
  {
  }

  lemma ExecuteDecides(s: RunState, p: Prompt, w: World)
    requires !Stopped(s) && p.promptId != ""
    ensures Decided(Execute(s, p, w), s, p.promptId)
  {
    hide Rework, Latest, LostSuccess, TxStatus, Launched, GateReached;
    var id := p.promptId;
    LostNothing(s.lost, id);
    var running := LogRow(id, Running, 0);
    LatestSnoc(s.log, running);
    LostForStep(s.lost, s.lost, running, id);
    if w.appendOk(s.appends) {
      TransactionDecides(Append(s, running, w), s, p, w);
    }
  }

  // ----- The whole run -----

  ghost predicate LossBooks(s: RunState, order: seq<Prompt>, k: nat)
    requires k <= |order|
  {
    && (forall j :: 0 <= j < k ==> Settled(s, order[j].promptId))
    && (forall j :: k <= j < |order| ==> Untouched(s, order[j].promptId))
    && (forall r :: r in s.lost ==> exists j :: 0 <= j < k && order[j].promptId == r.promptId)
  }

  ghost predicate Settled(s: RunState, id: string) {
    id in Successes(s.log) <==> !LostSuccess(s.lost, id)
  }

  ghost predicate Untouched(s: RunState, id: string) {
    && (id in s.successful <==> id in Successes(s.log))
    && forall r :: r in s.lost ==> r.promptId != id
  }

  lemma LostSplit(before: seq<LogRow>, after: seq<LogRow>, id: string, x: string)
    requires LostFor(before, after, id)
    ensures x != id ==> (LostSuccess(after, x) <==> LostSuccess(before, x))
    ensures LostSuccess(after, id) <==> LostSuccess(before, id) || LostSuccess(after[|before|..], id)
    ensures forall r :: r in after <==> r in before || r in after[|before|..]
  {
    assert after == before + after[|before|..];
    forall r ensures r in after <==> r in before || r in after[|before|..] {
    }
  }

  /** One prompt that does not stop the run: its own entry is decided, nobody else's changes. */
  lemma ProcessDecides(s: RunState, p: Prompt, w: World)
    requires !Stopped(s) && p.promptId != "" && Untouched(s, p.promptId)
    requires !Process(s, p, w).raised && Process(s, p, w).failed.None?
    ensures Settled(Process(s, p, w), p.promptId)
    ensures LostFor(s.lost, Process(s, p, w).lost, p.promptId)
  {
    hide Execute, Latest;
    LostNothing(s.lost, p.promptId);
    if p.promptId !in s.successful {
      ExecuteDecides(s, p, w);
      LostSplit(s.lost, Execute(s, p, w).lost, p.promptId, p.promptId);
    }
  }

  lemma OthersKept(s: RunState, p: Prompt, w: World, x: string)
    requires !Stopped(s) && x != p.promptId && LostFor(s.lost, Process(s, p, w).lost, p.promptId)
    ensures Settled(s, x) ==> Settled(Process(s, p, w), x)
    ensures Untouched(s, x) ==> Untouched(Process(s, p, w), x)
  {
    hide Process, Latest;
    var s' := Process(s, p, w);
    ProcessFacts(s, p, w);
    OthersRowsKeepStatus(s.log, s'.log, p.promptId, x);
    SuccessesAgree(s.log, s'.log, x);
    LostSplit(s.lost, s'.lost, p.promptId, x);
  }

  lemma SuccessesAgree(a: seq<LogRow>, b: seq<LogRow>, x: string)
    requires SameStatus(Latest(a), Latest(b), x)
    ensures x in Successes(a) <==> x in Successes(b)
  {
  }

  /**
    A run that neither raised nor failed has dealt with its first m prompts, all of them unless the stop file halted
    it.
  */
  lemma {:induction false} LossAfter(log: seq<LogRow>, order: seq<Prompt>, k: nat, w: World) returns (m: nat)
    requires k <= |order| && UniqueIds(order) && NonEmptyIds(order)
    requires !After(log, order, k, w).raised && After(log, order, k, w).failed.None?
    ensures m <= k && LossBooks(After(log, order, k, w), order, m)
    ensures !Stopped(After(log, order, k, w)) ==> m == k
  {
    hide Process, Latest, Settled, Untouched, LostFor, LossBooks;
    m := 0;
    if k == 0 {
      StartUntouched(log, order);
    } else {
      var s := After(log, order, k - 1, w);
      StopsByHalt(log, order, k, w);
      m := LossAfter(log, order, k - 1, w);
      if !Stopped(s) {
        LossStep(s, order, k, w);
        m := k;
      }
    }
  }

  lemma StopsByHalt(log: seq<LogRow>, order: seq<Prompt>, k: nat, w: World)
    requires 0 < k <= |order| && !After(log, order, k, w).raised && After(log, order, k, w).failed.None?
    ensures !After(log, order, k - 1, w).raised && After(log, order, k - 1, w).failed.None?
  {
    hide Process;
  }

  lemma LossStep(s: RunState, order: seq<Prompt>, k: nat, w: World)
    requires 0 < k <= |order| && UniqueIds(order) && NonEmptyIds(order) && !Stopped(s) && LossBooks(s, order, k - 1)
    requires !Process(s, order[k - 1], w).raised && Process(s, order[k - 1], w).failed.None?
    ensures LossBooks(Process(s, order[k - 1], w), order, k)
  {
    hide Process, Latest, Settled, Untouched, LostFor;
    var p := order[k - 1];
    assert p in order;
    ProcessDecides(s, p, w);
    forall j | 0 <= j < |order| && j != k - 1
      ensures j < k ==> Settled(Process(s, p, w), order[j].promptId)
      ensures j >= k ==> Untouched(Process(s, p, w), order[j].promptId)
    {
      assert order[j].promptId != p.promptId;
      OthersKept(s, p, w, order[j].promptId);
    }
    LostIds(s.lost, Process(s, p, w).lost, order, k);
  }

  lemma StartUntouched(log: seq<LogRow>, order: seq<Prompt>)
    ensures LossBooks(Start(log, order), order, 0)
  {
  }

  lemma LostIds(before: seq<LogRow>, after: seq<LogRow>, order: seq<Prompt>, k: nat)
    requires 0 < k <= |order| && LostFor(before, after, order[k - 1].promptId)
    requires forall r :: r in before ==> exists j :: 0 <= j < k - 1 && order[j].promptId == r.promptId
    ensures forall r :: r in after ==> exists j :: 0 <= j < k && order[j].promptId == r.promptId
  {
    LostSplit(before, after, order[k - 1].promptId, order[k - 1].promptId);
    forall r | r in after ensures exists j :: 0 <= j < k && order[j].promptId == r.promptId {
      if r in before {
        var j :| 0 <= j < k - 1 && order[j].promptId == r.promptId;
      } else {
        assert order[k - 1].promptId == r.promptId;
      }
    }
  }

  /** A run that neither raised nor failed and ended with every prompt successful, perhaps halted by the stop file. */
  predicate Complete(s: RunState, order: seq<Prompt>) {
    !s.raised && s.failed.None? && forall p :: p in order ==> p.promptId in s.successful
  }

  lemma NotStoppedIsComplete(log: seq<LogRow>, order: seq<Prompt>, w: World)
    requires !Stopped(Run(log, order, w))
    ensures Complete(Run(log, order, w), order)
  {
    EarlierSucceeded(log, order, |order|, w);
  }

  /** In the ledger, after a complete run, every prompt is a success exactly when no SUCCESS row was lost. */
  lemma AllSuccessesIff(log: seq<LogRow>, order: seq<Prompt>, w: World)
    requires UniqueIds(order) && NonEmptyIds(order) && Complete(Run(log, order, w), order)
    ensures var s := Run(log, order, w);
      (forall p :: p in order ==> p.promptId in Successes(s.log)) <==> NoLostSuccess(s.lost)
  {
    hide Latest, Successes, After;
    var s := Run(log, order, w);
    var m := LossAfter(log, order, |order|, w);
    if NoLostSuccess(s.lost) {
      forall p | p in order ensures p.promptId in Successes(s.log) {
        var j :| 0 <= j < |order| && order[j] == p;
        assert j < m ==> Settled(s, order[j].promptId);
        assert j >= m ==> Untouched(s, order[j].promptId);
      }
    } else {
      var r :| r in s.lost && r.status == Succeeded;
      var j :| 0 <= j < m && order[j].promptId == r.promptId;
      assert Settled(s, order[j].promptId) && order[j] in order;
    }
  }

  /**
    After a complete run in any world, another run in any world appends nothing - and then launches
    nothing and skips every prompt - exactly when no SUCCESS row was lost.
  */
  lemma RerunIsNoOpIff(log: seq<LogRow>, order: seq<Prompt>, w: World, w': World)
    requires UniqueIds(order) && NonEmptyIds(order) && Complete(Run(log, order, w), order)
    ensures var again := Run(Run(log, order, w).log, order, w');
      && (again.appends == 0 <==> NoLostSuccess(Run(log, order, w).lost))
      && (again.appends == 0 ==>
            && again.log == Run(log, order, w).log && again.launches == [] && again.skipped == |order|
            && again.executed == 0 && again.failed.None? && again.written == [])
  {
    hide Process, Latest, Successes, After;
    var s := Run(log, order, w);
    AllSuccessesIff(log, order, w);
    NoWorkIff(s.log, order, w');
    if forall p :: p in order ==> p.promptId in Successes(s.log) {
      assert forall j :: 0 <= j < |order| ==> order[j] in order;
      NothingExecuted(s.log, order, |order|, w');
      SkipsWhileSuccess(s.log, order, |order|, w');
    }
  }

  lemma {:induction false} NothingExecuted(log: seq<LogRow>, order: seq<Prompt>, k: nat, w: World)
    requires k <= |order| && forall j :: 0 <= j < k ==> order[j].promptId in Successes(log)
    ensures After(log, order, k, w).executed == 0 && After(log, order, k, w).written == []
  {
    hide Successes, Execute;
    if k > 0 {
      NothingExecuted(log, order, k - 1, w);
      SkipsWhileSuccess(log, order, k - 1, w);
    }
  }

  // ----- A lost rework row -----

  /** One failed pytest run, one successful rework, and the third append of the run lost. */
  function LossyWorld(): World {
    World(true, true, 1,
          (id: string) => TxWorld(true, true, true, true, true, true, true, false, 0),
          (id: string, attempt: nat) => ReworkWorld(false, false, true, true, true, true),
          (n: nat) => n != 2,
          (id: string) => false,
          (n: nat) => Texts("Auth", "T1", [], "PASS", None, ""))
  }

  lemma ReworkRowLost(s: RunState, p: Prompt)
    requires s.appends == 2
    ensures Rework(s, p, 1, LossyWorld())
         == s.(appends := 3, lost := s.lost + [LogRow(p.promptId, Succeeded, 1)],
               details := s.details[p.promptId := Succeeded], successful := s.successful + {p.promptId},
               executed := s.executed + 1)
  {
    var w := LossyWorld();
    assert ReworkStatus(w, p.promptId, 1) == Succeeded;
    assert !ReworkRaises(w, p.promptId, 1);
    assert !w.appendOk(s.appends);
  }

  lemma LossyExecution(s: RunState, p: Prompt)
    requires s.appends == 0 && !Stopped(s) && p.dependencies == []
    ensures var e := Execute(s, p, LossyWorld());
      && !Stopped(e) && e.successful == s.successful + {p.promptId}
      && e.lost == s.lost + [LogRow(p.promptId, Succeeded, 1)]
  {
    hide Rework, LossyWorld;
    var w, id := LossyWorld(), p.promptId;
    LossyAnswers(id);
    var s1 := Append(s, LogRow(id, Running, 0), w);
    var s2 := Append(TxBooks(s1, p, w.tx(id)), LogRow(id, ReworkRequired, 0), w);
    ReworkRowLost(s2.(details := s.details[id := ReworkRequired]), p);
  }

  lemma LossyAnswers(id: string)
    ensures var w := LossyWorld();
      && w.appendOk(0) && w.appendOk(1)
      && TxStatus(w.tx(id), true) == ReworkRequired && w.approveHighRisk && !w.stopFile(id)
  {
  }

  /**
    A complete run that loses the SUCCESS row of a rework: whatever happens in the next run, it works on the prompt
    again.
  */
  lemma LostReworkIsRepeated(p: Prompt, w': World)
    requires p.promptId != "" && p.dependencies == []
    ensures var s := Run([], [p], LossyWorld());
      && Complete(s, [p]) && s.lost == [LogRow(p.promptId, Succeeded, 1)]
      && Run(s.log, [p], w').appends > 0
  {
    hide Execute, LossyWorld;
    var w, s0 := LossyWorld(), Start([], [p]);
    LossyAnswers(p.promptId);
    LossyExecution(s0, p);
    assert After([], [p], 0, w) == s0;
    assert s0.successful == {};
    assert Run([], [p], w) == After([], [p], 1, w) == Process(s0, p, w);
    RerunIsNoOpIff([], [p], w, w');
    assert LogRow(p.promptId, Succeeded, 1) in Run([], [p], w).lost;
  }
}
