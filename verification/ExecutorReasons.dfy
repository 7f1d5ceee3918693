/**
  Why a run writes the rows it writes, whom it launches, when it halts and what it counts, in terms of the
  world's answers alone (prompt_engine/executor.py, execution_transaction.py, rework_engine.py).
*/
module ExecutorReasons {
  import opened Wrappers
  import opened PromptTypes
  import opened ExecutorSpec
  import opened ExecutorProps

  // ----- One transaction -----

  /** Phases 2 to 5 went through: sanitizer, firewall, dependencies, health and baseline pytest. */
  predicate Cleared(t: TxWorld, depsOk: bool) {
    && (t.crashAt == 0 || t.crashAt > 5)
    && t.sanitizeOk && t.firewallOk && depsOk && t.healthOk && t.precheckOk
  }

  /** The dependency check is reached. */
  predicate AtGate(t: TxWorld) { (t.crashAt == 0 || t.crashAt > 4) && t.sanitizeOk && t.firewallOk }

  /** Every check went through, guards included, and no phase up to pytest raised. */
  predicate Passed(t: TxWorld, depsOk: bool) {
    && (t.crashAt == 0 || t.crashAt > 8)
    && t.sanitizeOk && t.firewallOk && depsOk && t.healthOk && t.precheckOk
    && t.repoGuardOk && t.fileGuardOk
  }

  lemma TransactionDecides(t: TxWorld, depsOk: bool)
    ensures TxStatus(t, depsOk) == Succeeded <==> Passed(t, depsOk) && t.completed && t.pytestOk
    ensures TxStatus(t, depsOk) == ReworkRequired <==> Passed(t, depsOk) && !(t.completed && t.pytestOk)
    ensures TxStatus(t, depsOk) == Failed <==> !Passed(t, depsOk)
    ensures Launched(t, depsOk) <==> Cleared(t, depsOk)
    ensures GateReached(t) <==> AtGate(t)
  {
  }

  // ----- One rework attempt -----

  /** Both guards of an attempt went through. */
  predicate Guarded(r: ReworkWorld) { r.guardOk && r.sizeOk }

  lemma AttemptDecides(w: World, id: string, attempt: nat)
    ensures var r, status := w.rework(id, attempt), ReworkStatus(w, id, attempt);
      && (status == Succeeded <==> w.hasReworkCallback && Guarded(r) && r.completed && r.pytestOk)
      && (status == Failed <==> w.hasReworkCallback && !Guarded(r))
      && (status == ReworkRequired <==> !w.hasReworkCallback || (Guarded(r) && !(r.completed && r.pytestOk)))
  {
  }

  // ----- Every row a run writes -----

  predicate Approved(p: Prompt, w: World) { p.risk == High ==> w.approveHighRisk }

  /** The prompt was launched when all its dependencies were successes. */
  predicate LaunchedReady(launches: seq<Launch>, p: Prompt) {
    exists l :: l in launches && l.prompt == p && forall d :: d in p.dependencies ==> d in l.successful
  }

  /** What must have happened for a row to be written about this prompt. */
  predicate RowJustified(r: LogRow, p: Prompt, w: World, launches: seq<Launch>) {
    var t := w.tx(p.promptId);
    && r.promptId == p.promptId
    && match r.status
       case Running => r.attempt == 0 && Approved(p, w)
       case Succeeded =>
         && Approved(p, w)
         && LaunchedReady(launches, p)
         && Passed(t, true)
         && if r.attempt == 0 then t.completed && t.pytestOk
            else 1 <= r.attempt <= w.maxRework && !(t.completed && t.pytestOk) && AttemptGood(w, p.promptId, r.attempt)
       case ReworkRequired =>
         && Approved(p, w)
         && LaunchedReady(launches, p)
         && Passed(t, true) && !(t.completed && t.pytestOk)
         && (r.attempt == 0 || (1 <= r.attempt <= w.maxRework && AttemptOpen(w, p.promptId, r.attempt)))
       case Failed =>
         || (r.attempt == 0 && (!Approved(p, w) || !Passed(t, true) || p.dependencies != []))
         || r.attempt == w.maxRework
         || (1 <= r.attempt <= w.maxRework && AttemptBlocked(w, p.promptId, r.attempt))
       case Pending => false
  }

  predicate AttemptGood(w: World, id: string, attempt: nat) {
    var r := w.rework(id, attempt);
    w.hasReworkCallback && Guarded(r) && r.completed && r.pytestOk
  }

  predicate AttemptOpen(w: World, id: string, attempt: nat) {
    var r := w.rework(id, attempt);
    !w.hasReworkCallback || (Guarded(r) && !(r.completed && r.pytestOk))
  }

  predicate AttemptBlocked(w: World, id: string, attempt: nat) {
    w.hasReworkCallback && !Guarded(w.rework(id, attempt))
  }

  /** All rows after the first n are justified for the one prompt. */
  ghost predicate NewJustified(s: RunState, n: nat, p: Prompt, w: World) {
    n <= |s.log| && forall r :: r in s.log[n..] ==> RowJustified(r, p, w, s.launches)
  }

  lemma AppendJustified(s: RunState, n: nat, row: LogRow, p: Prompt, w: World)
    requires NewJustified(s, n, p, w) && RowJustified(row, p, w, s.launches)
    ensures NewJustified(Append(s, row, w), n, p, w)
    ensures Append(s, row, w).launches == s.launches
  {
    hide RowJustified;
    assert (s.log + [row])[n..] == s.log[n..] + [row];
  }

  lemma BooksKeep(s: RunState, s': RunState, n: nat, p: Prompt, w: World)
    requires NewJustified(s, n, p, w) && s'.log == s.log && s'.launches == s.launches
    ensures NewJustified(s', n, p, w)
  {
  }

  /** The prompt is being reworked: its transaction passed, but was incomplete or left failing tests. */
  predicate UnderRework(p: Prompt, w: World, launches: seq<Launch>) {
    var t := w.tx(p.promptId);
    Approved(p, w) && LaunchedReady(launches, p) && Passed(t, true) && !(t.completed && t.pytestOk)
  }

  lemma AttemptRowJustified(p: Prompt, attempt: nat, w: World, launches: seq<Launch>)
    requires UnderRework(p, w, launches) && 1 <= attempt <= w.maxRework
    ensures RowJustified(LogRow(p.promptId, ReworkStatus(w, p.promptId, attempt), attempt), p, w, launches)
  {
    hide ReworkStatus, LaunchedReady, Passed, Approved;
    AttemptDecides(w, p.promptId, attempt);
  }

  lemma ExhaustedJustified(p: Prompt, w: World, launches: seq<Launch>)
    ensures RowJustified(LogRow(p.promptId, Failed, w.maxRework), p, w, launches)
  {
    hide LaunchedReady, Passed, Approved;
  }

  lemma {:induction false} ReworkJustified(s: RunState, n: nat, p: Prompt, attempt: nat, w: World)
    requires NewJustified(s, n, p, w) && UnderRework(p, w, s.launches) && attempt >= 1
    ensures NewJustified(Rework(s, p, attempt, w), n, p, w)
    decreases w.maxRework - attempt
  {
    hide NewJustified, UnderRework, RowJustified, ReworkStatus, Append;
    var id := p.promptId;
    if attempt > w.maxRework {
      ExhaustedJustified(p, w, s.launches);
      var row := LogRow(id, Failed, w.maxRework);
      AppendJustified(s, n, row, p, w);
      BooksKeep(Append(s, row, w), Rework(s, p, attempt, w), n, p, w);
    } else if ReworkRaises(w, id, attempt) {
      BooksKeep(s, Rework(s, p, attempt, w), n, p, w);
    } else {
      var status := ReworkStatus(w, id, attempt);
      var row := LogRow(id, status, attempt);
      AttemptRowJustified(p, attempt, w, s.launches);
      AppendJustified(s, n, row, p, w);
      var next := Append(s, row, w).(details := s.details[id := status]);
      BooksKeep(Append(s, row, w), next, n, p, w);
      if status == Succeeded || status == Failed {
        BooksKeep(next, Rework(s, p, attempt, w), n, p, w);
      } else {
        ReworkJustified(next, n, p, attempt + 1, w);
      }
    }
  }

  lemma TransactionRowJustified(s: RunState, p: Prompt, w: World)
    requires Approved(p, w)
    ensures var t, depsOk := w.tx(p.promptId), DependenciesMet(p, s.successful);
      && RowJustified(LogRow(p.promptId, TxStatus(t, depsOk), 0), p, w, TxBooks(s, p, t).launches)
      && (TxStatus(t, depsOk) == ReworkRequired ==> UnderRework(p, w, TxBooks(s, p, t).launches))
  {
    hide TxStatus, Launched;
    var t, depsOk := w.tx(p.promptId), DependenciesMet(p, s.successful);
    TransactionDecides(t, depsOk);
    if Passed(t, depsOk) {
      var l := Launch(p, s.successful);
      assert l in TxBooks(s, p, t).launches;
    }
  }

  lemma MoreLaunches(s: RunState, s': RunState, n: nat, p: Prompt, w: World)
    requires NewJustified(s, n, p, w) && s'.log == s.log
    requires forall l :: l in s.launches ==> l in s'.launches
    ensures NewJustified(s', n, p, w)
  {
    forall r | r in s'.log[n..] ensures RowJustified(r, p, w, s'.launches) {
      assert RowJustified(r, p, w, s.launches);
    }
  }

  lemma ExecuteJustified(s: RunState, p: Prompt, w: World)
    requires Approved(p, w)
    ensures NewJustified(Execute(s, p, w), |s.log|, p, w)
  {
    hide Rework, RowJustified, UnderRework, TxStatus, NewJustified, Append;
    var id, n, t := p.promptId, |s.log|, w.tx(p.promptId);
    NoneYet(s, p, w);
    var running := LogRow(id, Running, 0);
    RunningJustified(s, p, w);
    AppendJustified(s, n, running, p, w);
    var s1 := Append(s, running, w);
    if !w.appendOk(s.appends) {
      BooksKeep(s1, Execute(s, p, w), n, p, w);
    } else {
      AppendBooks(s, running, w);
      var books := TxBooks(s1, p, t);
      MoreLaunches(s1, books, n, p, w);
      TransactionRowJustified(s1, p, w);
      var decided := TxStatus(t, DependenciesMet(p, s.successful));
      var row := LogRow(id, decided, 0);
      AppendJustified(books, n, row, p, w);
      var s2 := Append(books, row, w);
      var status := if w.appendOk(s1.appends) then decided else Failed;
      var s3 := s2.(details := s.details[id := status]);
      BooksKeep(s2, s3, n, p, w);
      if status == ReworkRequired {
        ReworkJustified(s3, n, p, 1, w);
      } else {
        BooksKeep(s3, Execute(s, p, w), n, p, w);
      }
    }
  }

  lemma AppendBooks(s: RunState, row: LogRow, w: World)
    ensures Append(s, row, w).successful == s.successful && Append(s, row, w).details == s.details
    ensures Append(s, row, w).executed == s.executed && Append(s, row, w).skipped == s.skipped
    ensures Append(s, row, w).launches == s.launches && Append(s, row, w).gateFailures == s.gateFailures
  {
  }

  lemma NoneYet(s: RunState, p: Prompt, w: World)
    ensures NewJustified(s, |s.log|, p, w)
  {
    assert s.log[|s.log|..] == [];
  }

  lemma RunningJustified(s: RunState, p: Prompt, w: World)
    requires Approved(p, w)
    ensures RowJustified(LogRow(p.promptId, Running, 0), p, w, s.launches)
  {
  }

  lemma BlockedJustified(p: Prompt, w: World, launches: seq<Launch>)
    requires !Approved(p, w)
    ensures RowJustified(LogRow(p.promptId, Failed, 0), p, w, launches)
  {
    hide LaunchedReady, Passed;
  }

  lemma ProcessJustified(s: RunState, p: Prompt, w: World)
    requires !Stopped(s)
    ensures NewJustified(Process(s, p, w), |s.log|, p, w)
  {
    hide Execute, RowJustified, NewJustified, Append;
    NoneYet(s, p, w);
    if p.promptId in s.successful {
      BooksKeep(s, Process(s, p, w), |s.log|, p, w);
    } else if !Approved(p, w) {
      BlockedJustified(p, w, s.launches);
      AppendJustified(s, |s.log|, LogRow(p.promptId, Failed, 0), p, w);
      BooksKeep(Append(s, LogRow(p.promptId, Failed, 0), w), Process(s, p, w), |s.log|, p, w);
    } else {
      ExecuteJustified(s, p, w);
      BooksKeep(Execute(s, p, w), Process(s, p, w), |s.log|, p, w);
    }
  }

  predicate SomeJustified(r: LogRow, order: seq<Prompt>, w: World, launches: seq<Launch>) {
    exists p :: p in order && RowJustified(r, p, w, launches)
  }

  lemma StillJustified(r: LogRow, p: Prompt, w: World, launches: seq<Launch>, more: seq<Launch>)
    requires RowJustified(r, p, w, launches) && forall l :: l in launches ==> l in more
    ensures RowJustified(r, p, w, more)
  {
  }

  /**
    Every row a run adds has its reason in the world: a SUCCESS of attempt 0 that every check, both guards,
    the callback and pytest were good and the prompt was launched with its dependencies met; a later SUCCESS
    that its attempt was good; and so on for every status.
  */
  lemma {:induction false} EveryRowJustified(log: seq<LogRow>, order: seq<Prompt>, k: nat, w: World)
    requires k <= |order|
    ensures var s := After(log, order, k, w);
      log <= s.log && forall r :: r in s.log[|log|..] ==> SomeJustified(r, order, w, s.launches)
  {
    hide Process, RowJustified;
    if k == 0 {
      assert log[|log|..] == [];
    } else {
      EveryRowJustified(log, order, k - 1, w);
      var s, p := After(log, order, k - 1, w), order[k - 1];
      if !Stopped(s) {
        var s' := Process(s, p, w);
        ProcessFacts(s, p, w);
        ProcessJustified(s, p, w);
        assert s'.log[|log|..] == s.log[|log|..] + s'.log[|s.log|..];
        forall r | r in s'.log[|log|..] ensures SomeJustified(r, order, w, s'.launches) {
          if r in s.log[|log|..] {
            var q :| q in order && RowJustified(r, q, w, s.launches);
            StillJustified(r, q, w, s.launches, s'.launches);
          } else {
            assert p in order && RowJustified(r, p, w, s'.launches);
          }
        }
      }
    }
  }

  // ----- Launches -----

  /** Nothing is launched without approval or past a check that failed or raised. */
  lemma {:induction false} LaunchesCleared(log: seq<LogRow>, order: seq<Prompt>, k: nat, w: World)
    requires k <= |order|
    ensures forall l :: l in After(log, order, k, w).launches ==>
      Approved(l.prompt, w) && Cleared(w.tx(l.prompt.promptId), DependenciesMet(l.prompt, l.successful))
  {
    hide Process;
    if k > 0 {
      LaunchesCleared(log, order, k - 1, w);
      var s := After(log, order, k - 1, w);
      if !Stopped(s) {
        LaunchCleared(s, order[k - 1], w);
      }
    }
  }

  lemma LaunchCleared(s: RunState, p: Prompt, w: World)
    requires !Stopped(s)
    ensures Process(s, p, w).launches != s.launches ==>
      && Approved(p, w) && Cleared(w.tx(p.promptId), DependenciesMet(p, s.successful))
      && Process(s, p, w).launches == s.launches + [Launch(p, s.successful)]
  {
    hide Rework, TxStatus, Launched;
    ProcessFacts(s, p, w);
    TransactionDecides(w.tx(p.promptId), DependenciesMet(p, s.successful));
    var s1 := Append(s, LogRow(p.promptId, Running, 0), w);
    var status := TxStatus(w.tx(p.promptId), DependenciesMet(p, s.successful));
    var s2 := Append(TxBooks(s1, p, w.tx(p.promptId)), LogRow(p.promptId, status, 0), w);
    forall details { ReworkKeepsLaunches(s2.(details := details), p, 1, w); }
  }

  lemma {:induction false} ReworkKeepsLaunches(s: RunState, p: Prompt, attempt: nat, w: World)
    ensures Rework(s, p, attempt, w).launches == s.launches
    decreases w.maxRework - attempt
  {
    if attempt <= w.maxRework && !ReworkRaises(w, p.promptId, attempt) {
      var status := ReworkStatus(w, p.promptId, attempt);
      if status == ReworkRequired {
        var row := LogRow(p.promptId, status, attempt);
        ReworkKeepsLaunches(Append(s, row, w).(details := s.details[p.promptId := status]), p, attempt + 1, w);
      }
    }
  }

  // ----- The stop file -----

  /**
    After a prompt that was worked on without failing, the stop file and nothing else halts the run, and the run ends
    there.
  */
  lemma StopFileHalts(log: seq<LogRow>, order: seq<Prompt>, k: nat, w: World)
    requires k < |order| && !Stopped(After(log, order, k, w))
    requires var s := After(log, order, k + 1, w); s.failed.None? && !s.raised
    ensures After(log, order, k + 1, w).halted
       <==> order[k].promptId !in After(log, order, k, w).successful && w.stopFile(order[k].promptId)
    ensures After(log, order, k + 1, w).halted ==> Run(log, order, w) == After(log, order, k + 1, w)
  {
    hide Execute;
    var s := After(log, order, k, w);
    assert After(log, order, k + 1, w) == Process(s, order[k], w);
    ExecuteFacts(s, order[k], w);
    if After(log, order, k + 1, w).halted {
      StoppedStays(log, order, k + 1, |order|, w);
    }
  }

  /** A high-risk prompt without approval is not launched: the run ends with it as the failed prompt. */
  lemma UnapprovedStops(log: seq<LogRow>, order: seq<Prompt>, k: nat, w: World)
    requires k < |order| && !Stopped(After(log, order, k, w))
    requires order[k].risk == High && !w.approveHighRisk && order[k].promptId !in After(log, order, k, w).successful
    ensures var s, run := After(log, order, k, w), Run(log, order, w);
      && run.failed == Some(order[k].promptId) && run.launches == s.launches && run.successful == s.successful
      && (w.appendOk(s.appends) ==> run.log == s.log + [LogRow(order[k].promptId, Failed, 0)])
  {
    hide Execute;
    assert After(log, order, k + 1, w) == Process(After(log, order, k, w), order[k], w);
    StoppedStays(log, order, k + 1, |order|, w);
  }

  // ----- The counters -----

  /** Since s, as many prompts were counted as executed as were added to the successes. */
  predicate CountsNew(s: RunState, s': RunState) {
    && s.successful <= s'.successful
    && |s'.successful| - |s.successful| == s'.executed - s.executed
  }

  lemma AddOne(s: set<string>, x: string)
    requires x !in s
    ensures |s + {x}| == |s| + 1
  {
  }

  lemma {:induction false} ReworkCounts(s: RunState, p: Prompt, attempt: nat, w: World)
    requires p.promptId !in s.successful && !Stopped(s)
    ensures CountsNew(s, Rework(s, p, attempt, w))
    ensures !Stopped(Rework(s, p, attempt, w)) ==> Rework(s, p, attempt, w).executed == s.executed + 1
    decreases w.maxRework - attempt
  {
    AddOne(s.successful, p.promptId);
    if attempt <= w.maxRework && !ReworkRaises(w, p.promptId, attempt) {
      var status := ReworkStatus(w, p.promptId, attempt);
      if status == ReworkRequired {
        var row := LogRow(p.promptId, status, attempt);
        ReworkCounts(Append(s, row, w).(details := s.details[p.promptId := status]), p, attempt + 1, w);
      }
    }
  }

  lemma ExecuteCounts(s: RunState, p: Prompt, w: World)
    requires p.promptId !in s.successful && !Stopped(s)
    ensures CountsNew(s, Execute(s, p, w))
    ensures !Stopped(Execute(s, p, w)) ==> Execute(s, p, w).executed == s.executed + 1
  {
    hide Rework, TxStatus;
    AddOne(s.successful, p.promptId);
    var s1 := Append(s, LogRow(p.promptId, Running, 0), w);
    var t := w.tx(p.promptId);
    var status := TxStatus(t, DependenciesMet(p, s.successful));
    var s2 := Append(TxBooks(s1, p, t), LogRow(p.promptId, status, 0), w);
    if w.appendOk(s.appends) && w.appendOk(s1.appends) && status == ReworkRequired {
      ReworkCounts(s2.(details := s.details[p.promptId := status]), p, 1, w);
    }
  }

  lemma ProcessCounts(s: RunState, p: Prompt, w: World)
    requires !Stopped(s)
    ensures CountsNew(s, Process(s, p, w))
    ensures var s' := Process(s, p, w);
      s'.failed.None? && !s'.raised ==> s'.skipped + s'.executed == s.skipped + s.executed + 1
  {
    hide Execute;
    if p.promptId !in s.successful && Approved(p, w) {
      ExecuteCounts(s, p, w);
      ExecuteFacts(s, p, w);
    }
  }

  /**
    The counters of a run: executed counts the prompts that became successes in it, and while nothing has
    failed or halted, skipped and executed add up to the prompts dealt with.
  */
  lemma {:induction false} CountersAddUp(log: seq<LogRow>, order: seq<Prompt>, k: nat, w: World)
    requires k <= |order|
    ensures var s := After(log, order, k, w);
      && Successes(log) <= s.successful && s.executed == |s.successful| - |Successes(log)|
      && (!Stopped(s) ==> s.skipped + s.executed == k)
  {
    hide Process, Successes;
    if k > 0 {
      CountersAddUp(log, order, k - 1, w);
      var s := After(log, order, k - 1, w);
      if !Stopped(s) {
        ProcessCounts(s, order[k - 1], w);
      }
    }
  }
}
