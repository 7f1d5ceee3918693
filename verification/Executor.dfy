/** The prompt engine's run loop (prompt_engine/executor.py, execution_transaction.py, rework_engine.py). */
module Executor {
  import opened Wrappers
  import opened PromptTypes
  import opened DependencyGraphs
  import opened ExecutorSpec
  import opened ExecutorProps
  import opened ExecutorReasons
  import opened LedgerChain
  import opened LedgerSetup
  import opened LedgerAppend
  import opened LedgerUpdater
  import opened EngineLedger
  import opened LedgerIntegrity

  datatype RunError = LedgerIntegrity | Catalog(error: GraphError)

  /** The ledger file is the one the run found with the run's records appended. */
  ghost predicate InStep(ledger: PromptLedgerUpdater, found: Option<string>, written: seq<Record>)
    reads ledger
  {
    ledger.file == AppendAll(ledger.hash, found, written)
  }

  lemma InStepAtStart(ledger: PromptLedgerUpdater)
    ensures InStep(ledger, ledger.file, [])
  {
  }

  lemma AfterNone(log: seq<LogRow>, order: seq<Prompt>, w: World)
    ensures After(log, order, 0, w)
         == RunState(log, 0, Successes(log), StatusesFor(order, Latest(log)), 0, 0, None, false, false, [], [], [], [])
  {
  }

  lemma AfterNext(log: seq<LogRow>, order: seq<Prompt>, k: nat, w: World)
    requires k < |order| && !Stopped(After(log, order, k, w))
    ensures After(log, order, k + 1, w) == Process(After(log, order, k, w), order[k], w)
  {
  }

  /** An append changes the log and the records, or the lost rows, and nothing else. */
  lemma AppendIs(s: RunState, row: LogRow, w: World)
    ensures w.appendOk(s.appends) ==>
      Append(s, row, w) == RunState(s.log + [row], s.appends + 1, s.successful, s.details, s.skipped, s.executed,
                                    s.failed, s.halted, s.raised, s.launches, s.gateFailures,
                                    s.written + [RecordOf(row, w.texts(s.appends))], s.lost)
    ensures !w.appendOk(s.appends) ==>
      Append(s, row, w) == RunState(s.log, s.appends + 1, s.successful, s.details, s.skipped, s.executed, s.failed,
                                    s.halted, s.raised, s.launches, s.gateFailures, s.written, s.lost + [row])
  {
    hide RecordOf, Rework, Latest, After;
  }

  /** What one more round of the rework loop makes of its result. */
  lemma ReworkRound(s: RunState, p: Prompt, attempt: nat, w: World)
    ensures var id := p.promptId;
      && var status := ReworkStatus(w, id, attempt);
      && var next := Append(s, LogRow(id, status, attempt), w).(details := s.details[id := status]);
      if attempt > w.maxRework then
        Rework(s, p, attempt, w)
          == Append(s, LogRow(id, Failed, w.maxRework), w).(details := s.details[id := Failed], failed := Some(id))
      else if ReworkRaises(w, id, attempt) then Rework(s, p, attempt, w) == s.(raised := true)
      else if status == Succeeded then
        Rework(s, p, attempt, w) == next.(successful := s.successful + {id}, executed := s.executed + 1)
      else if status == Failed then Rework(s, p, attempt, w) == next.(failed := Some(id))
      else Rework(s, p, attempt, w) == Rework(next, p, attempt + 1, w)
  {
  }

  class PromptExecutionEngine {
    const ledger: PromptLedgerUpdater

    // The books of the current run.
    ghost var log: seq<LogRow>
    ghost var written: seq<Record>
    ghost var lost: seq<LogRow>
    var appends: nat
    var successful: set<string>
    var details: map<string, Status>
    var skipped: nat
    var executed: nat
    var failed: Option<string>
    var halted: bool
    var raised: bool
    var launches: seq<Launch>
    var gateFailures: seq<string>

    /** The ledger file as the current run found it. */
    ghost var found: Option<string>

    constructor (ledger: PromptLedgerUpdater)
      ensures this.ledger == ledger
    {
      this.ledger := ledger;
      log, written, lost, found := [], [], [], None;
      appends, successful, details, skipped, executed := 0, {}, map[], 0, 0;
      failed, halted, raised, launches, gateFailures := None, false, false, [], [];
    }

    ghost function State(): RunState
      reads this
    {
      RunState(log, appends, successful, details, skipped, executed, failed, halted, raised, launches, gateFailures,
        written, lost)
    }

    /**
      One run on the ledger file. It is admitted exactly when the file verifies, or can be repaired and may
      be, and the catalog has a topological order; it then ends in the state and leaves the file that
      `Run` describes. The dependency gate has never failed, and every prompt was launched with all its
      dependencies successful. A run that is not admitted appends nothing.
    */
    method RunUnlocked(prompts: seq<Prompt>, allowRepair: bool, w: World) returns (r: Result<seq<Prompt>, RunError>)
      modifies this, ledger
      ensures var file := Checked(ledger.hash, old(ledger.file), allowRepair);
        && (r.Success? <==>
             ChainOk(ledger.hash, RowsOf(file)) && NoMissing(prompts) && UniqueIds(prompts) && !Cyclic(prompts))
        && (r.Success? ==> IsTopologicalOrder(prompts, r.value) && State() == RunOn(file, r.value, w))
        && (r.Success? ==> ledger.file == FileAfter(ledger.hash, file, r.value, w))
        && (r.Failure? ==> ledger.file == file)
      ensures r.Success? ==> gateFailures == [] && forall l :: l in launches ==> DependenciesMet(l.prompt, l.successful)
    {
      var integrity := ledger.VerifyHashChain();
      if integrity.Failure? {
        if allowRepair {
          ledger.RepairHashChain();
          integrity := ledger.VerifyHashChain();
        }
        if integrity.Failure? {
          return Failure(LedgerIntegrity);
        }
      }
      var graph := new DependencyGraph(prompts);
      var sorted := graph.TopologicalOrder();
      if sorted.Failure? {
        return Failure(Catalog(sorted.error));
      }
      RunOrder(sorted.value, w);
      assert ledger.file == AppendAll(ledger.hash, found, written);
      GateNeverFails(LogOf(RowsOf(found)), sorted.value, |sorted.value|, w);
      return Success(sorted.value);
    }

    method ResetBooks(ghost rows: seq<LogRow>, done: set<string>, known: map<string, Status>)
      modifies this
      ensures found == old(found)
      ensures State() == RunState(rows, 0, done, known, 0, 0, None, false, false, [], [], [], [])
    {
      ResetLog(rows);
      ResetOutcome();
      appends, successful, details, skipped, executed := 0, done, known, 0, 0;
    }

    ghost method ResetLog(rows: seq<LogRow>)
      modifies `log, `written, `lost
      ensures log == rows && written == [] && lost == []
    {
      log, written, lost := rows, [], [];
    }

    method ResetOutcome()
      modifies `failed, `halted, `raised, `launches, `gateFailures
      ensures failed.None? && !halted && !raised && launches == [] && gateFailures == []
    {
      failed, halted, raised, launches, gateFailures := None, false, false, [], [];
    }

    /** What is successful so far is read from the file. */
    method ReadStatuses(order: seq<Prompt>) returns (done: set<string>, known: map<string, Status>)
      ensures done == Successes(LogOf(RowsOf(ledger.file)))
      ensures known == StatusesFor(order, Latest(LogOf(RowsOf(ledger.file))))
    {
      hide RowsOf, LogOf, Latest, StatusesFor;
      var statuses := ledger.LatestStatusMap();
      LogOfLatest(RowsOf(ledger.file));
      done := set p | p in statuses && statuses[p] == Succeeded;
      known := StatusesFor(order, statuses);
    }

    /** The run loop over the ordered prompts. */
    method RunOrder(order: seq<Prompt>, w: World)
      modifies this, ledger
      ensures found == old(ledger.file) && State() == RunOn(found, order, w)
      ensures InStep(ledger, found, written)
    {
      hide Process, RowsOf, LogOf, Start, After, InStep;
      var done, known := ReadStatuses(order);
      ghost var log0 := LogOf(RowsOf(ledger.file));
      found := ledger.file;
      ResetBooks(log0, done, known);
      InStepAtStart(ledger);
      AfterNone(log0, order, w);
      for i := 0 to |order|
        invariant found == old(ledger.file) && InStep(ledger, found, written)
        invariant log0 == LogOf(RowsOf(found)) && State() == After(log0, order, i, w)
        invariant !Stopped(State())
      {
        AfterNext(log0, order, i, w);
        ProcessPrompt(order[i], w);
        if failed.Some? || halted || raised {
          StoppedStays(log0, order, i + 1, |order|, w);
          return;
        }
      }
    }

    /** One iteration of the run loop. */
    method ProcessPrompt(p: Prompt, w: World)
      requires !Stopped(State()) && InStep(ledger, found, written)
      modifies this, ledger
      ensures InStep(ledger, found, written) && found == old(found)
      ensures State() == Process(old(State()), p, w)
    {
      hide InStep, Execute;
      var id := p.promptId;
      if id in successful {
        skipped := skipped + 1;
        details := details[id := Succeeded];
        return;
      }
      if p.risk == High && !w.approveHighRisk {
        failed := Some(id);
        details := details[id := Failed];
        var _ := AppendRow(LogRow(id, Failed, 0), w);
        return;
      }
      ExecuteFacts(State(), p, w);
      ExecutePrompt(p, w);
      if failed.Some? || raised {
        return;
      }
      halted := w.stopFile(id);
    }

    method ExecutePrompt(p: Prompt, w: World)
      requires !Stopped(State()) && InStep(ledger, found, written)
      modifies this, ledger
      ensures InStep(ledger, found, written) && found == old(found)
      ensures State() == Execute(old(State()), p, w)
    {
      hide InStep, Rework, TxStatus;
      var id := p.promptId;
      var running := AppendRow(LogRow(id, Running, 0), w);
      if !running {
        failed := Some(id);
        details := details[id := Failed];
        return;
      }
      var status := ExecuteTransaction(p, w);
      details := details[id := status];
      if status == Succeeded {
        successful := successful + {id};
        executed := executed + 1;
      } else if status == ReworkRequired {
        RunReworkLoop(p, w);
      } else {
        failed := Some(id);
      }
    }

    /**
      The ten phases of a transaction: the first check that fails, or raises, decides FAIL; every way out is
      finalized.
    */
    method ExecuteTransaction(p: Prompt, w: World) returns (status: Status)
      requires InStep(ledger, found, written)
      modifies this, ledger
      ensures InStep(ledger, found, written) && found == old(found)
      ensures var s, t := old(State()), w.tx(p.promptId);
        && var decided := TxStatus(t, DependenciesMet(p, s.successful));
        && State() == Append(TxBooks(s, p, t), LogRow(p.promptId, decided, 0), w)
        && status == if w.appendOk(s.appends) then decided else Failed
      ensures var s, t := old(State()), w.tx(p.promptId);
        && var depsOk := forall d :: d in p.dependencies ==> d in s.successful;
        && (status == Succeeded <==> Passed(t, depsOk) && t.completed && t.pytestOk && w.appendOk(s.appends))
        && (status == ReworkRequired <==>
              Passed(t, depsOk) && !(t.completed && t.pytestOk) && w.appendOk(s.appends))
        && launches == s.launches + (if Cleared(t, depsOk) then [Launch(p, s.successful)] else [])
        && gateFailures == s.gateFailures + (if AtGate(t) && !depsOk then [p.promptId] else [])
    {
      hide InStep, Append, Passed, Cleared, AtGate;
      var t := w.tx(p.promptId);
      TransactionDecides(t, DependenciesMet(p, successful));
      AppendBooks(TxBooks(State(), p, t), LogRow(p.promptId, TxStatus(t, DependenciesMet(p, successful)), 0), w);
      var decided := Failed;
      if 1 <= t.crashAt <= 2 || !t.sanitizeOk {
      } else if t.crashAt == 3 || !t.firewallOk {
      } else if t.crashAt == 4 {
      } else if exists d :: d in p.dependencies && d !in successful {
        gateFailures := gateFailures + [p.promptId];
      } else if t.crashAt == 5 || !t.healthOk || !t.precheckOk {
      } else {
        launches := launches + [Launch(p, successful)];
        if t.crashAt == 6 || t.crashAt == 7 || !t.repoGuardOk || !t.fileGuardOk {
        } else if t.crashAt == 8 {
        } else if !t.completed {
          decided := ReworkRequired;
        } else if !t.pytestOk {
          decided := ReworkRequired;
        } else {
          decided := Succeeded;
        }
      }
      status := Finalize(p, decided, w);
    }

    /** Writes the decided status; an append that fails turns it into FAIL. */
    method Finalize(p: Prompt, decided: Status, w: World) returns (status: Status)
      requires InStep(ledger, found, written)
      modifies this, ledger
      ensures InStep(ledger, found, written) && found == old(found)
      ensures State() == Append(old(State()), LogRow(p.promptId, decided, 0), w)
      ensures status == if w.appendOk(old(appends)) then decided else Failed
    {
      var ok := AppendRow(LogRow(p.promptId, decided, 0), w);
      status := if ok then decided else Failed;
    }

    /** At most maxRework attempts; the first that succeeds, fails hard or raises ends the loop. */
    method RunReworkLoop(p: Prompt, w: World)
      requires !Stopped(State()) && InStep(ledger, found, written)
      modifies this, ledger
      ensures InStep(ledger, found, written) && found == old(found)
      ensures State() == Rework(old(State()), p, 1, w)
    {
      hide InStep, ReworkStatus, Rework;
      var id, attempt := p.promptId, 1;
      while attempt <= w.maxRework
        invariant !Stopped(State()) && InStep(ledger, found, written) && found == old(found)
        invariant Rework(State(), p, attempt, w) == Rework(old(State()), p, 1, w)
      {
        ReworkRound(State(), p, attempt, w);
        if ReworkRaises(w, id, attempt) {
          raised := true;
          return;
        }
        var status := RunAttempt(p, attempt, w);
        details := details[id := status];
        if status == Succeeded {
          successful := successful + {id};
          executed := executed + 1;
          return;
        }
        if status == Failed {
          failed := Some(id);
          return;
        }
        attempt := attempt + 1;
      }
      ReworkRound(State(), p, attempt, w);
      var _ := AppendRow(LogRow(id, Failed, w.maxRework), w);
      details := details[id := Failed];
      failed := Some(id);
    }

    /** One rework attempt; its row may fail to reach the file without changing the status. */
    method RunAttempt(p: Prompt, attempt: nat, w: World) returns (status: Status)
      requires InStep(ledger, found, written)
      modifies this, ledger
      ensures InStep(ledger, found, written) && found == old(found)
      ensures status == ReworkStatus(w, p.promptId, attempt)
      ensures var r := w.rework(p.promptId, attempt);
        && (status == Succeeded <==> w.hasReworkCallback && Guarded(r) && r.completed && r.pytestOk)
        && (status == Failed <==> w.hasReworkCallback && !Guarded(r))
      ensures State() == Append(old(State()), LogRow(p.promptId, status, attempt), w)
    {
      var r := w.rework(p.promptId, attempt);
      if !w.hasReworkCallback {
        status := ReworkRequired;
      } else if !r.guardOk {
        status := Failed;
      } else if !r.sizeOk {
        status := Failed;
      } else if r.completed && r.pytestOk {
        status := Succeeded;
      } else {
        status := ReworkRequired;
      }
      var _ := AppendRow(LogRow(p.promptId, status, attempt), w);
    }

    /** One append to the ledger file, or one that fails and leaves the file alone. */
    method AppendRow(row: LogRow, w: World) returns (ok: bool)
      requires InStep(ledger, found, written)
      modifies this, ledger
      ensures InStep(ledger, found, written) && found == old(found)
      ensures State() == Append(old(State()), row, w)
      ensures ok == w.appendOk(old(appends))
    {
      hide AppendAll, AppendText, RecordOf, Append;
      ghost var before := State();
      AppendIs(before, row, w);
      ok := w.appendOk(appends);
      if ok {
        var record := RecordOf(row, w.texts(appends));
        ledger.AppendExecution(record);
        AppendAllSnoc(ledger.hash, found, written, record);
        log, written := log + [row], written + [record];
      } else {
        lost := lost + [row];
      }
      appends := appends + 1;
    }
  }
}
