/** Properties of whole runs of the prompt engine, for every world (prompt_engine/executor.py). */
module ExecutorProps {
  import opened Wrappers
  import opened PromptTypes
  import opened DependencyGraphs
  import opened ExecutorSpec

  // ----- What dealing with one prompt can change -----

  /** From s to s' only the given prompt was worked on. */
  ghost predicate OnlyTouches(s: RunState, s': RunState, id: string) {
    && s.log <= s'.log
    && (forall r :: r in s'.log[|s.log|..] ==> r.promptId == id)
    && s.successful <= s'.successful <= s.successful + {id}
    && (s'.failed == s.failed || s'.failed == Some(id))
    && s.appends <= s'.appends
    && OtherDetailsKept(s.details, s'.details, id)
  }

  ghost predicate OtherDetailsKept(a: map<string, Status>, b: map<string, Status>, id: string) {
    forall x :: x != id ==> SameStatus(a, b, x)
  }

  lemma TouchesTransitive(s: RunState, t: RunState, u: RunState, id: string)
    requires OnlyTouches(s, t, id) && OnlyTouches(t, u, id)
    ensures OnlyTouches(s, u, id)
  {
    assert u.log[|s.log|..] == t.log[|s.log|..] + u.log[|t.log|..];
    forall x | x != id ensures SameStatus(s.details, u.details, x) {
      assert SameStatus(s.details, t.details, x) && SameStatus(t.details, u.details, x);
    }
  }

  lemma AppendTouches(s: RunState, row: LogRow, v: Status, w: World)
    ensures OnlyTouches(s, Append(s, row, w).(details := s.details[row.promptId := v]), row.promptId)
  {
    assert (s.log + [row])[|s.log|..] == [row];
    assert s.log[|s.log|..] == [];
  }

  /** The end of a rework loop: success, failure or an exception, and only this prompt touched. */
  lemma {:induction false} ReworkFacts(s: RunState, p: Prompt, attempt: nat, w: World)
    requires !Stopped(s)
    ensures var s' := Rework(s, p, attempt, w);
      && OnlyTouches(s, s', p.promptId)
      && s'.launches == s.launches && s'.gateFailures == s.gateFailures && !s'.halted && s'.skipped == s.skipped
      && (!Stopped(s') ==>
           p.promptId in s'.successful && p.promptId in s'.details && s'.details[p.promptId] == Succeeded)
    decreases w.maxRework - attempt
  {
    var id := p.promptId;
    if attempt > w.maxRework {
      AppendTouches(s, LogRow(id, Failed, w.maxRework), Failed, w);
    } else if ReworkRaises(w, id, attempt) {
    } else {
      var status := ReworkStatus(w, id, attempt);
      AppendTouches(s, LogRow(id, status, attempt), status, w);
      var s' := Append(s, LogRow(id, status, attempt), w).(details := s.details[id := status]);
      if status == ReworkRequired {
        ReworkFacts(s', p, attempt + 1, w);
        TouchesTransitive(s, s', Rework(s', p, attempt + 1, w), id);
      }
    }
  }

  /** Dealing with a prompt touches only that prompt; if the loop may go on, the prompt is a success. */
  lemma ProcessFacts(s: RunState, p: Prompt, w: World)
    requires !Stopped(s)
    ensures var s', id := Process(s, p, w), p.promptId;
      && OnlyTouches(s, s', id)
      && (!s'.raised && s'.failed.None? ==> id in s'.successful && id in s'.details && s'.details[id] == Succeeded)
      && (s'.launches == s.launches || s'.launches == s.launches + [Launch(p, s.successful)])
      && (id in s.successful ==>
            s'.log == s.log && s'.appends == s.appends && s'.launches == s.launches && s'.skipped == s.skipped + 1 &&
              !Stopped(s'))
      && (id !in s.successful ==> s'.appends > s.appends && s'.skipped == s.skipped)
      && (DependenciesMet(p, s.successful) ==> s'.gateFailures == s.gateFailures)
  {
    var id := p.promptId;
    assert s.log[|s.log|..] == [];
    if id in s.successful {
    } else if p.risk == High && !w.approveHighRisk {
      AppendTouches(s, LogRow(id, Failed, 0), Failed, w);
    } else {
      ExecuteFacts(s, p, w);
    }
  }

  lemma ExecuteFacts(s: RunState, p: Prompt, w: World)
    requires !Stopped(s)
    ensures var s', id := Execute(s, p, w), p.promptId;
      && OnlyTouches(s, s', id) && s'.appends > s.appends && s'.skipped == s.skipped && !s'.halted
      && (!Stopped(s') ==> id in s'.successful && id in s'.details && s'.details[id] == Succeeded)
      && (s'.launches == s.launches || s'.launches == s.launches + [Launch(p, s.successful)])
      && (DependenciesMet(p, s.successful) ==> s'.gateFailures == s.gateFailures)
  {
    var id := p.promptId;
    var s1 := Append(s, LogRow(id, Running, 0), w);
    if !w.appendOk(s.appends) {
      AppendTouches(s, LogRow(id, Running, 0), Failed, w);
    } else {
      var decided := TxStatus(w.tx(id), DependenciesMet(p, s.successful));
      var status := if w.appendOk(s1.appends) then decided else Failed;
      var s1' := s1.(details := s.details[id := status]);
      var s2 := Append(TxBooks(s1, p, w.tx(id)), LogRow(id, decided, 0), w);
      var s3 := s2.(details := s.details[id := status]);
      AppendTouches(s, LogRow(id, Running, 0), status, w);
      assert (s1.log + [LogRow(id, decided, 0)])[|s1.log|..] == [LogRow(id, decided, 0)];
      assert s1.log[|s1.log|..] == [];
      assert OnlyTouches(s1', s3, id);
      TouchesTransitive(s, s1', s3, id);
      if status == ReworkRequired {
        ReworkFacts(s3, p, 1, w);
        TouchesTransitive(s, s3, Rework(s3, p, 1, w), id);
      }
    }
  }

  // ----- The dependency gate -----

  /** While the loop may go on, everything before position k is a success. */
  lemma {:induction false} EarlierSucceeded(log: seq<LogRow>, order: seq<Prompt>, k: nat, w: World)
    requires k <= |order| && !Stopped(After(log, order, k, w))
    ensures forall j :: 0 <= j < k ==> order[j].promptId in After(log, order, k, w).successful
  {
    if k > 0 {
      EarlierSucceeded(log, order, k - 1, w);
      ProcessFacts(After(log, order, k - 1, w), order[k - 1], w);
    }
  }

  lemma DependenciesDone(log: seq<LogRow>, order: seq<Prompt>, k: nat, w: World)
    requires k < |order| && !Stopped(After(log, order, k, w)) && DependenciesFirst(order)
    ensures DependenciesMet(order[k], After(log, order, k, w).successful)
  {
    EarlierSucceeded(log, order, k, w);
    forall d | d in order[k].dependencies ensures d in After(log, order, k, w).successful {
      var j :| 0 <= j < k && Ids(order[..k])[j] == d;
      assert order[j].promptId == d;
    }
  }

  /**
    In dependency order the gate of phase 4 never fails, and the prompt callback is only ever
    started for a prompt all of whose dependencies are successes at that moment.
  */
  lemma {:induction false} GateNeverFails(log: seq<LogRow>, order: seq<Prompt>, k: nat, w: World)
    requires k <= |order| && DependenciesFirst(order)
    ensures After(log, order, k, w).gateFailures == []
    ensures forall l :: l in After(log, order, k, w).launches ==> DependenciesMet(l.prompt, l.successful)
  {
    hide Process, OnlyTouches, DependenciesMet, DependenciesFirst;
    if k > 0 {
      GateNeverFails(log, order, k - 1, w);
      var s := After(log, order, k - 1, w);
      if !Stopped(s) {
        DependenciesDone(log, order, k - 1, w);
        ProcessFacts(s, order[k - 1], w);
      }
    }
  }

  // ----- Stopping at the first failure -----

  /** The run's new rows, launches and status changes concern only the first k prompts. */
  ghost predicate ConcernsOnly(log: seq<LogRow>, order: seq<Prompt>, s: RunState, k: nat)
    requires k <= |order|
  {
    && log <= s.log
    && (forall r :: r in s.log[|log|..] ==> r.promptId in Ids(order[..k]))
    && (forall l :: l in s.launches ==> l.prompt in order[..k])
    && (forall x :: x !in Ids(order[..k]) ==> SameStatus(StatusesFor(order, Latest(log)), s.details, x))
  }

  /** The first k prompts are known successes and reported as SUCCESS. */
  predicate SucceededUpTo(order: seq<Prompt>, s: RunState, k: nat)
    requires k <= |order|
  {
    forall j :: 0 <= j < k ==>
      && order[j].promptId in s.successful
      && order[j].promptId in s.details && s.details[order[j].promptId] == Succeeded
  }

  /** Rows, launches and status changes of the first k prompts concern those prompts only. */
  lemma {:induction false} OnlyEarlierTouched(log: seq<LogRow>, order: seq<Prompt>, k: nat, w: World)
    requires k <= |order|
    ensures ConcernsOnly(log, order, After(log, order, k, w), k)
  {
    if k > 0 {
      hide ConcernsOnly, Process, Start;
      OnlyEarlierTouched(log, order, k - 1, w);
      var s := After(log, order, k - 1, w);
      OneMoreId(order, k);
      if Stopped(s) {
        StillConcernsOnly(log, order, s, k);
      } else {
        ProcessConcernsOnly(log, order, s, k, w);
      }
    }
  }

  lemma OneMoreId(order: seq<Prompt>, k: nat)
    requires 0 < k <= |order|
    ensures order[..k] == order[..k - 1] + [order[k - 1]]
    ensures Ids(order[..k]) == Ids(order[..k - 1]) + [order[k - 1].promptId]
  {
    assert order[..k] == order[..k - 1] + [order[k - 1]];
  }

  lemma StillConcernsOnly(log: seq<LogRow>, order: seq<Prompt>, s: RunState, k: nat)
    requires 0 < k <= |order| && ConcernsOnly(log, order, s, k - 1)
    ensures ConcernsOnly(log, order, s, k)
  {
    hide SameStatus, StatusesFor, Latest, Ids;
    OneMoreId(order, k);
  }

  lemma ProcessConcernsOnly(log: seq<LogRow>, order: seq<Prompt>, s: RunState, k: nat, w: World)
    requires 0 < k <= |order| && ConcernsOnly(log, order, s, k - 1) && !Stopped(s)
    ensures ConcernsOnly(log, order, Process(s, order[k - 1], w), k)
  {
    hide StatusesFor, Latest, Ids, Process;
    var p := order[k - 1];
    var s' := Process(s, p, w);
    OneMoreId(order, k);
    ProcessFacts(s, p, w);
    assert s'.log[|log|..] == s.log[|log|..] + s'.log[|s.log|..];
    forall x | x !in Ids(order[..k]) ensures SameStatus(StatusesFor(order, Latest(log)), s'.details, x) {
      assert SameStatus(StatusesFor(order, Latest(log)), s.details, x);
      assert SameStatus(s.details, s'.details, x);
    }
  }

  lemma {:induction false} EarlierReported(log: seq<LogRow>, order: seq<Prompt>, k: nat, w: World)
    requires k <= |order| && UniqueIds(order) && !Stopped(After(log, order, k, w))
    ensures SucceededUpTo(order, After(log, order, k, w), k)
  {
    hide Process, Start, OnlyTouches;
    if k > 0 {
      EarlierReported(log, order, k - 1, w);
      ReportKept(After(log, order, k - 1, w), order, k - 1, w);
      ProcessFacts(After(log, order, k - 1, w), order[k - 1], w);
    }
  }

  /** Dealing with prompt k does not disturb the reports on earlier prompts. */
  lemma ReportKept(s: RunState, order: seq<Prompt>, k: nat, w: World)
    requires k < |order| && UniqueIds(order) && !Stopped(s) && SucceededUpTo(order, s, k)
    ensures SucceededUpTo(order, Process(s, order[k], w), k)
  {
    ProcessFacts(s, order[k], w);
    var s' := Process(s, order[k], w);
    forall j | 0 <= j < k
      ensures order[j].promptId in s'.details && s'.details[order[j].promptId] == Succeeded
    {
      assert SameStatus(s.details, s'.details, order[j].promptId);
    }
  }

  /**
    A run that fails at a prompt has everything before it in the order as SUCCESS; nothing after
    it is started, gets a row, or changes its reported status.
  */
  lemma FailureStopsTheRun(log: seq<LogRow>, order: seq<Prompt>, w: World) returns (i: nat)
    requires UniqueIds(order) && Run(log, order, w).failed.Some?
    ensures i < |order|
    ensures Run(log, order, w).failed == Some(order[i].promptId)
    ensures SucceededUpTo(order, Run(log, order, w), i)
    ensures ConcernsOnly(log, order, Run(log, order, w), i + 1)
  {
    hide Process, Start, ConcernsOnly, SucceededUpTo, OnlyTouches;
    i := FirstStop(log, order, |order|, w);
    StoppedStays(log, order, i + 1, |order|, w);
    OnlyEarlierTouched(log, order, i + 1, w);
    EarlierReported(log, order, i, w);
    ReportKept(After(log, order, i, w), order, i, w);
    ProcessFacts(After(log, order, i, w), order[i], w);
  }

  /** The position at which a run stopped. */
  lemma {:induction false} FirstStop(log: seq<LogRow>, order: seq<Prompt>, k: nat, w: World) returns (i: nat)
    requires k <= |order| && Stopped(After(log, order, k, w))
    ensures i < k && !Stopped(After(log, order, i, w)) && Stopped(After(log, order, i + 1, w))
  {
    if Stopped(After(log, order, k - 1, w)) {
      i := FirstStop(log, order, k - 1, w);
    } else {
      i := k - 1;
    }
  }

  // ----- The books and the ledger -----

  predicate NonEmptyIds(order: seq<Prompt>) {
    forall p :: p in order ==> p.promptId != ""
  }

  ghost predicate AllAppended(w: World) {
    forall n :: w.appendOk(n)
  }

  lemma LatestSnoc(log: seq<LogRow>, row: LogRow)
    requires row.promptId != ""
    ensures Latest(log + [row]) == Latest(log)[row.promptId := row.status]
    ensures Successes(log + [row])
         == if row.status == Succeeded then Successes(log) + {row.promptId} else Successes(log) - {row.promptId}
  {
    assert (log + [row])[..|log|] == log;
  }

  /** The set of successes is the ledger's, and the details are the ledger's latest statuses. */
  ghost predicate BooksMatchLedger(s: RunState, ids: seq<string>) {
    && s.successful == Successes(s.log)
    && forall x :: x in ids ==>
         x in s.details && s.details[x] == (if x in Latest(s.log) then Latest(s.log)[x] else Pending)
  }

  /** Recording a status in the ledger and in the books together keeps them matched. */
  lemma RecordMatches(s: RunState, id: string, status: Status, attempt: int, ids: seq<string>, s': RunState)
    requires BooksMatchLedger(s, ids) && id != "" && id !in s.successful
    requires s'.log == s.log + [LogRow(id, status, attempt)]
    requires s'.details == s.details[id := status]
    requires s'.successful == if status == Succeeded then s.successful + {id} else s.successful
    ensures BooksMatchLedger(s', ids)
  {
    LatestSnoc(s.log, LogRow(id, status, attempt));
  }

  lemma {:induction false} ReworkMatches(s: RunState, p: Prompt, attempt: nat, w: World, ids: seq<string>)
    requires AllAppended(w) && BooksMatchLedger(s, ids) && p.promptId != "" && p.promptId !in s.successful
    ensures BooksMatchLedger(Rework(s, p, attempt, w), ids)
    decreases w.maxRework - attempt
  {
    var id := p.promptId;
    if attempt > w.maxRework {
      RecordMatches(s, id, Failed, w.maxRework, ids, Rework(s, p, attempt, w));
    } else if !ReworkRaises(w, id, attempt) {
      var status := ReworkStatus(w, id, attempt);
      var s' := Append(s, LogRow(id, status, attempt), w).(details := s.details[id := status]);
      if status == ReworkRequired {
        RecordMatches(s, id, status, attempt, ids, s');
        ReworkMatches(s', p, attempt + 1, w, ids);
      } else {
        RecordMatches(s, id, status, attempt, ids, Rework(s, p, attempt, w));
      }
    }
  }

  lemma ExecuteMatches(s: RunState, p: Prompt, w: World, ids: seq<string>)
    requires AllAppended(w) && BooksMatchLedger(s, ids) && p.promptId != "" && p.promptId !in s.successful
    ensures BooksMatchLedger(Execute(s, p, w), ids)
  {
    var id := p.promptId;
    var status := TxStatus(w.tx(id), DependenciesMet(p, s.successful));
    var s1 := Append(s, LogRow(id, Running, 0), w);
    var s3 := Append(TxBooks(s1, p, w.tx(id)), LogRow(id, status, 0), w).(details := s.details[id := status]);
    var running := s1.(details := s.details[id := Running]);
    RecordMatches(s, id, Running, 0, ids, running);
    assert running.details[id := status] == s.details[id := status];
    if status == ReworkRequired {
      RecordMatches(running, id, status, 0, ids, s3);
      ReworkMatches(s3, p, 1, w, ids);
    } else {
      RecordMatches(running, id, status, 0, ids, Execute(s, p, w));
    }
  }

  /** When every append reaches the file, the engine's books and the ledger agree throughout the run. */
  lemma {:induction false} LedgerMatchesBooks(log: seq<LogRow>, order: seq<Prompt>, k: nat, w: World)
    requires k <= |order| && AllAppended(w) && NonEmptyIds(order)
    ensures BooksMatchLedger(After(log, order, k, w), Ids(order))
  {
    hide Process, BooksMatchLedger, Start;
    if k == 0 {
      StartMatches(log, order);
    } else {
      LedgerMatchesBooks(log, order, k - 1, w);
      assert order[k - 1] in order;
      if !Stopped(After(log, order, k - 1, w)) {
        ProcessMatches(After(log, order, k - 1, w), order[k - 1], w, Ids(order));
      }
    }
  }

  lemma StartMatches(log: seq<LogRow>, order: seq<Prompt>)
    ensures BooksMatchLedger(Start(log, order), Ids(order))
  {
  }

  lemma ProcessMatches(s: RunState, p: Prompt, w: World, ids: seq<string>)
    requires AllAppended(w) && BooksMatchLedger(s, ids) && p.promptId != ""
    ensures BooksMatchLedger(Process(s, p, w), ids)
  {
    hide Execute, Latest;
    if p.promptId !in s.successful {
      if p.risk == High && !w.approveHighRisk {
        RecordMatches(s, p.promptId, Failed, 0, ids, Process(s, p, w));
      } else {
        ExecuteMatches(s, p, w, ids);
      }
    }
  }

  // ----- SUCCESS is final -----

  lemma {:induction false} OthersRowsKeepStatus(log: seq<LogRow>, log': seq<LogRow>, id: string, x: string)
    requires log <= log' && x != id
    requires forall r :: r in log'[|log|..] ==> r.promptId == id
    ensures SameStatus(Latest(log), Latest(log'), x)
  {
    if |log'| > |log| {
      var front := log'[..|log'| - 1];
      assert log'[|log|..] == front[|log|..] + [log'[|log'| - 1]];
      OthersRowsKeepStatus(log, front, id, x);
    } else {
      assert log' == log;
    }
  }

  /** A prompt whose latest status is SUCCESS keeps it through every run, whatever happens to the appends. */
  lemma {:induction false} SuccessIsFinal(log: seq<LogRow>, order: seq<Prompt>, k: nat, w: World, x: string)
    requires k <= |order| && x in Successes(log)
    ensures var s := After(log, order, k, w); x in Successes(s.log) && x in s.successful
    ensures forall l :: l in After(log, order, k, w).launches ==> l.prompt.promptId != x
  {
    if k > 0 {
      SuccessIsFinal(log, order, k - 1, w, x);
      var s, p := After(log, order, k - 1, w), order[k - 1];
      if !Stopped(s) {
        ProcessFacts(s, p, w);
        if p.promptId != x {
          OthersRowsKeepStatus(s.log, Process(s, p, w).log, p.promptId, x);
        }
      }
    }
  }

  // ----- Running again -----

  lemma {:induction false} SkipsWhileSuccess(log: seq<LogRow>, order: seq<Prompt>, k: nat, w: World)
    requires k <= |order| && forall j :: 0 <= j < k ==> order[j].promptId in Successes(log)
    ensures var s := After(log, order, k, w);
      s.log == log && s.appends == 0 && s.launches == [] && s.skipped == k && s.successful == Successes(log) &&
        !Stopped(s)
  {
    if k > 0 {
      SkipsWhileSuccess(log, order, k - 1, w);
    }
  }

  lemma {:induction false} AppendsGrow(log: seq<LogRow>, order: seq<Prompt>, k: nat, n: nat, w: World)
    requires k <= n <= |order|
    ensures After(log, order, k, w).appends <= After(log, order, n, w).appends
  {
    if k < n {
      AppendsGrow(log, order, k, n - 1, w);
      var s := After(log, order, n - 1, w);
      if !Stopped(s) {
        ProcessFacts(s, order[n - 1], w);
      }
    }
  }

  /** A run attempts no append at all exactly when the ledger already has every prompt as SUCCESS. */
  lemma NoWorkIff(log: seq<LogRow>, order: seq<Prompt>, w: World)
    ensures Run(log, order, w).appends == 0 <==> forall p :: p in order ==> p.promptId in Successes(log)
    ensures Run(log, order, w).appends == 0 ==>
      Run(log, order, w).log == log && Run(log, order, w).launches == [] && Run(log, order, w).skipped == |order|
  {
    if i :| 0 <= i < |order| && order[i].promptId !in Successes(log) {
      assert order[i] in order;
      WorkStarts(log, order, w);
    } else {
      assert forall p :: p in order ==> exists j :: 0 <= j < |order| && order[j] == p;
      SkipsWhileSuccess(log, order, |order|, w);
    }
  }

  lemma WorkStarts(log: seq<LogRow>, order: seq<Prompt>, w: World)
    requires exists i :: 0 <= i < |order| && order[i].promptId !in Successes(log)
    ensures Run(log, order, w).appends > 0
  {
    hide Successes, Process, Start, OnlyTouches;
    var i := FirstUnfinished(log, order);
    SkipsWhileSuccess(log, order, i, w);
    ProcessFacts(After(log, order, i, w), order[i], w);
    AppendsGrow(log, order, i + 1, |order|, w);
  }

  lemma {:induction false} FirstUnfinished(log: seq<LogRow>, order: seq<Prompt>) returns (i: nat)
    requires exists k :: 0 <= k < |order| && order[k].promptId !in Successes(log)
    ensures i < |order| && order[i].promptId !in Successes(log)
    ensures forall j :: 0 <= j < i ==> order[j].promptId in Successes(log)
  {
    i := 0;
    while order[i].promptId in Successes(log)
      invariant i < |order|
      invariant forall j :: 0 <= j < i ==> order[j].promptId in Successes(log)
      invariant exists k :: i <= k < |order| && order[k].promptId !in Successes(log)
      decreases |order| - i
    {
      i := i + 1;
    }
  }

  // ----- The rows one run writes for one prompt -----

  /**
    The rows of the rework attempts: numbered from 1, at most maxRework of them, every one but the
    last asking for more rework; a closing FAIL row exactly when all maxRework attempts asked for more.
  */
  predicate AttemptRows(rows: seq<LogRow>, id: string, first: nat, maxRework: int, n: nat) {
    && n <= |rows| <= n + 1
    && (n > 0 ==> first + n - 1 <= maxRework)
    && (forall i :: 0 <= i < n ==> rows[i].promptId == id && rows[i].attempt == first + i)
    && (forall i :: 0 <= i < n - 1 ==> rows[i].status == ReworkRequired)
    && (n > 0 ==> rows[n - 1].status in {Succeeded, Failed, ReworkRequired})
    && (|rows| == n + 1 ==>
          && rows[n] == LogRow(id, Failed, maxRework) && first + n > maxRework
          && (n > 0 ==> rows[n - 1].status == ReworkRequired))
  }

  ghost predicate ReworkRows(rows: seq<LogRow>, id: string, first: nat, maxRework: int) {
    exists n: nat :: AttemptRows(rows, id, first, maxRework, n)
  }

  /** Unless an exception ended it, the last new row says whether the prompt failed or succeeded. */
  predicate LastRowTells(rows: seq<LogRow>, s': RunState) {
    s'.raised || (rows != [] && rows[|rows| - 1].status == (if s'.failed.Some? then Failed else Succeeded))
  }

  lemma {:induction false} ReworkWrites(s: RunState, p: Prompt, attempt: nat, w: World) returns (rows: seq<LogRow>)
    requires AllAppended(w) && !Stopped(s)
    ensures Rework(s, p, attempt, w).log == s.log + rows
    ensures ReworkRows(rows, p.promptId, attempt, w.maxRework)
    ensures LastRowTells(rows, Rework(s, p, attempt, w))
    decreases w.maxRework - attempt
  {
    hide AttemptRows, ReworkStatus;
    var id := p.promptId;
    FirstRows(id, attempt, w.maxRework, ReworkStatus(w, id, attempt));
    ReworkStatusRange(w, id, attempt);
    if attempt > w.maxRework {
      rows := [LogRow(id, Failed, w.maxRework)];
    } else if ReworkRaises(w, id, attempt) {
      rows := [];
    } else {
      var status := ReworkStatus(w, id, attempt);
      var row := LogRow(id, status, attempt);
      if status == ReworkRequired {
        var next := Append(s, row, w).(details := s.details[id := status]);
        var rest := ReworkWrites(next, p, attempt + 1, w);
        rows := [row] + rest;
        var n: nat :| AttemptRows(rest, id, attempt + 1, w.maxRework, n);
        MoreAttempts(row, rest, id, attempt, w.maxRework, n);
      } else {
        rows := [row];
      }
    }
  }

  lemma FirstRows(id: string, attempt: nat, maxRework: int, status: Status)
    ensures attempt > maxRework ==> AttemptRows([LogRow(id, Failed, maxRework)], id, attempt, maxRework, 0)
    ensures AttemptRows([], id, attempt, maxRework, 0)
    ensures attempt <= maxRework && status in {Succeeded, Failed, ReworkRequired} ==>
      AttemptRows([LogRow(id, status, attempt)], id, attempt, maxRework, 1)
  {
  }

  lemma ReworkStatusRange(w: World, id: string, attempt: nat)
    ensures ReworkStatus(w, id, attempt) in {Succeeded, Failed, ReworkRequired}
  {
  }

  lemma MoreAttempts(row: LogRow, rest: seq<LogRow>, id: string, first: nat, maxRework: int, n: nat)
    requires row == LogRow(id, ReworkRequired, first) && first <= maxRework
    requires AttemptRows(rest, id, first + 1, maxRework, n)
    ensures AttemptRows([row] + rest, id, first, maxRework, n + 1)
  {
  }

  /** The block of rows one run writes for one prompt it works on. */
  ghost predicate IsBlock(rows: seq<LogRow>, id: string, maxRework: int) {
    || rows == [LogRow(id, Failed, 0)]
    || rows == [LogRow(id, Running, 0), LogRow(id, Succeeded, 0)]
    || rows == [LogRow(id, Running, 0), LogRow(id, Failed, 0)]
    || (|rows| >= 2 && rows[..2] == [LogRow(id, Running, 0), LogRow(id, ReworkRequired, 0)]
        && ReworkRows(rows[2..], id, 1, maxRework))
  }

  /**
    With every append on disk, the rows a prompt gets are exactly one such block - none at all for
    a prompt already successful - and the block's last row says how the prompt ended.
  */
  lemma BlockOfPrompt(s: RunState, p: Prompt, w: World) returns (rows: seq<LogRow>)
    requires AllAppended(w) && !Stopped(s)
    ensures Process(s, p, w).log == s.log + rows
    ensures p.promptId in s.successful ==> rows == []
    ensures p.promptId !in s.successful ==>
      IsBlock(rows, p.promptId, w.maxRework) && LastRowTells(rows, Process(s, p, w))
  {
    var id := p.promptId;
    rows := [];
    if id !in s.successful {
      if p.risk == High && !w.approveHighRisk {
        rows := [LogRow(id, Failed, 0)];
      } else {
        rows := BlockOfExecution(s, p, w);
      }
    }
  }

  lemma TxStatusRange(t: TxWorld, depsOk: bool)
    ensures TxStatus(t, depsOk) in {Failed, Succeeded, ReworkRequired}
  {
  }

  lemma BlockOfExecution(s: RunState, p: Prompt, w: World) returns (rows: seq<LogRow>)
    requires AllAppended(w) && !Stopped(s)
    ensures Execute(s, p, w).log == s.log + rows
    ensures IsBlock(rows, p.promptId, w.maxRework) && LastRowTells(rows, Execute(s, p, w))
  {
    hide Rework, AttemptRows, DependenciesMet, TxStatus;
    TxStatusRange(w.tx(p.promptId), DependenciesMet(p, s.successful));
    var id := p.promptId;
    var status := TxStatus(w.tx(id), DependenciesMet(p, s.successful));
    var s1 := Append(s, LogRow(id, Running, 0), w);
    var s3 := Append(TxBooks(s1, p, w.tx(id)), LogRow(id, status, 0), w).(details := s.details[id := status]);
    var head := [LogRow(id, Running, 0), LogRow(id, status, 0)];
    assert s3.log == s.log + head;
    rows := head;
    if status == ReworkRequired {
      var rest := ReworkWrites(s3, p, 1, w);
      rows := head + rest;
      assert rows[..2] == head && rows[2..] == rest;
      assert rest == [] ==> Execute(s, p, w).raised;
    }
  }
}
