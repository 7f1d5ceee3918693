/**
  What one run of the prompt engine does to the ledger and to its own books
  (prompt_engine/executor.py, execution_transaction.py, rework_engine.py).

  Everything the engine learns from the outside - guardrails, the prompt callback, pytest,
  the rework callback, whether an append reaches the disk, the stop file - is an answer of
  an arbitrary `World`.
*/
module ExecutorSpec {
  import opened Wrappers
  import opened PromptTypes
  import opened LedgerAppend

  /** The outside's answers during one execution transaction; crashAt is the phase that raises, 0 for none. */
  datatype TxWorld = TxWorld(sanitizeOk: bool, firewallOk: bool, healthOk: bool, precheckOk: bool,
                             repoGuardOk: bool, fileGuardOk: bool, completed: bool, pytestOk: bool, crashAt: nat)

  /** The outside's answers during one rework attempt, which may raise before or after the callback is looked up. */
  datatype ReworkWorld = ReworkWorld(raisesEarly: bool, raises: bool, guardOk: bool, sizeOk: bool, completed: bool,
                                     pytestOk: bool)

  /** The text a record takes from clock, catalog, callbacks, guards and exceptions. */
  datatype Texts = Texts(subsystem: string, timestamp: string, filesModified: seq<string>, testResults: string,
                         failureReason: Option<string>, notes: string)

  /** The n-th append of a run reaches the file if appendOk(n), with the texts texts(n). */
  datatype World = World(approveHighRisk: bool, hasReworkCallback: bool, maxRework: int,
                         tx: string -> TxWorld, rework: (string, nat) -> ReworkWorld,
                         appendOk: nat -> bool, stopFile: string -> bool, texts: nat -> Texts)

  /** A ledger row, as far as the engine's decisions depend on it. */
  datatype LogRow = LogRow(promptId: string, status: Status, attempt: int)

  /** One call of the prompt callback: the prompt and the successes known at that moment. */
  datatype Launch = Launch(prompt: Prompt, successful: set<string>)

  datatype RunState = RunState(log: seq<LogRow>, appends: nat, successful: set<string>, details: map<string, Status>,
                               skipped: nat, executed: nat, failed: Option<string>, halted: bool, raised: bool,
                               launches: seq<Launch>, gateFailures: seq<string>, written: seq<Record>,
                               lost: seq<LogRow>)

  predicate Stopped(s: RunState) { s.failed.Some? || s.halted || s.raised }

  predicate DependenciesMet(p: Prompt, successful: set<string>) {
    forall d :: d in p.dependencies ==> d in successful
  }

  // ----- The ledger -----

  function RecordOf(row: LogRow, t: Texts): Record {
    Record(row.promptId, t.subsystem, t.timestamp, row.status, row.attempt, t.filesModified, t.testResults,
      t.failureReason, t.notes)
  }

  /** One append: the record reaches the ledger, or its row is lost. */
  function Append(s: RunState, row: LogRow, w: World): RunState {
    if w.appendOk(s.appends) then
      s.(log := s.log + [row], appends := s.appends + 1, written := s.written + [RecordOf(row, w.texts(s.appends))])
    else
      s.(appends := s.appends + 1, lost := s.lost + [row])
  }

  /** latest_status_map over the abstract rows. */
  function Latest(log: seq<LogRow>): map<string, Status> {
    if log == [] then map[]
    else
      var front, last := log[..|log| - 1], log[|log| - 1];
      if last.promptId == "" then Latest(front) else Latest(front)[last.promptId := last.status]
  }

  function Successes(log: seq<LogRow>): set<string> {
    set p | p in Latest(log) && Latest(log)[p] == Succeeded
  }

  // ----- The execution transaction -----

  /** Whether phases 2 to 5 let the prompt callback run. */
  predicate Launched(t: TxWorld, depsOk: bool) {
    && !(1 <= t.crashAt <= 5)
    && t.sanitizeOk && t.firewallOk && depsOk && t.healthOk && t.precheckOk
  }

  /** Whether the dependency check of phase 4 is reached. */
  predicate GateReached(t: TxWorld) {
    !(1 <= t.crashAt <= 3) && t.sanitizeOk && t.firewallOk && t.crashAt != 4
  }

  /** The status the transaction decides before writing the ledger. */
  function TxStatus(t: TxWorld, depsOk: bool): Status {
    if !Launched(t, depsOk) || 6 <= t.crashAt <= 8 || !t.repoGuardOk || !t.fileGuardOk then Failed
    else if t.completed && t.pytestOk then Succeeded
    else ReworkRequired
  }

  function TxBooks(s: RunState, p: Prompt, t: TxWorld): RunState {
    var depsOk := DependenciesMet(p, s.successful);
    s.(launches := if Launched(t, depsOk) then s.launches + [Launch(p, s.successful)] else s.launches,
       gateFailures := if GateReached(t) && !depsOk then s.gateFailures + [p.promptId] else s.gateFailures)
  }

  // ----- The rework loop -----

  function ReworkStatus(w: World, id: string, attempt: nat): Status {
    var r := w.rework(id, attempt);
    if !w.hasReworkCallback then ReworkRequired
    else if !r.guardOk || !r.sizeOk then Failed
    else if r.completed && r.pytestOk then Succeeded
    else ReworkRequired
  }

  /** The first snapshot is taken with or without a callback; everything else that can raise needs one. */
  predicate ReworkRaises(w: World, id: string, attempt: nat) {
    w.rework(id, attempt).raisesEarly || (w.hasReworkCallback && w.rework(id, attempt).raises)
  }

  function Rework(s: RunState, p: Prompt, attempt: nat, w: World): RunState
    decreases w.maxRework - attempt
  {
    var id := p.promptId;
    if attempt > w.maxRework then
      Append(s, LogRow(id, Failed, w.maxRework), w).(details := s.details[id := Failed], failed := Some(id))
    else if ReworkRaises(w, id, attempt) then
      s.(raised := true)
    else
      var status := ReworkStatus(w, id, attempt);
      var s' := Append(s, LogRow(id, status, attempt), w).(details := s.details[id := status]);
      if status == Succeeded then s'.(successful := s.successful + {id}, executed := s.executed + 1)
      else if status == Failed then s'.(failed := Some(id))
      else Rework(s', p, attempt + 1, w)
  }

  // ----- One prompt of the run loop -----

  function Fail(s: RunState, id: string): RunState {
    s.(failed := Some(id), details := s.details[id := Failed])
  }

  /** A prompt that is neither skipped nor blocked: RUNNING row, transaction, perhaps rework. */
  function Execute(s: RunState, p: Prompt, w: World): RunState {
    var id := p.promptId;
    var s1 := Append(s, LogRow(id, Running, 0), w);
    if !w.appendOk(s.appends) then Fail(s1, id)
    else
      var decided := TxStatus(w.tx(id), DependenciesMet(p, s.successful));
      var s2 := Append(TxBooks(s1, p, w.tx(id)), LogRow(id, decided, 0), w);
      var status := if w.appendOk(s1.appends) then decided else Failed;
      var s3 := s2.(details := s.details[id := status]);
      if status == Succeeded then s3.(successful := s.successful + {id}, executed := s.executed + 1)
      else if status == ReworkRequired then Rework(s3, p, 1, w)
      else s3.(failed := Some(id))
  }

  function Process(s: RunState, p: Prompt, w: World): RunState {
    var id := p.promptId;
    if id in s.successful then
      s.(skipped := s.skipped + 1, details := s.details[id := Succeeded])
    else if p.risk == High && !w.approveHighRisk then
      Fail(Append(s, LogRow(id, Failed, 0), w), id)
    else
      var s' := Execute(s, p, w);
      if Stopped(s') then s' else s'.(halted := w.stopFile(id))
  }

  // ----- The run -----

  function StatusesFor(order: seq<Prompt>, statuses: map<string, Status>): map<string, Status> {
    map id | id in Ids(order) :: if id in statuses then statuses[id] else Pending
  }

  function Start(log: seq<LogRow>, order: seq<Prompt>): RunState {
    RunState(log, 0, Successes(log), StatusesFor(order, Latest(log)), 0, 0, None, false, false, [], [], [], [])
  }

  /** The state after the loop has dealt with the first k prompts, or stopped before that. */
  function After(log: seq<LogRow>, order: seq<Prompt>, k: nat, w: World): RunState
    requires k <= |order|
  {
    if k == 0 then Start(log, order)
    else
      var s := After(log, order, k - 1, w);
      if Stopped(s) then s else Process(s, order[k - 1], w)
  }

  function Run(log: seq<LogRow>, order: seq<Prompt>, w: World): RunState {
    After(log, order, |order|, w)
  }

  lemma {:induction false} StoppedStays(log: seq<LogRow>, order: seq<Prompt>, k: nat, n: nat, w: World)
    requires k <= n <= |order| && Stopped(After(log, order, k, w))
    ensures After(log, order, n, w) == After(log, order, k, w)
  {
    hide Process, Start;
    if k < n {
      StoppedStays(log, order, k, n - 1, w);
    }
  }
}
