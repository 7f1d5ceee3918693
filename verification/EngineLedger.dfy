/** Whole runs of the engine on the ledger file itself (prompt_engine/executor.py with ledger_updater.py). */
module EngineLedger {
  import opened Wrappers
  import opened PromptTypes
  import opened PyText
  import opened LedgerFormat
  import opened LedgerChain
  import opened LedgerSection
  import opened LedgerSetup
  import opened LedgerAppend
  import opened LedgerRepair
  import opened LedgerIntegrity
  import opened ExecutorSpec
  import opened ExecutorProps
  import opened ExecutorRerun

  // ----- Abstract rows and the file -----

  /** The abstract rows of the rows parsed from a file. */
  function LogOf(rows: seq<Cells>): seq<LogRow> {
    if rows == [] then []
    else
      var last := rows[|rows| - 1];
      LogOf(rows[..|rows| - 1])
      + (if CarriesStatus(last) then [LogRow(last[0], ParseStatus(last[3]).value, 0)] else [])
  }

  lemma {:induction false} LogOfLatest(rows: seq<Cells>)
    ensures Latest(LogOf(rows)) == StatusMap(rows)
  {
    if rows != [] {
      var front, last := rows[..|rows| - 1], rows[|rows| - 1];
      LogOfLatest(front);
      if CarriesStatus(last) {
        LatestSnoc(LogOf(front), LogRow(last[0], ParseStatus(last[3]).value, 0));
      } else {
        assert LogOf(front) + [] == LogOf(front);
      }
    }
  }

  function RowOf(r: Record): LogRow { LogRow(r.promptId, r.status, r.attempt) }

  function RowsOfRecords(rs: seq<Record>): seq<LogRow> {
    if rs == [] then [] else RowsOfRecords(rs[..|rs| - 1]) + [RowOf(rs[|rs| - 1])]
  }

  /** The run a ledger file leads to, and the file it leaves. */
  function RunOn(file: Option<string>, order: seq<Prompt>, w: World): RunState {
    Run(LogOf(RowsOf(file)), order, w)
  }

  function FileAfter(hash: string -> string, file: Option<string>, order: seq<Prompt>, w: World): Option<string> {
    AppendAll(hash, file, RunOn(file, order, w).written)
  }

  // ----- The records written are the rows logged -----

  predicate WrittenIsLogged(log: seq<LogRow>, s: RunState) {
    s.log == log + RowsOfRecords(s.written)
  }

  lemma AppendLogged(log: seq<LogRow>, s: RunState, row: LogRow, w: World)
    requires WrittenIsLogged(log, s)
    ensures WrittenIsLogged(log, Append(s, row, w))
  {
    if w.appendOk(s.appends) {
      var r := RecordOf(row, w.texts(s.appends));
      assert (s.written + [r])[..|s.written|] == s.written;
      assert log + (RowsOfRecords(s.written) + [row]) == log + RowsOfRecords(s.written) + [row];
    }
  }

  lemma {:induction false} ReworkLogged(log: seq<LogRow>, s: RunState, p: Prompt, attempt: nat, w: World)
    requires WrittenIsLogged(log, s)
    ensures WrittenIsLogged(log, Rework(s, p, attempt, w))
    decreases w.maxRework - attempt
  {
    var id := p.promptId;
    if attempt > w.maxRework {
      AppendLogged(log, s, LogRow(id, Failed, w.maxRework), w);
    } else if !ReworkRaises(w, id, attempt) {
      var row := LogRow(id, ReworkStatus(w, id, attempt), attempt);
      AppendLogged(log, s, row, w);
      if row.status == ReworkRequired {
        ReworkLogged(log, Append(s, row, w).(details := s.details[id := row.status]), p, attempt + 1, w);
      }
    }
  }

  lemma ProcessLogged(log: seq<LogRow>, s: RunState, p: Prompt, w: World)
    requires WrittenIsLogged(log, s)
    ensures WrittenIsLogged(log, Process(s, p, w))
  {
    var id := p.promptId;
    if id in s.successful {
    } else if p.risk == High && !w.approveHighRisk {
      AppendLogged(log, s, LogRow(id, Failed, 0), w);
    } else {
      ExecuteLogged(log, s, p, w);
    }
  }

  lemma ExecuteLogged(log: seq<LogRow>, s: RunState, p: Prompt, w: World)
    requires WrittenIsLogged(log, s)
    ensures WrittenIsLogged(log, Execute(s, p, w))
  {
    hide Rework, RowsOfRecords, TxStatus, DependenciesMet;
    var id := p.promptId;
    var s1 := Append(s, LogRow(id, Running, 0), w);
    AppendLogged(log, s, LogRow(id, Running, 0), w);
    var decided := TxStatus(w.tx(id), DependenciesMet(p, s.successful));
    AppendLogged(log, TxBooks(s1, p, w.tx(id)), LogRow(id, decided, 0), w);
    var s2 := Append(TxBooks(s1, p, w.tx(id)), LogRow(id, decided, 0), w);
    if w.appendOk(s.appends) && w.appendOk(s1.appends) && decided == ReworkRequired {
      ReworkLogged(log, s2.(details := s.details[id := decided]), p, 1, w);
    }
  }

  /** Throughout a run the abstract rows are the old ones and those of the records that reached the file. */
  lemma {:induction false} RunLogged(log: seq<LogRow>, order: seq<Prompt>, k: nat, w: World)
    requires k <= |order|
    ensures WrittenIsLogged(log, After(log, order, k, w))
  {
    hide Process;
    if k == 0 {
      assert log + [] == log;
    } else {
      RunLogged(log, order, k - 1, w);
      ProcessLogged(log, After(log, order, k - 1, w), order[k - 1], w);
    }
  }

  lemma {:induction false} RecordedIsLatest(log: seq<LogRow>, rs: seq<Record>)
    ensures RecordedOn(Latest(log), rs) == Latest(log + RowsOfRecords(rs))
  {
    if rs == [] {
      assert log + [] == log;
    } else {
      var front, last := rs[..|rs| - 1], rs[|rs| - 1];
      RecordedIsLatest(log, front);
      var rows := log + RowsOfRecords(front);
      assert log + (RowsOfRecords(front) + [RowOf(last)]) == rows + [RowOf(last)];
      LatestOfSnoc(rows, RowOf(last));
    }
  }

  lemma LatestOfSnoc(log: seq<LogRow>, row: LogRow)
    ensures Latest(log + [row]) == if row.promptId == "" then Latest(log) else Latest(log)[row.promptId := row.status]
  {
    assert (log + [row])[..|log|] == log;
  }

  // ----- Runs on a sound file -----

  predicate AllClean(rs: seq<Record>) {
    forall r :: r in rs ==> Clean(r)
  }

  /** If all the records a run wrote are clean, the file still verifies and says exactly what the engine's rows say. */
  lemma CleanRunRefines(hash: string -> string, file: Option<string>, order: seq<Prompt>, w: World)
    requires Digests(hash) && Sound(hash, file) && AllClean(RunOn(file, order, w).written)
    ensures Sound(hash, FileAfter(hash, file, order, w))
    ensures StatusMap(RowsOf(FileAfter(hash, file, order, w))) == Latest(RunOn(file, order, w).log)
  {
    hide Run, Clean, Sound, RowsOf, AppendAll;
    var log, s := LogOf(RowsOf(file)), RunOn(file, order, w);
    LogOfLatest(RowsOf(file));
    IsWritten(log, order, w);
    HistoryVerifies(hash, file, s.written);
    RecordedIsLatest(log, s.written);
  }

  lemma IsWritten(log: seq<LogRow>, order: seq<Prompt>, w: World)
    ensures Run(log, order, w).log == log + RowsOfRecords(Run(log, order, w).written)
  {
    RunLogged(log, order, |order|, w);
  }

  /** Runs on the same latest statuses decide the same. */
  lemma SameSuccesses(a: seq<LogRow>, b: seq<LogRow>)
    requires Latest(a) == Latest(b)
    ensures Successes(a) == Successes(b)
  {
  }

  /**
    After a complete run whose records are all clean, the next run finds a ledger that verifies; it
    appends nothing, launches nothing and skips every prompt exactly when no SUCCESS row was lost.
  */
  lemma NextRunIff(hash: string -> string, file: Option<string>, order: seq<Prompt>, w: World, w': World)
    requires Digests(hash) && Sound(hash, file) && UniqueIds(order) && NonEmptyIds(order)
    requires Complete(RunOn(file, order, w), order) && AllClean(RunOn(file, order, w).written)
    ensures var after := FileAfter(hash, file, order, w);
      && var again := RunOn(after, order, w');
      && ChainOk(hash, RowsOf(after))
      && (again.appends == 0 <==> NoLostSuccess(RunOn(file, order, w).lost))
      && (again.appends == 0 ==>
            again.launches == [] && again.skipped == |order| && FileAfter(hash, after, order, w') == after)
  {
    hide Run, Clean, Ready, RowsOf, AppendAll, Latest, Successes, LogOf, Complete;
    var after := FileAfter(hash, file, order, w);
    var s, log' := RunOn(file, order, w), LogOf(RowsOf(after));
    CleanRunRefines(hash, file, order, w);
    LogOfLatest(RowsOf(after));
    SameSuccesses(log', s.log);
    NoWorkIff(log', order, w');
    NoWorkIff(s.log, order, w');
    RerunIsNoOpIff(LogOf(RowsOf(file)), order, w, w');
    if RunOn(after, order, w').appends == 0 {
      NothingWritten(log', order, w');
      NothingAppended(hash, after);
    }
  }

  lemma NothingWritten(log: seq<LogRow>, order: seq<Prompt>, w: World)
    requires Run(log, order, w).appends == 0
    ensures Run(log, order, w).written == []
  {
    NoWorkIff(log, order, w);
    assert forall j :: 0 <= j < |order| ==> order[j] in order;
    NothingExecuted(log, order, |order|, w);
  }

  lemma NothingAppended(hash: string -> string, file: Option<string>)
    ensures AppendAll(hash, file, []) == file
  {
  }

  /**
    One record that is not clean - a bar or a carriage return in a note, say - among those a run wrote,
    and no later run gets past the integrity check until the ledger is repaired.
  */
  lemma UncleanRunBlocks(hash: string -> string, file: Option<string>, order: seq<Prompt>, w: World, k: nat)
    requires Digests(hash) && SoundTable(hash, file)
    requires var rs := RunOn(file, order, w).written;
      && k < |rs| && !Clean(rs[k]) && (forall i :: 0 <= i < k ==> Clean(rs[i]))
      && var prev := LastHash(RowsOf(AppendAll(hash, file, rs[..k])));
      NeverMentions(rs[k], prev) && NoCollision(hash, rs[k], prev)
    ensures !ChainOk(hash, RowsOf(FileAfter(hash, file, order, w)))
  {
    hide Run, Clean, SoundTable, RowsOf, NeverMentions, NoCollision;
    UncleanBreaksForGood(hash, file, RunOn(file, order, w).written, k);
  }

  // ----- The integrity check before a run -----

  /** The file after verify_hash_chain and, where it is allowed and needed, repair_hash_chain. */
  function Checked(hash: string -> string, file: Option<string>, allowRepair: bool): Option<string> {
    if ChainOk(hash, RowsOf(file)) || !allowRepair || file.None? then file else Some(RepairText(hash, file.value))
  }

  /** A run is admitted on a verified ledger, or with repair allowed on one without short rows. */
  lemma AdmittedIff(hash: string -> string, file: Option<string>, allowRepair: bool)
    requires Digests(hash)
    ensures ChainOk(hash, RowsOf(Checked(hash, file, allowRepair))) <==>
      ChainOk(hash, RowsOf(file)) || (allowRepair && file.Some? && NoShortRows(Section(SplitLines(file.value))))
  {
    if file.Some? {
      RepairVerifiesIff(hash, file.value);
    }
  }
}
