/** The fallback loop over a chain of models (backend/financeops/llm/fallback.py). */
module Fallback {
  import opened Wrappers
  import opened CircuitBreaker

  type Model = string

  /** What a provider answers; it names its model itself. */
  datatype Response = Response(content: string, model: Model)

  /** One place in the chain: when its circuit is looked at, when the attempt would end, and how. */
  datatype Call = Call(model: Model, checkedAt: real, doneAt: real, outcome: Result<Response, string>)

  datatype Note = CircuitOpen(model: Model) | CallFailed(model: Model, reason: string)

  /** The stored circuits; a model without one has a fresh circuit. */
  type Circuits = map<Model, Circuit>

  function CircuitOf(circuits: Circuits, model: Model): Circuit {
    if model in circuits then circuits[model] else FRESH
  }

  predicate SeenOpen(circuits: Circuits, c: Call) {
    StatusAt(CircuitOf(circuits, c.model).openedAt, c.checkedAt) == Open
  }

  class CircuitRegistry {
    var circuits: Circuits

    constructor (circuits: Circuits)
      ensures this.circuits == circuits
    {
      this.circuits := circuits;
    }

    method IsOpen(model: Model, now: real) returns (open: bool)
      ensures open <==> StatusAt(CircuitOf(circuits, model).openedAt, now) == Open
    {
      var state := new CircuitState(CircuitOf(circuits, model));
      var status := state.GetState(now);
      return status == Open;
    }

    method RecordFailure(model: Model, now: real)
      modifies this
      ensures circuits == old(circuits)[model := AfterFailure(CircuitOf(old(circuits), model), now)]
    {
      var state := new CircuitState(CircuitOf(circuits, model));
      state.RecordFailure(now);
      circuits := circuits[model := state.Stored()];
    }

    method RecordSuccess(model: Model)
      modifies this
      ensures circuits == old(circuits)[model := FRESH]
    {
      var state := new CircuitState(CircuitOf(circuits, model));
      state.RecordSuccess();
      circuits := circuits[model := state.Stored()];
    }
  }

  // ----- What the loop does, call by call -----

  function AfterCall(circuits: Circuits, c: Call): Circuits {
    if SeenOpen(circuits, c) then circuits
    else if c.outcome.Success? then circuits[c.model := FRESH]
    else circuits[c.model := AfterFailure(CircuitOf(circuits, c.model), c.doneAt)]
  }

  /** The circuits after the given calls, none of which answered. */
  function AfterCalls(circuits: Circuits, calls: seq<Call>): Circuits {
    if calls == [] then circuits else AfterCall(AfterCalls(circuits, calls[..|calls| - 1]), calls[|calls| - 1])
  }

  predicate Skipped(circuits: Circuits, calls: seq<Call>, i: nat)
    requires i < |calls|
  {
    SeenOpen(AfterCalls(circuits, calls[..i]), calls[i])
  }

  /** Call i is made and gives the answer. */
  predicate Answers(circuits: Circuits, calls: seq<Call>, i: nat)
    requires i < |calls|
  {
    !Skipped(circuits, calls, i) && calls[i].outcome.Success?
  }

  function Notes(circuits: Circuits, calls: seq<Call>): seq<Note> {
    if calls == [] then []
    else
      var n := |calls| - 1;
      var c := calls[n];
      Notes(circuits, calls[..n]) + [
        if Skipped(circuits, calls, n) then CircuitOpen(c.model)
        else CallFailed(c.model, if c.outcome.Failure? then c.outcome.error else "")]
  }

  datatype Answer = Answer(content: string, model: Model, attemptNumber: nat, wasFallback: bool)

  /**
    Goes through the chain in order: a model whose circuit is seen open is not called, the first call
    that succeeds is the answer and nothing after it is called, and every call made is recorded.
  */
  method ExecuteWithFallback(calls: seq<Call>, registry: CircuitRegistry) returns (r: Result<Answer, seq<Note>>)
    modifies registry
    ensures r.Success? ==>
      var k := r.value.attemptNumber - 1;
      && 0 <= k < |calls|
      && Answers(old(registry.circuits), calls, k)
      && (forall i :: 0 <= i < k ==> !Answers(old(registry.circuits), calls, i))
      && calls[k].outcome == Success(Response(r.value.content, r.value.model))
      && (r.value.wasFallback <==> k > 0)
      && CircuitOf(registry.circuits, calls[k].model) == FRESH
      && registry.circuits == AfterCalls(old(registry.circuits), calls[..k + 1])
    ensures r.Failure? ==>
      && (forall i :: 0 <= i < |calls| ==> !Answers(old(registry.circuits), calls, i))
      && r.error == Notes(old(registry.circuits), calls)
      && NotesFor(old(registry.circuits), calls, r.error)
      && registry.circuits == AfterCalls(old(registry.circuits), calls)
  {
    hide NotesFor;
    ghost var before := registry.circuits;
    var errors: seq<Note> := [];
    for attempt := 0 to |calls|
      invariant registry.circuits == AfterCalls(before, calls[..attempt])
      invariant forall i :: 0 <= i < attempt ==> !Answers(before, calls, i)
      invariant errors == Notes(before, calls[..attempt])
    {
      var c := calls[attempt];
      Prefixes(before, calls, attempt);
      var open := registry.IsOpen(c.model, c.checkedAt);
      if open {
        errors := errors + [CircuitOpen(c.model)];
        continue;
      }
      match c.outcome {
        case Success(response) =>
          registry.RecordSuccess(c.model);
          return Success(Answer(response.content, response.model, attempt + 1, attempt > 0));
        case Failure(reason) =>
          registry.RecordFailure(c.model, c.doneAt);
          errors := errors + [CallFailed(c.model, reason)];
      }
    }
    assert calls[..|calls|] == calls;
    NotesTell(before, calls);
    return Failure(errors);
  }

  /** When nobody answered, there is one note for each place of the chain, in order, and it says why. */
  ghost predicate NotesFor(circuits: Circuits, calls: seq<Call>, notes: seq<Note>) {
    && |notes| == |calls|
    && forall i :: 0 <= i < |calls| ==>
         if Skipped(circuits, calls, i) then notes[i] == CircuitOpen(calls[i].model)
         else calls[i].outcome.Failure? && notes[i] == CallFailed(calls[i].model, calls[i].outcome.error)
  }

  lemma {:induction false} NotesTell(circuits: Circuits, calls: seq<Call>)
    requires forall i :: 0 <= i < |calls| ==> !Answers(circuits, calls, i)
    ensures NotesFor(circuits, calls, Notes(circuits, calls))
  {
    hide SeenOpen, AfterCalls;
    if calls != [] {
      var front := calls[..|calls| - 1];
      forall i | 0 <= i < |front| ensures Skipped(circuits, front, i) <==> Skipped(circuits, calls, i) {
        assert front[..i] == calls[..i];
      }
      forall i | 0 <= i < |front| ensures !Answers(circuits, front, i) {
        assert !Answers(circuits, calls, i);
      }
      NotesTell(circuits, front);
      assert !Answers(circuits, calls, |calls| - 1);
    }
  }

  lemma Prefixes(circuits: Circuits, calls: seq<Call>, i: nat)
    requires i < |calls|
    ensures AfterCalls(circuits, calls[..i + 1]) == AfterCall(AfterCalls(circuits, calls[..i]), calls[i])
    ensures Skipped(circuits, calls[..i + 1], i) <==> Skipped(circuits, calls, i)
    ensures Notes(circuits, calls[..i + 1]) == Notes(circuits, calls[..i]) + [
      if Skipped(circuits, calls, i) then CircuitOpen(calls[i].model)
      else CallFailed(calls[i].model, if calls[i].outcome.Failure? then calls[i].outcome.error else "")]
  {
    assert calls[..i + 1][..i] == calls[..i];
  }

  // ----- With the breaker's history -----

  /** What happened to each model so far, over all requests. */
  type Histories = map<Model, seq<Event>>

  function HistoryOf(hs: Histories, model: Model): seq<Event> {
    if model in hs then hs[model] else []
  }

  ghost predicate AllRefine(circuits: Circuits, hs: Histories) {
    forall m: Model :: Refines(CircuitOf(circuits, m), HistoryOf(hs, m))
  }

  function Recorded(circuits: Circuits, hs: Histories, c: Call): Histories {
    if SeenOpen(circuits, c) then hs
    else hs[c.model := HistoryOf(hs, c.model) + [if c.outcome.Success? then Succeeded(c.doneAt) else Failed(c.doneAt)]]
  }

  function RecordedAll(circuits: Circuits, hs: Histories, calls: seq<Call>): Histories {
    if calls == [] then hs
    else
      var n := |calls| - 1;
      Recorded(AfterCalls(circuits, calls[..n]), RecordedAll(circuits, hs, calls[..n]), calls[n])
  }

  /** No recorded event is later than now, and each model's history is in order. */
  ghost predicate UpTo(hs: Histories, now: real) {
    forall m :: m in hs ==> Monotone(hs[m]) && forall i :: 0 <= i < |hs[m]| ==> hs[m][i].at <= now
  }

  function TimeBefore(calls: seq<Call>, start: real, i: nat): real
    requires i <= |calls|
  {
    if i == 0 then start else calls[i - 1].doneAt
  }

  /** The clock does not run backwards. */
  predicate InOrder(calls: seq<Call>, start: real) {
    forall i {:trigger TimeBefore(calls, start, i)} :: 0 <= i < |calls| ==>
      TimeBefore(calls, start, i) <= calls[i].checkedAt <= calls[i].doneAt
  }

  lemma InOrderPrefix(calls: seq<Call>, start: real, n: nat)
    requires InOrder(calls, start) && n <= |calls|
    ensures InOrder(calls[..n], start)
  {
    forall i | 0 <= i < n ensures TimeBefore(calls[..n], start, i) <= calls[i].checkedAt <= calls[i].doneAt {
      assert TimeBefore(calls[..n], start, i) == TimeBefore(calls, start, i);
    }
  }

  lemma OneModelRefines(circuits: Circuits, hs: Histories, c: Call, now: real)
    requires AllRefine(circuits, hs) && UpTo(hs, now) && now <= c.doneAt && !SeenOpen(circuits, c)
    ensures Refines(CircuitOf(AfterCall(circuits, c), c.model), HistoryOf(Recorded(circuits, hs, c), c.model))
    ensures Monotone(HistoryOf(Recorded(circuits, hs, c), c.model))
  {
    var h := HistoryOf(hs, c.model);
    assert Refines(CircuitOf(circuits, c.model), h);
    Later(h, now, if c.outcome.Success? then Succeeded(c.doneAt) else Failed(c.doneAt));
    if c.outcome.Success? {
      SuccessRefines(h, c.doneAt);
    } else {
      FailureRefines(CircuitOf(circuits, c.model), h, c.doneAt);
    }
  }

  lemma Later(h: seq<Event>, now: real, e: Event)
    requires Monotone(h) && (forall i :: 0 <= i < |h| ==> h[i].at <= now) && now <= e.at
    ensures Monotone(h + [e])
  {
  }

  lemma OneCallRefines(circuits: Circuits, hs: Histories, c: Call, now: real)
    requires AllRefine(circuits, hs) && UpTo(hs, now) && now <= c.doneAt
    ensures AllRefine(AfterCall(circuits, c), Recorded(circuits, hs, c))
    ensures UpTo(Recorded(circuits, hs, c), c.doneAt)
  {
    hide Refines, SeenOpen, AfterFailure;
    if !SeenOpen(circuits, c) {
      OneModelRefines(circuits, hs, c, now);
      forall m: Model ensures Refines(CircuitOf(AfterCall(circuits, c), m), HistoryOf(Recorded(circuits, hs, c), m)) {
        if m != c.model {
          assert Refines(CircuitOf(circuits, m), HistoryOf(hs, m));
        }
      }
    }
  }

  /** Over any number of calls the stored circuits keep saying what the full histories say. */
  lemma {:induction false} CallsRefine(circuits: Circuits, hs: Histories, calls: seq<Call>, start: real)
    requires AllRefine(circuits, hs) && UpTo(hs, start) && InOrder(calls, start)
    ensures AllRefine(AfterCalls(circuits, calls), RecordedAll(circuits, hs, calls))
    ensures UpTo(RecordedAll(circuits, hs, calls), if calls == [] then start else calls[|calls| - 1].doneAt)
  {
    if calls != [] {
      var n := |calls| - 1;
      InOrderPrefix(calls, start, n);
      CallsRefine(circuits, hs, calls[..n], start);
      OneCallRefines(AfterCalls(circuits, calls[..n]), RecordedAll(circuits, hs, calls[..n]), calls[n],
                     TimeBefore(calls, start, n));
    }
  }

  lemma StoredRefines(circuits: Circuits, hs: Histories, calls: seq<Call>, start: real, i: nat)
    requires AllRefine(circuits, hs) && UpTo(hs, start) && InOrder(calls, start) && i < |calls|
    ensures var h := HistoryOf(RecordedAll(circuits, hs, calls[..i]), calls[i].model);
      Monotone(h) && Refines(CircuitOf(AfterCalls(circuits, calls[..i]), calls[i].model), h)
  {
    InOrderPrefix(calls, start, i);
    CallsRefine(circuits, hs, calls[..i], start);
  }

  /**
    A model is skipped exactly when, going by everything that ever happened to it, its third failure
    within five minutes since its last success is less than ten minutes ago.
  */
  lemma SkippedIff(circuits: Circuits, hs: Histories, calls: seq<Call>, start: real, i: nat)
    requires AllRefine(circuits, hs) && UpTo(hs, start) && InOrder(calls, start) && i < |calls|
    ensures var h := HistoryOf(RecordedAll(circuits, hs, calls[..i]), calls[i].model);
      Skipped(circuits, calls, i) <==> exists t :: OpensAt(FailuresSince(h), t) && calls[i].checkedAt < t + OPEN_SECONDS
  {
    StoredRefines(circuits, hs, calls, start, i);
    StoredOpenIff(CircuitOf(AfterCalls(circuits, calls[..i]), calls[i].model),
                  HistoryOf(RecordedAll(circuits, hs, calls[..i]), calls[i].model), calls[i].checkedAt);
  }

  lemma NothingRecorded()
    ensures AllRefine(map[], map[]) && forall now :: UpTo(map[], now)
  {
  }
}
