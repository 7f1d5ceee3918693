/** The per-model circuit breaker (backend/financeops/llm/circuit_breaker.py). */
module CircuitBreaker {
  import opened Wrappers

  const FAILURE_THRESHOLD := 3
  const WINDOW_SECONDS := 300.0
  const OPEN_SECONDS := 600.0

  datatype Status = Closed | Open | HalfOpen

  /** What the registry stores for a model. */
  datatype Circuit = Circuit(failures: seq<real>, openedAt: Option<real>, status: Status)

  const FRESH := Circuit([], None, Closed)

  /** The failures less than five minutes old, in order. */
  function Recent(failures: seq<real>, now: real): (r: seq<real>)
    ensures |r| <= |failures|
  {
    if failures == [] then []
    else
      var last := failures[|failures| - 1];
      Recent(failures[..|failures| - 1], now) + (if now - last < WINDOW_SECONDS then [last] else [])
  }

  function StatusAt(openedAt: Option<real>, now: real): Status {
    match openedAt
    case None => Closed
    case Some(t) => if now - t >= OPEN_SECONDS then HalfOpen else Open
  }

  // ----- The whole history, as a reference -----

  datatype Event = Failed(at: real) | Succeeded(at: real)

  predicate Monotone(h: seq<Event>) {
    forall i, j :: 0 <= i < j < |h| ==> h[i].at <= h[j].at
  }

  /** The failures since the last success, none forgotten. */
  function FailuresSince(h: seq<Event>): seq<real> {
    if h == [] then []
    else if h[|h| - 1].Succeeded? then []
    else FailuresSince(h[..|h| - 1]) + [h[|h| - 1].at]
  }

  /**
    When the circuit opened: at the first failure that, with all failures since the last success, makes three in the
    window.
  */
  function OpenedAt(h: seq<Event>): Option<real> {
    if h == [] then None
    else
      match h[|h| - 1]
      case Succeeded(_) => None
      case Failed(t) =>
        var before := OpenedAt(h[..|h| - 1]);
        if before.Some? then before
        else if |Recent(FailuresSince(h), t)| >= FAILURE_THRESHOLD then Some(t)
        else None
  }

  /**
    The stored circuit says what the whole history says, though it keeps only what the last failure left in the
    window.
  */
  ghost predicate Refines(c: Circuit, h: seq<Event>) {
    && c.openedAt == OpenedAt(h)
    && (c.status == if c.openedAt.Some? then Open else Closed)
    && c.failures == if h == [] then [] else Recent(FailuresSince(h), h[|h| - 1].at)
  }

  // ----- The stored circuit -----

  function AfterFailure(c: Circuit, now: real): Circuit {
    var failures := Recent(c.failures, now) + [now];
    if |failures| >= FAILURE_THRESHOLD && c.openedAt.None? then Circuit(failures, Some(now), Open)
    else c.(failures := failures)
  }

  class CircuitState {
    var failures: seq<real>
    var openedAt: Option<real>
    var status: Status

    function Stored(): Circuit
      reads this
    {
      Circuit(failures, openedAt, status)
    }

    constructor (c: Circuit)
      ensures Stored() == c
    {
      failures, openedAt, status := c.failures, c.openedAt, c.status;
    }

    method RecordFailure(now: real)
      modifies this
      ensures Stored() == AfterFailure(old(Stored()), now)
    {
      var kept: seq<real> := [];
      for i := 0 to |failures|
        invariant failures == old(failures) && openedAt == old(openedAt) && status == old(status)
        invariant kept == Recent(failures[..i], now)
      {
        assert failures[..i + 1][..i] == failures[..i];
        if now - failures[i] < WINDOW_SECONDS {
          kept := kept + [failures[i]];
        }
      }
      assert failures[..|failures|] == failures;
      failures := kept + [now];
      if |failures| >= FAILURE_THRESHOLD && openedAt.None? {
        openedAt := Some(now);
        status := Open;
      }
    }

    method RecordSuccess()
      modifies this
      ensures Stored() == FRESH
    {
      failures, openedAt, status := [], None, Closed;
    }

    method GetState(now: real) returns (s: Status)
      ensures s == StatusAt(openedAt, now)
    {
      if openedAt.None? {
        return Closed;
      }
      var elapsed := now - openedAt.value;
      if elapsed >= OPEN_SECONDS {
        return HalfOpen;
      }
      return Open;
    }
  }

  // ----- Forgetting old failures loses nothing -----

  lemma RecentSnoc(fs: seq<real>, x: real, now: real)
    ensures Recent(fs + [x], now) == Recent(fs, now) + (if now - x < WINDOW_SECONDS then [x] else [])
  {
    assert (fs + [x])[..|fs + [x]| - 1] == fs;
  }

  lemma {:induction false} RecentOfRecent(fs: seq<real>, early: real, now: real)
    requires early <= now
    ensures Recent(Recent(fs, early), now) == Recent(fs, now)
  {
    if fs != [] {
      var front, last := fs[..|fs| - 1], fs[|fs| - 1];
      RecentOfRecent(front, early, now);
      RecentSnoc(Recent(front, early), last, now);
      assert Recent(fs, early) ==
        if early - last < WINDOW_SECONDS then Recent(front, early) + [last] else Recent(front, early);
    }
  }

  /** Recording a failure in the pruned state says the same as the whole history with that failure. */
  lemma FailureRefines(c: Circuit, h: seq<Event>, now: real)
    requires Refines(c, h) && Monotone(h + [Failed(now)])
    ensures Refines(AfterFailure(c, now), h + [Failed(now)])
  {
    var more := h + [Failed(now)];
    var fs := FailuresSince(h);
    assert more[..|more| - 1] == h;
    assert Recent(fs + [now], now) == Recent(fs, now) + [now] by {
      RecentSnoc(fs, now, now);
    }
    assert Recent(c.failures, now) == Recent(fs, now) by {
      if h != [] {
        assert more[|h| - 1].at <= more[|h|].at;
        RecentOfRecent(fs, h[|h| - 1].at, now);
      }
    }
    assert FailuresSince(more) == fs + [now];
  }

  lemma SuccessRefines(h: seq<Event>, now: real)
    ensures Refines(FRESH, h + [Succeeded(now)])
  {
  }

  // ----- When the circuit is open -----

  lemma {:induction false} FailuresAscend(h: seq<Event>)
    requires Monotone(h)
    ensures forall i, j :: 0 <= i < j < |FailuresSince(h)| ==> FailuresSince(h)[i] <= FailuresSince(h)[j]
    ensures forall f :: f in FailuresSince(h) ==> h != [] && f <= h[|h| - 1].at
  {
    if h != [] && h[|h| - 1].Failed? {
      var front := h[..|h| - 1];
      FailuresAscend(front);
      assert FailuresSince(h) == FailuresSince(front) + [h[|h| - 1].at];
      if front != [] {
        assert h[|h| - 2].at <= h[|h| - 1].at;
      }
      forall i | 0 <= i < |FailuresSince(front)| ensures FailuresSince(h)[i] <= h[|h| - 1].at {
        assert FailuresSince(front)[i] in FailuresSince(front);
      }
    }
  }

  predicate Ascending(fs: seq<real>) {
    forall i, j :: 0 <= i < j < |fs| ==> fs[i] <= fs[j]
  }

  /** Among ascending failures, three are recent exactly when the third from the end is. */
  lemma {:induction false} ThreeRecent(fs: seq<real>, now: real)
    requires Ascending(fs) && |fs| >= 1 && fs[|fs| - 1] == now
    ensures |Recent(fs, now)| >= 3 <==> |fs| >= 3 && now - fs[|fs| - 3] < WINDOW_SECONDS
  {
    var n := |fs|;
    if n >= 3 {
      var early := fs[..n - 3];
      assert fs == early + [fs[n - 3]] + [fs[n - 2]] + [now];
      RecentSnoc(early, fs[n - 3], now);
      RecentSnoc(early + [fs[n - 3]], fs[n - 2], now);
      RecentSnoc(early + [fs[n - 3]] + [fs[n - 2]], now, now);
      if now - fs[n - 3] >= WINDOW_SECONDS {
        NoneRecent(fs[..n - 3], now, fs[n - 3]);
      }
    }
  }

  lemma {:induction false} NoneRecent(fs: seq<real>, now: real, bound: real)
    requires now - bound >= WINDOW_SECONDS && forall i :: 0 <= i < |fs| ==> fs[i] <= bound
    ensures Recent(fs, now) == []
  {
    if fs != [] {
      NoneRecent(fs[..|fs| - 1], now, bound);
    }
  }

  /** Failure number k is the third within five minutes. */
  predicate Third(fs: seq<real>, k: nat) {
    2 <= k < |fs| && fs[k] - fs[k - 2] < WINDOW_SECONDS
  }

  predicate FirstThird(fs: seq<real>, k: nat) {
    Third(fs, k) && forall j: nat :: j < k ==> !Third(fs, j)
  }

  lemma ThirdInPrefix(gs: seq<real>, now: real, k: nat)
    requires k < |gs|
    ensures Third(gs + [now], k) <==> Third(gs, k)
    ensures FirstThird(gs + [now], k) <==> FirstThird(gs, k)
  {
    forall j: nat | j <= k ensures Third(gs + [now], j) <==> Third(gs, j) {
    }
  }

  ghost predicate NoThird(fs: seq<real>) {
    forall k: nat :: !Third(fs, k)
  }

  ghost predicate OpensAt(fs: seq<real>, t: real) {
    exists k: nat :: FirstThird(fs, k) && fs[k] == t
  }

  lemma NoThirdSnoc(gs: seq<real>, now: real)
    ensures NoThird(gs + [now]) <==> NoThird(gs) && !Third(gs + [now], |gs|)
  {
    forall k: nat | k < |gs| ensures Third(gs + [now], k) <==> Third(gs, k) {
      ThirdInPrefix(gs, now, k);
    }
    if NoThird(gs) && !Third(gs + [now], |gs|) {
      forall k: nat ensures !Third(gs + [now], k) {
        assert k < |gs| || k == |gs| || k > |gs|;
      }
    }
    if NoThird(gs + [now]) {
      forall k: nat ensures !Third(gs, k) {
        assert !Third(gs + [now], k);
      }
    }
  }

  lemma OpensAtSnoc(gs: seq<real>, now: real, t: real)
    ensures !NoThird(gs) ==> (OpensAt(gs + [now], t) <==> OpensAt(gs, t))
    ensures NoThird(gs) ==> (OpensAt(gs + [now], t) <==> Third(gs + [now], |gs|) && t == now)
  {
    var fs := gs + [now];
    forall k: nat | k < |gs| ensures (FirstThird(fs, k) <==> FirstThird(gs, k)) && (Third(fs, k) <==> Third(gs, k)) {
      ThirdInPrefix(gs, now, k);
    }
    if NoThird(gs) {
      assert FirstThird(fs, |gs|) <==> Third(fs, |gs|);
    } else {
      var k: nat :| Third(gs, k);
      assert Third(fs, k);
      assert !FirstThird(fs, |gs|);
    }
    if OpensAt(fs, t) {
      var k: nat :| FirstThird(fs, k) && fs[k] == t;
      assert k < |gs| || k == |gs|;
      if k < |gs| {
        assert FirstThird(gs, k) && gs[k] == t;
      }
    }
    if OpensAt(gs, t) {
      var k: nat :| FirstThird(gs, k) && gs[k] == t;
      assert FirstThird(fs, k) && fs[k] == t;
    }
  }

  /**
    The circuit opens at the first failure since the last success that is the third within five minutes, and only
    then.
  */
  lemma {:induction false} OpensAtTheThird(h: seq<Event>)
    requires Monotone(h)
    ensures OpenedAt(h).None? <==> NoThird(FailuresSince(h))
    ensures forall t :: OpenedAt(h) == Some(t) <==> OpensAt(FailuresSince(h), t)
  {
    if h != [] && h[|h| - 1].Failed? {
      var front, now := h[..|h| - 1], h[|h| - 1].at;
      var gs := FailuresSince(front);
      OpensAtTheThird(front);
      FailuresAscend(h);
      assert FailuresSince(h) == gs + [now];
      ThreeRecent(gs + [now], now);
      NoThirdSnoc(gs, now);
      forall t ensures OpenedAt(h) == Some(t) <==> OpensAt(FailuresSince(h), t) {
        OpensAtSnoc(gs, now, t);
      }
    } else {
      assert FailuresSince(h) == [];
    }
  }

  /** The circuit is open exactly during the ten minutes after the third failure within five minutes. */
  lemma OpenIff(h: seq<Event>, now: real)
    requires Monotone(h)
    ensures StatusAt(OpenedAt(h), now) == Open <==> exists t :: OpensAt(FailuresSince(h), t) && now < t + OPEN_SECONDS
  {
    OpensAtTheThird(h);
    if OpenedAt(h).Some? {
      assert OpensAt(FailuresSince(h), OpenedAt(h).value);
    }
  }

  lemma StoredOpenIff(c: Circuit, h: seq<Event>, now: real)
    requires Refines(c, h) && Monotone(h)
    ensures StatusAt(c.openedAt, now) == Open <==> exists t :: OpensAt(FailuresSince(h), t) && now < t + OPEN_SECONDS
  {
    OpenIff(h, now);
  }

  predicate OnlyFailures(more: seq<Event>) {
    forall i :: 0 <= i < |more| ==> more[i].Failed?
  }

  lemma {:induction false} StaysOpened(h: seq<Event>, more: seq<Event>)
    requires OpenedAt(h).Some? && OnlyFailures(more)
    ensures OpenedAt(h + more) == OpenedAt(h)
  {
    if more == [] {
      assert h + more == h;
    } else {
      StaysOpened(h, more[..|more| - 1]);
      assert (h + more)[..|h + more| - 1] == h + more[..|more| - 1];
    }
  }

  /**
    Once opened at t, and until a success, the circuit is open for exactly ten minutes from t and then
    half open for good: failed probes neither reopen it nor extend the ten minutes.
  */
  lemma OpenForTenMinutes(h: seq<Event>, more: seq<Event>, now: real)
    requires OpenedAt(h).Some? && OnlyFailures(more)
    ensures StatusAt(OpenedAt(h + more), now) == Open <==> now < OpenedAt(h).value + OPEN_SECONDS
    ensures StatusAt(OpenedAt(h + more), now) == HalfOpen <==> now >= OpenedAt(h).value + OPEN_SECONDS
  {
    StaysOpened(h, more);
  }

  // ----- A clock that may be set back -----

  /** The stored circuit after the whole history, on whatever clock. */
  function StoredAfter(h: seq<Event>): Circuit {
    if h == [] then FRESH
    else
      match h[|h| - 1]
      case Failed(t) => AfterFailure(StoredAfter(h[..|h| - 1]), t)
      case Succeeded(_) => FRESH
  }

  /** What is stored of the failures since the last success. */
  function Kept(fs: seq<real>): seq<real> {
    if fs == [] then [] else Recent(Kept(fs[..|fs| - 1]), fs[|fs| - 1]) + [fs[|fs| - 1]]
  }

  /** Failure i is out of the window when failure j comes, and in it at time now. */
  predicate BackAt(fs: seq<real>, i: nat, j: nat, now: real) {
    i < j < |fs| && fs[j] - fs[i] >= WINDOW_SECONDS && now - fs[i] < WINDOW_SECONDS
  }

  ghost predicate SomeBack(fs: seq<real>, now: real) { exists i: nat, j: nat :: BackAt(fs, i, j, now) }

  /** No failure is five minutes old at some later failure and less than that at the last one. */
  ghost predicate NothingBack(fs: seq<real>) { fs == [] || !SomeBack(fs, fs[|fs| - 1]) }

  lemma {:induction false} RecentMembers(fs: seq<real>, now: real)
    ensures forall x :: x in Recent(fs, now) <==> x in fs && now - x < WINDOW_SECONDS
  {
    if fs != [] {
      RecentMembers(fs[..|fs| - 1], now);
      assert fs == fs[..|fs| - 1] + [fs[|fs| - 1]];
    }
  }

  ghost predicate LosesOne(fs: seq<real>, early: real, now: real) {
    exists x :: x in fs && early - x >= WINDOW_SECONDS && now - x < WINDOW_SECONDS
  }

  /** Pruning at an earlier failure loses nothing of the later window exactly when nothing it drops is in there. */
  lemma {:induction false} PrunedTwice(fs: seq<real>, early: real, now: real)
    ensures |Recent(Recent(fs, early), now)| <= |Recent(fs, now)|
    ensures |Recent(Recent(fs, early), now)| == |Recent(fs, now)| <==> !LosesOne(fs, early, now)
    ensures |Recent(Recent(fs, early), now)| == |Recent(fs, now)| ==> Recent(Recent(fs, early), now) == Recent(fs, now)
  {
    if fs != [] {
      var front, last := fs[..|fs| - 1], fs[|fs| - 1];
      PrunedTwice(front, early, now);
      RecentSnoc(Recent(front, early), last, now);
      assert Recent(fs, early) ==
        if early - last < WINDOW_SECONDS then Recent(front, early) + [last] else Recent(front, early);
      LosesOneSnoc(front, last, early, now);
      assert fs == front + [last];
    }
  }

  lemma LosesOneSnoc(front: seq<real>, last: real, early: real, now: real)
    ensures LosesOne(front + [last], early, now)
       <==> LosesOne(front, early, now) || (early - last >= WINDOW_SECONDS && now - last < WINDOW_SECONDS)
  {
    var fs := front + [last];
    if LosesOne(fs, early, now) {
      var x :| x in fs && early - x >= WINDOW_SECONDS && now - x < WINDOW_SECONDS;
      assert x in front || x == last;
    }
    if LosesOne(front, early, now) {
      var x :| x in front && early - x >= WINDOW_SECONDS && now - x < WINDOW_SECONDS;
      assert x in fs;
    }
    assert last in fs;
  }

  lemma SomeBackSnoc(gs: seq<real>, t: real, now: real)
    ensures SomeBack(gs + [t], now) <==> SomeBack(gs, now) || LosesOne(gs, t, now)
  {
    var fs := gs + [t];
    if SomeBack(fs, now) {
      var i: nat, j: nat :| BackAt(fs, i, j, now);
      assert j < |gs| ==> BackAt(gs, i, j, now);
      assert j == |gs| ==> gs[i] in gs;
    }
    if SomeBack(gs, now) {
      var i: nat, j: nat :| BackAt(gs, i, j, now);
      assert BackAt(fs, i, j, now);
    }
    if LosesOne(gs, t, now) {
      var x :| x in gs && t - x >= WINDOW_SECONDS && now - x < WINDOW_SECONDS;
      var i: nat :| i < |gs| && gs[i] == x;
      assert BackAt(fs, i, |gs|, now);
    }
  }

  /** What is stored has the same failures in a window as the whole history, exactly when none has come back into it. */
  lemma {:induction false} KeptIff(fs: seq<real>, now: real)
    ensures |Recent(Kept(fs), now)| <= |Recent(fs, now)|
    ensures Recent(Kept(fs), now) == Recent(fs, now) <==> !SomeBack(fs, now)
  {
    if fs != [] {
      var gs, t := fs[..|fs| - 1], fs[|fs| - 1];
      assert fs == gs + [t];
      KeptIff(gs, now);
      KeptStep(gs, t, now);
    }
  }

  lemma KeptStep(gs: seq<real>, t: real, now: real)
    requires |Recent(Kept(gs), now)| <= |Recent(gs, now)|
    requires Recent(Kept(gs), now) == Recent(gs, now) <==> !SomeBack(gs, now)
    ensures |Recent(Kept(gs + [t]), now)| <= |Recent(gs + [t], now)|
    ensures Recent(Kept(gs + [t]), now) == Recent(gs + [t], now) <==> !SomeBack(gs + [t], now)
  {
    assert (gs + [t])[..|gs + [t]| - 1] == gs;
    var kept := Kept(gs);
    assert Kept(gs + [t]) == Recent(kept, t) + [t];
    hide Recent, Kept, SomeBack, LosesOne;
    RecentSnoc(Recent(kept, t), t, now);
    RecentSnoc(gs, t, now);
    PrunedTwice(kept, t, now);
    SomeBackSnoc(gs, t, now);
    if Recent(kept, now) == Recent(gs, now) {
      SameLoss(kept, gs, t, now);
    }
    var a, b := Recent(Recent(kept, t), now), Recent(gs, now);
    assert a == b <==> !SomeBack(gs + [t], now);
    SameEnd(a, b, if now - t < WINDOW_SECONDS then [t] else []);
  }

  lemma SameEnd(a: seq<real>, b: seq<real>, end: seq<real>)
    ensures a + end == b + end <==> a == b
  {
    if a + end == b + end {
      assert |a| == |b|;
      assert a == (a + end)[..|a|] && b == (b + end)[..|b|];
    }
  }

  lemma SameLoss(kept: seq<real>, gs: seq<real>, t: real, now: real)
    requires Recent(kept, now) == Recent(gs, now)
    ensures LosesOne(kept, t, now) <==> LosesOne(gs, t, now)
  {
    RecentMembers(kept, now);
    RecentMembers(gs, now);
    forall x | now - x < WINDOW_SECONDS ensures x in kept <==> x in gs {
      assert x in Recent(kept, now) <==> x in Recent(gs, now);
    }
  }

  lemma {:induction false} StoredIsKept(h: seq<Event>)
    ensures StoredAfter(h).failures == Kept(FailuresSince(h))
  {
    if h != [] {
      StoredIsKept(h[..|h| - 1]);
    }
  }

  /** The stored failures are the recent ones of the whole history. */
  ghost predicate RecentStored(h: seq<Event>) {
    h != [] ==> StoredAfter(h).failures == Recent(FailuresSince(h), h[|h| - 1].at)
  }

  lemma KeptNowIff(gs: seq<real>, t: real)
    ensures Kept(gs + [t]) == Recent(gs + [t], t) <==> !SomeBack(gs + [t], t)
  {
    assert (gs + [t])[..|gs + [t]| - 1] == gs;
    KeptIff(gs, t);
    RecentSnoc(gs, t, t);
    SomeBackSnoc(gs, t, t);
  }

  /**
    On any clock: what is stored after the last event is the failures in its window if and only if no
    failure that an earlier pruning dropped is back in the window.
  */
  lemma StoredIff(h: seq<Event>)
    ensures RecentStored(h) <==> NothingBack(FailuresSince(h))
  {
    hide Kept, Recent, SomeBack, StoredAfter;
    if h != [] {
      StoredIsKept(h);
      if h[|h| - 1].Succeeded? {
        NothingKept();
      } else {
        var gs, t := FailuresSince(h[..|h| - 1]), h[|h| - 1].at;
        assert FailuresSince(h) == gs + [t];
        KeptNowIff(gs, t);
      }
    }
  }

  lemma NothingKept()
    ensures Kept([]) == [] && forall now :: Recent([], now) == []
  {
  }

  ghost predicate NeverBack(h: seq<Event>) { forall n: nat :: n <= |h| ==> NothingBack(FailuresSince(h[..n])) }

  ghost predicate AlwaysRecent(h: seq<Event>) { forall n: nat :: n <= |h| ==> RecentStored(h[..n]) }

  ghost predicate AlwaysRefines(h: seq<Event>) { forall n: nat :: n <= |h| ==> Refines(StoredAfter(h[..n]), h[..n]) }

  /** The stored circuit agrees with the whole history all along if and only if no forgotten failure ever comes back. */
  lemma RefinesIff(h: seq<Event>)
    ensures AlwaysRefines(h) <==> NeverBack(h)
  {
    forall n: nat | n <= |h| ensures RecentStored(h[..n]) <==> NothingBack(FailuresSince(h[..n])) {
      StoredIff(h[..n]);
    }
    if NeverBack(h) {
      assert AlwaysRecent(h);
      forall n: nat | n <= |h| ensures Refines(StoredAfter(h[..n]), h[..n]) {
        RecentRefines(h, n);
      }
    }
    if AlwaysRefines(h) {
      forall n: nat | n <= |h| ensures NothingBack(FailuresSince(h[..n])) {
        assert Refines(StoredAfter(h[..n]), h[..n]);
      }
    }
  }

  lemma StepRefines(h: seq<Event>, e: Event)
    requires Refines(StoredAfter(h), h) && RecentStored(h + [e])
    ensures Refines(StoredAfter(h + [e]), h + [e])
  {
    hide Recent;
    var more := h + [e];
    assert more[..|more| - 1] == h;
    if e.Failed? {
      assert StoredAfter(more) == AfterFailure(StoredAfter(h), e.at);
      assert FailuresSince(more) == FailuresSince(h) + [e.at];
    }
  }

  lemma {:induction false} RecentRefines(h: seq<Event>, n: nat)
    requires n <= |h| && AlwaysRecent(h)
    ensures Refines(StoredAfter(h[..n]), h[..n])
  {
    if n > 0 {
      hide Refines, RecentStored;
      RecentRefines(h, n - 1);
      assert h[..n] == h[..n - 1] + [h[n - 1]];
      StepRefines(h[..n - 1], h[n - 1]);
    } else {
      assert h[..n] == [];
    }
  }

  /** A clock that never goes back brings nothing back. */
  lemma MonotoneNeverBack(h: seq<Event>)
    requires Monotone(h)
    ensures NeverBack(h)
  {
    forall n: nat | n <= |h| ensures NothingBack(FailuresSince(h[..n])) {
      FailuresAscend(h[..n]);
    }
  }

  /** The pruned failures on a clock that goes 0, 400, 50: the first one is forgotten at 400. */
  lemma PrunedSetBack()
    ensures AfterFailure(AfterFailure(AfterFailure(FRESH, 0.0), 400.0), 50.0) == Circuit([400.0, 50.0], None, Closed)
  {
    RecentSnoc([], 0.0, 400.0);
    RecentSnoc([], 400.0, 50.0);
    assert [] + [0.0] == [0.0] && [] + [400.0] == [400.0];
    assert AfterFailure(FRESH, 0.0) == Circuit([0.0], None, Closed);
    assert AfterFailure(Circuit([0.0], None, Closed), 400.0) == Circuit([400.0], None, Closed);
  }

  lemma HistorySnoc(h: seq<Event>, t: real)
    ensures FailuresSince(h + [Failed(t)]) == FailuresSince(h) + [t]
    ensures OpenedAt(h + [Failed(t)])
         == if OpenedAt(h).Some? then OpenedAt(h)
            else if |Recent(FailuresSince(h) + [t], t)| >= FAILURE_THRESHOLD then Some(t) else None
    ensures StoredAfter(h + [Failed(t)]) == AfterFailure(StoredAfter(h), t)
  {
    assert (h + [Failed(t)])[..|h + [Failed(t)]| - 1] == h;
  }

  /**
    A failure of five minutes before the clock was set back is forgotten though it is recent again: the circuit stays
    closed.
  */
  lemma ClockSetBack()
    ensures var h := [Failed(0.0), Failed(400.0), Failed(50.0)];
      OpenedAt(h) == Some(50.0) && StoredAfter(h).openedAt == None && BackAt(FailuresSince(h), 0, 1, 50.0)
  {
    hide Recent, OpenedAt, FailuresSince, AfterFailure, StoredAfter;
    var h1, h2 := [Failed(0.0)], [Failed(0.0), Failed(400.0)];
    assert h1 == [] + [Failed(0.0)] && h2 == h1 + [Failed(400.0)];
    assert [Failed(0.0), Failed(400.0), Failed(50.0)] == h2 + [Failed(50.0)];
    EmptyHistory();
    HistorySnoc([], 0.0);
    HistorySnoc(h1, 400.0);
    HistorySnoc(h2, 50.0);
    RecentSnoc([], 0.0, 50.0);
    RecentSnoc([0.0], 400.0, 50.0);
    RecentSnoc([0.0, 400.0], 50.0, 50.0);
    assert [] + [0.0] == [0.0] && [0.0] + [400.0] == [0.0, 400.0];
    assert [0.0, 400.0] + [50.0] == [0.0, 400.0, 50.0];
    PrunedSetBack();
  }

  lemma EmptyHistory()
    ensures OpenedAt([]) == None && FailuresSince([]) == [] && StoredAfter([]) == FRESH &&
      forall now :: Recent([], now) == []
  {
  }
}
