/**
  Credit balances, reservations and the append-only transaction log (services/credit_service.py,
  db/models/credits.py), as state transitions: each service call runs under the row lock and is one step.
*/
module CreditBooks {
  import opened Wrappers

  type Tenant = string

  datatype Status = Pending | Confirmed | Released

  /** What is available is balance - reserved. */
  datatype Balance = Balance(balance: real, reserved: real)

  datatype Reservation = Reservation(tenant: Tenant, amount: real, taskType: string, status: Status)

  datatype Direction = Debit | Credit

  datatype Tx = Tx(tenant: Tenant, taskType: string, amount: real, direction: Direction,
                   before: real, after: real, reservation: Option<nat>, status: Status)

  /** The three tables. A reservation's id is its position: ids are never reused. */
  datatype Books = Books(rows: map<Tenant, Balance>, reservations: seq<Reservation>, log: seq<Tx>)

  datatype Step =
    | Reserve(tenant: Tenant, taskType: string, amount: real)
    | Confirm(tenant: Tenant, id: nat)
    | Release(tenant: Tenant, id: nat)
    | Add(tenant: Tenant, amount: real, reason: string)

  const NO_CREDITS := Balance(0.0, 0.0)

  /** A tenant without a row has nothing. */
  function Row(b: Books, t: Tenant): Balance {
    if t in b.rows then b.rows[t] else NO_CREDITS
  }

  /** SELECT ... WHERE id AND tenant AND status = pending */
  predicate Settleable(b: Books, t: Tenant, id: nat) {
    id < |b.reservations| && b.reservations[id].tenant == t && b.reservations[id].status == Pending
  }

  /** The call raises instead of changing a balance. */
  predicate Refused(b: Books, s: Step) {
    match s
    case Reserve(t, _, amount) => Row(b, t).balance - Row(b, t).reserved < amount
    case Confirm(t, id) => !Settleable(b, t, id) || t !in b.rows
    case Release(t, id) => !Settleable(b, t, id) || t !in b.rows
    case Add(_, _, _) => false
  }

  /** The books after a call. A refused reservation has still created the missing row. */
  function Apply(b: Books, s: Step): Books {
    match s
    case Reserve(t, task, amount) =>
      var row := Row(b, t);
      if Refused(b, s) then b.(rows := b.rows[t := row])
      else
        b.(rows := b.rows[t := row.(reserved := row.reserved + amount)],
           reservations := b.reservations + [Reservation(t, amount, task, Pending)])
    case Confirm(t, id) =>
      if Refused(b, s) then b
      else
        var r, row := b.reservations[id], b.rows[t];
        var after := Balance(row.balance - r.amount, row.reserved - r.amount);
        Books(b.rows[t := after], b.reservations[id := r.(status := Confirmed)],
              b.log + [Tx(t, r.taskType, r.amount, Debit, row.balance, after.balance, Some(id), Confirmed)])
    case Release(t, id) =>
      if Refused(b, s) then b
      else
        var r, row := b.reservations[id], b.rows[t];
        Books(b.rows[t := row.(reserved := row.reserved - r.amount)], b.reservations[id := r.(status := Released)],
              b.log + [Tx(t, r.taskType, r.amount, Credit, row.balance, row.balance, Some(id), Released)])
    case Add(t, amount, reason) =>
      var row := Row(b, t);
      var after := row.balance + amount;
      b.(rows := b.rows[t := row.(balance := after)],
         log := b.log + [Tx(t, reason, amount, Credit, row.balance, after, None, Confirmed)])
  }

  function Run(b: Books, steps: seq<Step>): Books {
    if steps == [] then b else Apply(Run(b, steps[..|steps| - 1]), steps[|steps| - 1])
  }

  const EMPTY := Books(map[], [], [])

  // ----- Sums over the tables -----

  function Total(rs: seq<Reservation>, t: Tenant, status: Status): real {
    if rs == [] then 0.0
    else
      var r := rs[|rs| - 1];
      Total(rs[..|rs| - 1], t, status) + (if r.tenant == t && r.status == status then r.amount else 0.0)
  }

  /** What a transaction does to the balance: a release is written as a credit but gives nothing back. */
  function Effect(tx: Tx): real {
    if tx.status != Confirmed then 0.0 else if tx.direction == Credit then tx.amount else -tx.amount
  }

  function Replay(log: seq<Tx>, t: Tenant): real {
    if log == [] then 0.0
    else
      var tx := log[|log| - 1];
      Replay(log[..|log| - 1], t) + (if tx.tenant == t then Effect(tx) else 0.0)
  }

  /** The amounts of a tenant's log entries of one direction and status. */
  function Logged(log: seq<Tx>, t: Tenant, direction: Direction, status: Status): real {
    if log == [] then 0.0
    else
      var tx := log[|log| - 1];
      Logged(log[..|log| - 1], t, direction, status)
      + (if tx.tenant == t && tx.direction == direction && tx.status == status then tx.amount else 0.0)
  }

  function Settlements(log: seq<Tx>, id: nat): nat {
    if log == [] then 0
    else Settlements(log[..|log| - 1], id) + (if log[|log| - 1].reservation == Some(id) then 1 else 0)
  }

  // ----- The invariant -----

  /** reserved is what is pending, and 0 <= reserved <= balance. */
  ghost predicate Solvent(b: Books) {
    forall t: Tenant :: SolventFor(b, t)
  }

  ghost predicate SolventFor(b: Books, t: Tenant) {
    Row(b, t).reserved == Total(b.reservations, t, Pending) && 0.0 <= Row(b, t).reserved <= Row(b, t).balance
  }

  predicate NonNegative(rs: seq<Reservation>) {
    forall i :: 0 <= i < |rs| ==> rs[i].amount >= 0.0
  }

  /** Every entry's balances are the replay of the log before and after it; the row shows the end of the replay. */
  ghost predicate Replays(b: Books) {
    && (forall t: Tenant :: Row(b, t).balance == Replay(b.log, t))
    && (forall k :: 0 <= k < |b.log| ==> EntryReplays(b.log, k))
  }

  predicate EntryReplays(log: seq<Tx>, k: nat)
    requires k < |log|
  {
    var t := log[k].tenant;
    log[k].before == Replay(log[..k], t) && log[k].after == Replay(log[..k + 1], t)
  }

  /** A pending reservation has no transaction, a settled one exactly one. */
  ghost predicate SettledOnce(b: Books) {
    forall id: nat :: Settlements(b.log, id) == (if Settled(b.reservations, id) then 1 else 0)
  }

  predicate Settled(rs: seq<Reservation>, id: nat) { id < |rs| && rs[id].status != Pending }

  /** Confirmed debits in the log are the confirmed reservations, and releases the released ones. */
  ghost predicate LogMatchesReservations(b: Books) {
    forall t: Tenant ::
      && Logged(b.log, t, Debit, Confirmed) == Total(b.reservations, t, Confirmed)
      && Logged(b.log, t, Credit, Released) == Total(b.reservations, t, Released)
  }

  /** Reservations only exist for tenants with a row. */
  predicate Backed(b: Books) {
    forall i :: 0 <= i < |b.reservations| ==> b.reservations[i].tenant in b.rows
  }

  ghost predicate Sane(b: Books) {
    Solvent(b) && NonNegative(b.reservations) && Backed(b)
  }

  ghost predicate Booked(b: Books) {
    Replays(b) && SettledOnce(b) && LogMatchesReservations(b)
  }

  // ----- What one step does to the sums -----

  lemma {:induction false} TotalSnoc(rs: seq<Reservation>, r: Reservation, t: Tenant, status: Status)
    ensures Total(rs + [r], t, status) ==
      Total(rs, t, status) + (if r.tenant == t && r.status == status then r.amount else 0.0)
  {
    assert (rs + [r])[..|rs|] == rs;
  }

  function Share(r: Reservation, t: Tenant, status: Status): real {
    if r.tenant == t && r.status == status then r.amount else 0.0
  }

  lemma {:induction false} TotalUpdate(rs: seq<Reservation>, i: nat, r: Reservation, t: Tenant, status: Status)
    requires i < |rs|
    ensures Total(rs[i := r], t, status) == Total(rs, t, status) - Share(rs[i], t, status) + Share(r, t, status)
  {
    var n := |rs| - 1;
    if i == n {
      assert rs[i := r][..n] == rs[..n];
    } else {
      assert rs[i := r][..n] == rs[..n][i := r];
      TotalUpdate(rs[..n], i, r, t, status);
    }
  }

  lemma {:induction false} TotalNonNegative(rs: seq<Reservation>, t: Tenant, status: Status)
    requires NonNegative(rs)
    ensures Total(rs, t, status) >= 0.0
  {
    if rs != [] {
      TotalNonNegative(rs[..|rs| - 1], t, status);
    }
  }

  lemma LogSnoc(log: seq<Tx>, tx: Tx, t: Tenant, d: Direction, s: Status, id: nat)
    ensures Replay(log + [tx], t) == Replay(log, t) + (if tx.tenant == t then Effect(tx) else 0.0)
    ensures Logged(log + [tx], t, d, s)
         == Logged(log, t, d, s) + (if tx.tenant == t && tx.direction == d && tx.status == s then tx.amount else 0.0)
    ensures Settlements(log + [tx], id) == Settlements(log, id) + (if tx.reservation == Some(id) then 1 else 0)
  {
    assert (log + [tx])[..|log|] == log;
  }

  // ----- What one step writes -----

  function RowAfter(b: Books, s: Step): Balance
    requires !Refused(b, s)
  {
    var row := Row(b, s.tenant);
    match s
    case Reserve(_, _, amount) => Balance(row.balance, row.reserved + amount)
    case Confirm(_, id) => Balance(row.balance - b.reservations[id].amount, row.reserved - b.reservations[id].amount)
    case Release(_, id) => Balance(row.balance, row.reserved - b.reservations[id].amount)
    case Add(_, amount, _) => Balance(row.balance + amount, row.reserved)
  }

  function ReservationsAfter(b: Books, s: Step): seq<Reservation>
    requires !Refused(b, s)
  {
    match s
    case Reserve(t, task, amount) => b.reservations + [Reservation(t, amount, task, Pending)]
    case Confirm(_, id) => b.reservations[id := b.reservations[id].(status := Confirmed)]
    case Release(_, id) => b.reservations[id := b.reservations[id].(status := Released)]
    case Add(_, _, _) => b.reservations
  }

  /** The log entry of an accepted step other than a reservation. */
  function Entry(b: Books, s: Step): Tx
    requires !Refused(b, s) && !s.Reserve?
  {
    var row := Row(b, s.tenant);
    match s
    case Confirm(t, id) =>
      var r := b.reservations[id];
      Tx(t, r.taskType, r.amount, Debit, row.balance, row.balance - r.amount, Some(id), Confirmed)
    case Release(t, id) =>
      var r := b.reservations[id];
      Tx(t, r.taskType, r.amount, Credit, row.balance, row.balance, Some(id), Released)
    case Add(t, amount, reason) =>
      Tx(t, reason, amount, Credit, row.balance, row.balance + amount, None, Confirmed)
  }

  lemma ReserveWrites(b: Books, s: Step)
    requires s.Reserve? && !Refused(b, s)
    ensures Apply(b, s) == Books(b.rows[s.tenant := RowAfter(b, s)], ReservationsAfter(b, s), b.log)
  {
    hide Total, Replay, Logged, Settlements, Run;
  }

  lemma ConfirmWrites(b: Books, s: Step)
    requires s.Confirm? && !Refused(b, s)
    ensures Apply(b, s) == Books(b.rows[s.tenant := RowAfter(b, s)], ReservationsAfter(b, s), b.log + [Entry(b, s)])
  {
    hide Total, Replay, Logged, Settlements, Run;
  }

  lemma ReleaseWrites(b: Books, s: Step)
    requires s.Release? && !Refused(b, s)
    ensures Apply(b, s) == Books(b.rows[s.tenant := RowAfter(b, s)], ReservationsAfter(b, s), b.log + [Entry(b, s)])
  {
    hide Total, Replay, Logged, Settlements, Run;
  }

  lemma AddWrites(b: Books, s: Step)
    requires s.Add?
    ensures Apply(b, s) == Books(b.rows[s.tenant := RowAfter(b, s)], ReservationsAfter(b, s), b.log + [Entry(b, s)])
  {
    hide Total, Replay, Logged, Settlements, Run;
  }

  /** An accepted step writes the tenant's row, at most one reservation, and one entry unless it reserves. */
  lemma Writes(b: Books, s: Step)
    requires !Refused(b, s)
    ensures Apply(b, s).rows == b.rows[s.tenant := RowAfter(b, s)]
    ensures Apply(b, s).reservations == ReservationsAfter(b, s)
    ensures Apply(b, s).log == if s.Reserve? then b.log else b.log + [Entry(b, s)]
  {
    hide Apply, RowAfter, ReservationsAfter, Entry, Refused, Row;
    match s
    case Reserve(_, _, _) => ReserveWrites(b, s);
    case Confirm(_, _) => ConfirmWrites(b, s);
    case Release(_, _) => ReleaseWrites(b, s);
    case Add(_, _, _) => AddWrites(b, s);
  }

  /** A refused step changes no balance; a refused reservation may have created the tenant's empty row. */
  lemma RefusedWrites(b: Books, s: Step)
    requires Refused(b, s)
    ensures Apply(b, s).reservations == b.reservations && Apply(b, s).log == b.log
    ensures Apply(b, s).rows == b.rows || Apply(b, s).rows == b.rows[s.tenant := Row(b, s.tenant)]
  {
    hide Total, Replay, Logged, Settlements, Run;
  }

  lemma RowsAfter(b: Books, s: Step)
    ensures Refused(b, s) ==> Row(Apply(b, s), s.tenant) == Row(b, s.tenant)
    ensures !Refused(b, s) ==> Row(Apply(b, s), s.tenant) == RowAfter(b, s)
    ensures forall t :: t != s.tenant ==> Row(Apply(b, s), t) == Row(b, t)
  {
    hide Apply, RowAfter, Refused;
    if Refused(b, s) {
      RefusedWrites(b, s);
    } else {
      Writes(b, s);
    }
  }

  lemma TotalsAfter(b: Books, s: Step, t: Tenant, st: Status)
    requires !Refused(b, s)
    ensures Total(ReservationsAfter(b, s), t, st) ==
      Total(b.reservations, t, st) + (if t == s.tenant then TotalChange(b, s, st) else 0.0)
  {
    hide Total;
    match s
    case Reserve(u, task, amount) => TotalSnoc(b.reservations, Reservation(u, amount, task, Pending), t, st);
    case Confirm(_, id) => TotalUpdate(b.reservations, id, b.reservations[id].(status := Confirmed), t, st);
    case Release(_, id) => TotalUpdate(b.reservations, id, b.reservations[id].(status := Released), t, st);
    case Add(_, _, _) =>
  }

  /** What an accepted step adds to its tenant's total of the given status. */
  function TotalChange(b: Books, s: Step, st: Status): real
    requires !Refused(b, s)
  {
    match s
    case Reserve(_, _, amount) => if st == Pending then amount else 0.0
    case Confirm(_, id) => Moved(b.reservations[id].amount, Confirmed, st)
    case Release(_, id) => Moved(b.reservations[id].amount, Released, st)
    case Add(_, _, _) => 0.0
  }

  function Moved(amount: real, to: Status, st: Status): real {
    if st == Pending then -amount else if st == to then amount else 0.0
  }

  // ----- One step -----

  /**
    What a caller has to check: a reservation's amount is not negative, and an addition does not
    take away more than is available. The service checks neither.
  */
  predicate Admissible(b: Books, s: Step) {
    match s
    case Reserve(_, _, amount) => amount >= 0.0
    case Add(t, amount, _) => amount >= Row(b, t).reserved - Row(b, t).balance
    case _ => true
  }

  /** A step of one tenant changes no other tenant's row, reservations or sums. */
  lemma OthersUntouched(b: Books, s: Step, t: Tenant)
    requires t != s.tenant
    ensures var a := Apply(b, s);
      && Row(a, t) == Row(b, t)
      && (forall st :: Total(a.reservations, t, st) == Total(b.reservations, t, st))
      && Replay(a.log, t) == Replay(b.log, t)
      && (forall d, st :: Logged(a.log, t, d, st) == Logged(b.log, t, d, st))
  {
    hide Apply, Refused, Row, Total, Replay, Logged, RowAfter, ReservationsAfter, TotalChange;
    RowsAfter(b, s);
    if Refused(b, s) {
      RefusedWrites(b, s);
    } else {
      Writes(b, s);
      forall st ensures Total(ReservationsAfter(b, s), t, st) == Total(b.reservations, t, st) {
        TotalsAfter(b, s, t, st);
      }
      if !s.Reserve? {
        forall d, st
          ensures Replay(b.log + [Entry(b, s)], t) == Replay(b.log, t)
          ensures Logged(b.log + [Entry(b, s)], t, d, st) == Logged(b.log, t, d, st)
        {
          LogSnoc(b.log, Entry(b, s), t, d, st, 0);
        }
        assert Logged(b.log, t, Debit, Confirmed) == Logged(b.log + [Entry(b, s)], t, Debit, Confirmed);
      }
    }
  }

  lemma RowFits(b: Books, s: Step)
    requires !Refused(b, s) && Admissible(b, s)
    requires 0.0 <= Row(b, s.tenant).reserved <= Row(b, s.tenant).balance
    requires s.Confirm? || s.Release? ==> 0.0 <= b.reservations[s.id].amount <= Row(b, s.tenant).reserved
    ensures 0.0 <= RowAfter(b, s).reserved <= RowAfter(b, s).balance
    ensures RowAfter(b, s).reserved == Row(b, s.tenant).reserved + TotalChange(b, s, Pending)
  {
    hide Total, Replay, Logged, Settlements, Run, Apply, Settleable;
    var row := Row(b, s.tenant);
    hide Row;
    match s
    case Reserve(_, _, amount) => assert 0.0 <= amount <= row.balance - row.reserved;
    case Confirm(_, _) =>
    case Release(_, _) =>
    case Add(_, amount, _) => assert amount >= row.reserved - row.balance;
  }

  lemma OwnRowStaysSolvent(b: Books, s: Step)
    requires SolventFor(b, s.tenant) && NonNegative(b.reservations) && Admissible(b, s)
    ensures SolventFor(Apply(b, s), s.tenant)
  {
    hide Apply, Refused, Row, Total, RowAfter, ReservationsAfter, TotalChange, Admissible, NonNegative;
    RowsAfter(b, s);
    if Refused(b, s) {
      RefusedWrites(b, s);
    } else {
      Writes(b, s);
      TotalsAfter(b, s, s.tenant, Pending);
      if s.Confirm? || s.Release? {
        SettlingFits(b, s);
      }
      RowFits(b, s);
    }
  }

  lemma SettlingFits(b: Books, s: Step)
    requires (s.Confirm? || s.Release?) && !Refused(b, s)
    requires SolventFor(b, s.tenant) && NonNegative(b.reservations)
    ensures 0.0 <= b.reservations[s.id].amount <= Row(b, s.tenant).reserved
  {
    hide Total, Row, Replay, Logged, Settlements, Run, Apply;
    var r := b.reservations[s.id];
    var rest := b.reservations[s.id := r.(status := Confirmed)];
    TotalUpdate(b.reservations, s.id, r.(status := Confirmed), s.tenant, Pending);
    TotalNonNegative(rest, s.tenant, Pending);
  }

  lemma OtherRowsStaySolvent(b: Books, s: Step, t: Tenant)
    requires SolventFor(b, t) && t != s.tenant
    ensures SolventFor(Apply(b, s), t)
  {
    hide Apply, Row, Total, Replay, Logged;
    OthersUntouched(b, s, t);
  }

  lemma AmountsStayNonNegative(b: Books, s: Step)
    requires NonNegative(b.reservations) && Backed(b) && Admissible(b, s)
    ensures NonNegative(Apply(b, s).reservations) && Backed(Apply(b, s))
  {
    hide Apply, Total, Replay, Logged, Settlements, Run, Row, RowAfter;
    if Refused(b, s) {
      RefusedWrites(b, s);
    } else {
      Writes(b, s);
    }
  }

  /** An admissible step keeps 0 <= reserved == pending <= balance for every tenant. */
  lemma AdmissibleKeepsSane(b: Books, s: Step)
    requires Sane(b) && Admissible(b, s)
    ensures Sane(Apply(b, s))
  {
    hide Apply, Admissible, SolventFor, NonNegative, Backed;
    AmountsStayNonNegative(b, s);
    forall t: Tenant ensures SolventFor(Apply(b, s), t) {
      assert SolventFor(b, t);
      if t == s.tenant {
        OwnRowStaysSolvent(b, s);
      } else {
        OtherRowsStaySolvent(b, s, t);
      }
    }
  }

  // ----- What an unchecked amount does in the end -----

  predicate OnlySettling(steps: seq<Step>) {
    forall i :: 0 <= i < |steps| ==> steps[i].Confirm? || steps[i].Release?
  }

  lemma RunSnoc(b: Books, steps: seq<Step>, s: Step)
    ensures Run(b, steps + [s]) == Apply(Run(b, steps), s)
  {
    hide Apply;
    assert (steps + [s])[..|steps|] == steps;
  }

  /** Settling keeps what holds of sane books. */
  lemma {:induction false} SettlingKeepsSane(b: Books, steps: seq<Step>)
    requires Sane(b) && OnlySettling(steps)
    ensures Sane(Run(b, steps))
  {
    hide Sane, Apply;
    if steps != [] {
      var n := |steps| - 1;
      SettlingKeepsSane(b, steps[..n]);
      AdmissibleKeepsSane(Run(b, steps[..n]), steps[n]);
    }
  }

  /** The tenant's first n reservations, released as far as they are pending. */
  ghost predicate Drains(b: Books, t: Tenant, n: nat, steps: seq<Step>)
    requires n <= |b.reservations|
  {
    var a := Run(b, steps);
    && OnlySettling(steps)
    && t in a.rows && |a.reservations| == |b.reservations| && a.reservations[n..] == b.reservations[n..]
    && Row(a, t).reserved == Row(b, t).reserved - Total(b.reservations[..n], t, Pending)
  }

  lemma {:induction false} CanDrain(b: Books, t: Tenant, n: nat) returns (steps: seq<Step>)
    requires n <= |b.reservations| && t in b.rows
    ensures Drains(b, t, n, steps)
  {
    steps := [];
    if n > 0 {
      hide Drains, Apply, Run, Refused, Settleable;
      steps := CanDrain(b, t, n - 1);
      var mid := Run(b, steps);
      DrainStep(b, t, n, steps);
      if Settleable(mid, t, n - 1) {
        steps := steps + [Release(t, n - 1)];
      }
    }
  }

  lemma DrainStep(b: Books, t: Tenant, n: nat, steps: seq<Step>)
    requires 0 < n <= |b.reservations| && Drains(b, t, n - 1, steps)
    ensures Drains(b, t, n, if Settleable(Run(b, steps), t, n - 1) then steps + [Release(t, n - 1)] else steps)
  {
    hide Apply, Run, RowAfter, ReservationsAfter, Total;
    var mid, r := Run(b, steps), b.reservations[n - 1];
    assert mid.reservations[n - 1] == mid.reservations[n - 1..][0] == r;
    assert mid.reservations[n..] == mid.reservations[n - 1..][1..] == b.reservations[n - 1..][1..] ==
      b.reservations[n..];
    assert b.reservations[..n] == b.reservations[..n - 1] + [r];
    TotalSnoc(b.reservations[..n - 1], r, t, Pending);
    if Settleable(mid, t, n - 1) {
      RunSnoc(b, steps, Release(t, n - 1));
      ReleaseShape(mid, t, n - 1);
    }
  }

  lemma ReleaseShape(b: Books, t: Tenant, id: nat)
    requires Settleable(b, t, id) && t in b.rows
    ensures var a := Apply(b, Release(t, id));
      && t in a.rows && Row(a, t).reserved == Row(b, t).reserved - b.reservations[id].amount
      && |a.reservations| == |b.reservations| && a.reservations[id + 1..] == b.reservations[id + 1..]
  {
    hide Apply, Total;
    Writes(b, Release(t, id));
    RowsAfter(b, Release(t, id));
  }

  /** A negative reservation is accepted, and once what was pending before it is released, reserved is negative. */
  lemma NegativeReservationBreaks(b: Books, s: Step) returns (steps: seq<Step>)
    requires Sane(b) && s.Reserve? && s.amount < 0.0
    ensures OnlySettling(steps) && !SolventFor(Run(Apply(b, s), steps), s.tenant)
  {
    assert SolventFor(b, s.tenant);
    assert !Refused(b, s);
    var a, n, t := Apply(b, s), |b.reservations|, s.tenant;
    hide Apply, Run, Total, NonNegative, Refused;
    Writes(b, s);
    RowsAfter(b, s);
    steps := CanDrain(a, t, n);
    assert a.reservations[..n] == b.reservations;
    assert Row(a, t).reserved == Total(b.reservations, t, Pending) + s.amount;
  }

  lemma OverdrawingAddBreaks(b: Books, s: Step)
    requires s.Add? && !Admissible(b, s)
    ensures !SolventFor(Apply(b, s), s.tenant)
  {
    hide Apply, Total;
    RowsAfter(b, s);
  }

  /**
    A step leaves 0 <= reserved == pending <= balance in force for good, whatever is confirmed or released
    after it, exactly when its amount is one the service should have checked.
  */
  lemma SolventForGoodIff(b: Books, s: Step)
    requires Sane(b)
    ensures (forall steps :: OnlySettling(steps) ==> Solvent(Run(Apply(b, s), steps))) <==> Admissible(b, s)
  {
    hide Apply, NonNegative, Backed, SolventFor, OnlySettling;
    if Admissible(b, s) {
      AdmissibleKeepsSane(b, s);
      forall steps | OnlySettling(steps) ensures Solvent(Run(Apply(b, s), steps)) {
        SettlingKeepsSane(Apply(b, s), steps);
      }
    } else if s.Reserve? {
      var steps := NegativeReservationBreaks(b, s);
      assert !Solvent(Run(Apply(b, s), steps));
    } else {
      OverdrawingAddBreaks(b, s);
      NothingToSettle(Apply(b, s));
      assert !Solvent(Run(Apply(b, s), []));
    }
  }

  lemma NothingToSettle(b: Books)
    ensures OnlySettling([]) && Run(b, []) == b
  {
  }

  // ----- The log -----

  lemma EntryStill(log: seq<Tx>, tx: Tx, k: nat)
    requires k < |log| && EntryReplays(log, k)
    ensures EntryReplays(log + [tx], k)
  {
    hide Replay;
    assert (log + [tx])[..k] == log[..k] && (log + [tx])[..k + 1] == log[..k + 1];
  }

  /** The new entry starts from the tenant's balance and ends with the new one. */
  lemma NewEntry(b: Books, s: Step)
    requires !Refused(b, s) && !s.Reserve?
    ensures var tx := Entry(b, s);
      && tx.tenant == s.tenant && tx.status != Pending
      && tx.before == Row(b, s.tenant).balance
      && tx.after == RowAfter(b, s).balance == tx.before + Effect(tx)
  {
    hide Apply, Total, Replay, Logged, Settlements, Run, Row;
  }

  lemma SameBalances(b: Books, s: Step, t: Tenant)
    requires Refused(b, s) || s.Reserve?
    ensures Row(Apply(b, s), t).balance == Row(b, t).balance
  {
    hide Apply, Refused, Row;
    RowsAfter(b, s);
  }

  lemma KeepsReplays(b: Books, s: Step)
    requires Replays(b)
    ensures Replays(Apply(b, s))
  {
    hide Apply, Refused, RowAfter, ReservationsAfter, Entry, Replay, EntryReplays, Row;
    var a := Apply(b, s);
    RowsAfter(b, s);
    if Refused(b, s) || s.Reserve? {
      if Refused(b, s) {
        RefusedWrites(b, s);
      } else {
        Writes(b, s);
      }
      forall t: Tenant ensures Row(a, t).balance == Replay(a.log, t) {
        SameBalances(b, s, t);
      }
    } else {
      Writes(b, s);
      NewEntry(b, s);
      ReplaysWithEntry(b, a, Entry(b, s));
    }
  }

  lemma ReplaysWithEntry(b: Books, a: Books, tx: Tx)
    requires Replays(b) && a.log == b.log + [tx]
    requires tx.before == Row(b, tx.tenant).balance
    requires tx.after == Row(a, tx.tenant).balance == tx.before + Effect(tx)
    requires forall t :: t != tx.tenant ==> Row(a, t) == Row(b, t)
    ensures Replays(a)
  {
    hide Row, Replay, Effect, EntryReplays;
    var log := b.log;
    forall t: Tenant ensures Row(a, t).balance == Replay(a.log, t) {
      LogSnoc(log, tx, t, Debit, Confirmed, 0);
      assert Row(b, t).balance == Replay(log, t);
    }
    forall k | 0 <= k < |a.log| ensures EntryReplays(a.log, k) {
      if k < |log| {
        EntryStill(log, tx, k);
      } else {
        LastReplays(b, a, tx);
      }
    }
  }

  lemma LastReplays(b: Books, a: Books, tx: Tx)
    requires a.log == b.log + [tx] && tx.before == Replay(b.log, tx.tenant) && tx.after == Replay(a.log, tx.tenant)
    ensures EntryReplays(a.log, |b.log|)
  {
    hide Replay;
    assert a.log[..|b.log|] == b.log && a.log[..|b.log| + 1] == a.log;
  }

  lemma SettledAfter(b: Books, s: Step, id: nat)
    requires !Refused(b, s)
    ensures Settled(ReservationsAfter(b, s), id) <==>
      Settled(b.reservations, id) || ((s.Confirm? || s.Release?) && s.id == id)
    ensures s.Confirm? || s.Release? ==> !Settled(b.reservations, s.id)
    ensures !s.Reserve? ==> (Entry(b, s).reservation == Some(id) <==> (s.Confirm? || s.Release?) && s.id == id)
  {
    hide Apply, Total, Replay, Logged, Settlements, Run, Row;
  }

  lemma KeepsSettledOnce(b: Books, s: Step)
    requires SettledOnce(b)
    ensures SettledOnce(Apply(b, s))
  {
    hide Apply, Refused, ReservationsAfter, Entry, Settlements, Settled;
    if Refused(b, s) {
      RefusedWrites(b, s);
    } else {
      Writes(b, s);
      forall id: nat
        ensures Settlements(Apply(b, s).log, id) == (if Settled(Apply(b, s).reservations, id) then 1 else 0)
      {
        assert Settlements(b.log, id) == (if Settled(b.reservations, id) then 1 else 0);
        SettledAfter(b, s, id);
        if !s.Reserve? {
          LogSnoc(b.log, Entry(b, s), s.tenant, Debit, Confirmed, id);
        }
      }
    }
  }

  lemma LoggedAfter(b: Books, s: Step)
    requires !Refused(b, s)
    ensures var log := if s.Reserve? then b.log else b.log + [Entry(b, s)];
      && Logged(log, s.tenant, Debit, Confirmed) ==
           Logged(b.log, s.tenant, Debit, Confirmed) + TotalChange(b, s, Confirmed)
      && Logged(log, s.tenant, Credit, Released) ==
           Logged(b.log, s.tenant, Credit, Released) + TotalChange(b, s, Released)
  {
    hide Apply, Total, Replay, Logged, Settlements, Run, Row;
    if !s.Reserve? {
      LogSnoc(b.log, Entry(b, s), s.tenant, Debit, Confirmed, 0);
      LogSnoc(b.log, Entry(b, s), s.tenant, Credit, Released, 0);
    }
  }

  lemma KeepsLogMatches(b: Books, s: Step)
    requires LogMatchesReservations(b)
    ensures LogMatchesReservations(Apply(b, s))
  {
    hide Apply, Refused, ReservationsAfter, Entry, Logged, Total, TotalChange;
    forall t: Tenant
      ensures Logged(Apply(b, s).log, t, Debit, Confirmed) == Total(Apply(b, s).reservations, t, Confirmed)
      ensures Logged(Apply(b, s).log, t, Credit, Released) == Total(Apply(b, s).reservations, t, Released)
    {
      assert Logged(b.log, t, Debit, Confirmed) == Total(b.reservations, t, Confirmed);
      if t != s.tenant {
        OthersUntouched(b, s, t);
      } else if Refused(b, s) {
        RefusedWrites(b, s);
      } else {
        Writes(b, s);
        TotalsAfter(b, s, t, Confirmed);
        TotalsAfter(b, s, t, Released);
        LoggedAfter(b, s);
      }
    }
  }

  // ----- Whole runs: any interleaving of any tenants' steps -----

  lemma EmptyIsFine()
    ensures Sane(EMPTY) && Booked(EMPTY)
  {
  }

  /** Log and reservations agree after every run, whatever the amounts. */
  lemma {:induction false} EveryRunIsBooked(steps: seq<Step>)
    ensures Booked(Run(EMPTY, steps))
  {
    if steps == [] {
      EmptyIsFine();
    } else {
      hide Apply, Replays, SettledOnce, LogMatchesReservations, EMPTY;
      var b, s := Run(EMPTY, steps[..|steps| - 1]), steps[|steps| - 1];
      EveryRunIsBooked(steps[..|steps| - 1]);
      KeepsReplays(b, s);
      KeepsSettledOnce(b, s);
      KeepsLogMatches(b, s);
    }
  }

  ghost predicate AllAdmissible(steps: seq<Step>) {
    forall k {:trigger steps[..k]} :: 0 <= k < |steps| ==> Admissible(Run(EMPTY, steps[..k]), steps[k])
  }

  /** No run of admissible steps overdraws: 0 <= reserved == pending <= balance for every tenant, always. */
  lemma {:induction false} EveryRunIsSane(steps: seq<Step>)
    requires AllAdmissible(steps)
    ensures Sane(Run(EMPTY, steps))
  {
    if steps == [] {
      EmptyIsFine();
    } else {
      var n := |steps| - 1;
      forall k | 0 <= k < n ensures Admissible(Run(EMPTY, steps[..n][..k]), steps[..n][k]) {
        assert steps[..n][..k] == steps[..k];
      }
      EveryRunIsSane(steps[..n]);
      AdmissibleKeepsSane(Run(EMPTY, steps[..n]), steps[n]);
    }
  }

  /** In every run, whatever the amounts, a reservation's tenant has a row. */
  lemma {:induction false} EveryRunIsBacked(steps: seq<Step>)
    ensures Backed(Run(EMPTY, steps))
  {
    if steps != [] {
      hide Apply;
      var b, s := Run(EMPTY, steps[..|steps| - 1]), steps[|steps| - 1];
      EveryRunIsBacked(steps[..|steps| - 1]);
      KeepsBacked(b, s);
    }
  }

  lemma KeepsBacked(b: Books, s: Step)
    requires Backed(b)
    ensures Backed(Apply(b, s))
  {
    hide Apply, Row, RowAfter, Entry;
    if Refused(b, s) {
      RefusedWrites(b, s);
    } else {
      Writes(b, s);
    }
  }

  /**
    After every run a pending reservation can be confirmed or released, by its tenant: it is settled, the row
    moves by its amount, and every other reservation stays as it is.
  */
  lemma PendingCanBeSettled(steps: seq<Step>, id: nat)
    requires var b := Run(EMPTY, steps); id < |b.reservations| && b.reservations[id].status == Pending
    ensures var b := Run(EMPTY, steps);
      var r := b.reservations[id];
      var confirmed, released := Apply(b, Confirm(r.tenant, id)), Apply(b, Release(r.tenant, id));
      && r.tenant in b.rows
      && confirmed.reservations == b.reservations[id := r.(status := Confirmed)]
      && released.reservations == b.reservations[id := r.(status := Released)]
      && r.tenant in confirmed.rows && r.tenant in released.rows
      && confirmed.rows[r.tenant].balance == b.rows[r.tenant].balance - r.amount
      && confirmed.rows[r.tenant].reserved == b.rows[r.tenant].reserved - r.amount
      && released.rows[r.tenant].balance == b.rows[r.tenant].balance
      && released.rows[r.tenant].reserved == b.rows[r.tenant].reserved - r.amount
      && |confirmed.log| == |released.log| == |b.log| + 1
  {
    hide Run;
    EveryRunIsBacked(steps);
    var b := Run(EMPTY, steps);
    var t := b.reservations[id].tenant;
    hide Apply;
    Writes(b, Confirm(t, id));
    Writes(b, Release(t, id));
  }

  /** A reservation is accepted exactly when that much is available; nothing is available without a row. */
  lemma ReservedIff(b: Books, t: Tenant, task: string, amount: real)
    ensures var a := Apply(b, Reserve(t, task, amount));
      var free := if t in b.rows then b.rows[t].balance - b.rows[t].reserved else 0.0;
      if free >= amount then a.reservations == b.reservations + [Reservation(t, amount, task, Pending)]
      else a.reservations == b.reservations
  {
    hide Total, Run;
  }

  /** Once settled, a reservation stays as it is and every later attempt to settle it is refused. */
  lemma {:induction false} SettledForGood(b: Books, steps: seq<Step>, id: nat)
    requires id < |b.reservations| && b.reservations[id].status != Pending
    ensures id < |Run(b, steps).reservations| && Run(b, steps).reservations[id] == b.reservations[id]
    ensures forall t :: Refused(Run(b, steps), Confirm(t, id)) && Refused(Run(b, steps), Release(t, id))
  {
    if steps != [] {
      hide Apply;
      SettledForGood(b, steps[..|steps| - 1], id);
      SettledStays(Run(b, steps[..|steps| - 1]), steps[|steps| - 1], id);
    }
  }

  lemma SettledStays(b: Books, s: Step, id: nat)
    requires Settled(b.reservations, id)
    ensures Settled(Apply(b, s).reservations, id) && Apply(b, s).reservations[id] == b.reservations[id]
  {
    hide Apply, Row, RowAfter, Entry;
    if Refused(b, s) {
      RefusedWrites(b, s);
    } else {
      Writes(b, s);
    }
  }

  lemma {:induction false} ReplayIsCreditsMinusDebits(log: seq<Tx>, t: Tenant)
    requires forall tx :: tx in log ==> tx.status != Pending
    ensures Replay(log, t) == Logged(log, t, Credit, Confirmed) - Logged(log, t, Debit, Confirmed)
  {
    if log != [] {
      assert log[|log| - 1] in log;
      ReplayIsCreditsMinusDebits(log[..|log| - 1], t);
    }
  }

  lemma {:induction false} NoPendingEntries(b: Books, steps: seq<Step>)
    requires forall tx :: tx in b.log ==> tx.status != Pending
    ensures forall tx :: tx in Run(b, steps).log ==> tx.status != Pending
  {
    if steps != [] {
      hide Apply, Refused, Entry, Row, RowAfter, ReservationsAfter;
      var mid, s := Run(b, steps[..|steps| - 1]), steps[|steps| - 1];
      NoPendingEntries(b, steps[..|steps| - 1]);
      if Refused(mid, s) {
        RefusedWrites(mid, s);
      } else {
        Writes(mid, s);
        if !s.Reserve? {
          NewEntry(mid, s);
        }
      }
    }
  }

  /** After every run the balance is what was added minus the reservations that were confirmed. */
  lemma BalanceIsAddedMinusConfirmed(steps: seq<Step>, t: Tenant)
    ensures var b := Run(EMPTY, steps);
      Row(b, t).balance == Logged(b.log, t, Credit, Confirmed) - Total(b.reservations, t, Confirmed)
  {
    var b := Run(EMPTY, steps);
    EveryRunIsBooked(steps);
    NoPendingEntries(EMPTY, steps);
    ReplayIsCreditsMinusDebits(b.log, t);
    assert Row(b, t).balance == Replay(b.log, t);
    assert Logged(b.log, t, Debit, Confirmed) == Total(b.reservations, t, Confirmed);
  }

  lemma {:induction false} NoEntriesBetween(log: seq<Tx>, t: Tenant, i: nat, k: nat)
    requires i <= k <= |log| && forall j :: i <= j < k ==> log[j].tenant != t
    ensures Replay(log[..k], t) == Replay(log[..i], t)
  {
    if i < k {
      NoEntriesBetween(log, t, i, k - 1);
      assert log[..k][..k - 1] == log[..k - 1];
    }
  }

  /** No entry of k's tenant stands from place i to k. */
  predicate NoneFrom(log: seq<Tx>, i: nat, k: nat)
    requires k < |log|
  {
    forall j :: i <= j < k ==> log[j].tenant != log[k].tenant
  }

  lemma FirstFromZero(log: seq<Tx>, k: nat)
    requires k < |log| && EntryReplays(log, k) && NoneFrom(log, 0, k)
    ensures log[k].before == 0.0
  {
    hide Logged, Settlements, Total;
    NoEntriesBetween(log, log[k].tenant, 0, k);
    assert log[..0] == [];
  }

  lemma EntryJoins(log: seq<Tx>, i: nat, k: nat)
    requires i < k < |log| && log[i].tenant == log[k].tenant && NoneFrom(log, i + 1, k)
    requires EntryReplays(log, i) && EntryReplays(log, k)
    ensures log[k].before == log[i].after
  {
    hide Replay;
    NoEntriesBetween(log, log[k].tenant, i + 1, k);
  }

  /**
    A tenant's consecutive entries join: each starts from the balance the one before it ended with, the first from
    zero.
  */
  lemma EntriesJoin(steps: seq<Step>, k: nat)
    requires k < |Run(EMPTY, steps).log|
    ensures var log := Run(EMPTY, steps).log;
      && (NoneFrom(log, 0, k) ==> log[k].before == 0.0)
      && forall i :: 0 <= i < k && log[i].tenant == log[k].tenant && NoneFrom(log, i + 1, k) ==>
           log[k].before == log[i].after
  {
    hide Run, Replay, EntryReplays, NoneFrom, SettledOnce, LogMatchesReservations;
    var log := Run(EMPTY, steps).log;
    EveryRunIsBooked(steps);
    assert EntryReplays(log, k);
    if NoneFrom(log, 0, k) {
      FirstFromZero(log, k);
    }
    forall i | 0 <= i < k && log[i].tenant == log[k].tenant && NoneFrom(log, i + 1, k)
      ensures log[k].before == log[i].after
    {
      assert EntryReplays(log, i);
      EntryJoins(log, i, k);
    }
  }

  /** Reading the log by direction alone overstates the balance by everything that was released. */
  lemma DirectionAloneOverstates(steps: seq<Step>, t: Tenant)
    ensures var b := Run(EMPTY, steps);
      Logged(b.log, t, Credit, Confirmed) + Logged(b.log, t, Credit, Released) - Logged(b.log, t, Debit, Confirmed)
        == Row(b, t).balance + Total(b.reservations, t, Released)
  {
    EveryRunIsBooked(steps);
    BalanceIsAddedMinusConfirmed(steps, t);
    var b := Run(EMPTY, steps);
    assert Logged(b.log, t, Debit, Confirmed) == Total(b.reservations, t, Confirmed);
    assert Logged(b.log, t, Credit, Released) == Total(b.reservations, t, Released);
  }

  /** Reserved is the pending total, and the row is within its bounds. */
  lemma RowIsSolvent(b: Books, t: Tenant, balance: real, first: Reservation, second: Reservation)
    requires Row(b, t) == Balance(balance, Share(first, t, Pending) + Share(second, t, Pending))
    requires b.reservations == [first, second]
    ensures SolventFor(b, t) <==> 0.0 <= Row(b, t).reserved <= balance
  {
    assert [first, second] == [first] + [second] && [first] == [] + [first];
    TotalSnoc([first], second, t, Pending);
    TotalSnoc([], first, t, Pending);
  }

  lemma TwoReservations(t: Tenant, first: real, second: real) returns (b: Books, a: Books)
    requires second < first <= 10.0 && first + second <= 10.0
    ensures b == Run(EMPTY, [Add(t, 10.0, "top-up"), Reserve(t, "task", first)]) &&
      !Refused(b, Reserve(t, "task", second))
    ensures a == Apply(b, Reserve(t, "task", second)) && Row(a, t) == Balance(10.0, first + second)
    ensures a.reservations == [Reservation(t, first, "task", Pending), Reservation(t, second, "task", Pending)]
    ensures t in a.rows
  {
    var add, one, two := Add(t, 10.0, "top-up"), Reserve(t, "task", first), Reserve(t, "task", second);
    var b0 := Apply(EMPTY, add);
    b := Apply(b0, one);
    a := Apply(b, two);
    RunSnoc(EMPTY, [], add);
    RunSnoc(EMPTY, [add], one);
    assert [] + [add] == [add] && [add] + [one] == [add, one];
  }

  /**
    Right after a negative reservation the row can still look sound; it is when the other reservation is
    released that reserved turns negative.
  */
  lemma NegativeReservationLooksSound(t: Tenant)
    ensures var b := Run(EMPTY, [Add(t, 10.0, "top-up"), Reserve(t, "task", 5.0)]);
      var s := Reserve(t, "task", -1.0);
      && !Refused(b, s) && !Admissible(b, s)
      && SolventFor(Apply(b, s), t) && !SolventFor(Apply(Apply(b, s), Release(t, 0)), t)
  {
    hide Apply, SolventFor, Run, Refused;
    var b, a := TwoReservations(t, 5.0, -1.0);
    var first, second := Reservation(t, 5.0, "task", Pending), Reservation(t, -1.0, "task", Pending);
    RowIsSolvent(a, t, 10.0, first, second);
    ReleasesFirst(a, t);
    RowIsSolvent(Apply(a, Release(t, 0)), t, 10.0, first.(status := Released), second);
  }

  lemma ReleasesFirst(b: Books, t: Tenant)
    requires t in b.rows && |b.reservations| == 2 && Settleable(b, t, 0)
    ensures var a, r := Apply(b, Release(t, 0)), b.reservations[0];
      && a.reservations == [r.(status := Released), b.reservations[1]]
      && Row(a, t) == Balance(Row(b, t).balance, Row(b, t).reserved - r.amount)
  {
  }

  /** The amount is not checked: confirming a negative reservation creates credits nobody added. */
  lemma NegativeReservationMintsCredits(t: Tenant)
    ensures var b := Run(EMPTY, [Reserve(t, "task", -1.0)]);
      && Row(b, t).reserved == -1.0
      && Row(Apply(b, Confirm(t, 0)), t).balance == 1.0
  {
    assert [Reserve(t, "task", -1.0)][..0] == [];
    assert Run(EMPTY, [Reserve(t, "task", -1.0)]) == Apply(EMPTY, Reserve(t, "task", -1.0));
  }
}
