/** The service calls themselves, each proved to be one step of CreditBooks (services/credit_service.py). */
module CreditServices {
  import opened Wrappers
  import opened CreditBooks

  datatype CreditError =
    | InsufficientCredits(required: real, available: real)
    | NotFoundOrProcessed(id: nat)
    | NoBalanceRow(tenant: Tenant)

  // ----- What the tables say -----

  /** The tenant's row; a tenant without one has nothing. */
  function Held(rows: map<Tenant, Balance>, tenant: Tenant): Balance {
    if tenant in rows then rows[tenant] else Balance(0.0, 0.0)
  }

  /** What the tenant can still reserve. */
  function Free(rows: map<Tenant, Balance>, tenant: Tenant): real {
    Held(rows, tenant).balance - Held(rows, tenant).reserved
  }

  predicate Holds(rows: map<Tenant, Balance>, tenant: Tenant, balance: real, reserved: real) {
    tenant in rows && rows[tenant].balance == balance && rows[tenant].reserved == reserved
  }

  /** All other tenants' rows are what they were. */
  ghost predicate OthersHold(before: map<Tenant, Balance>, after: map<Tenant, Balance>, tenant: Tenant) {
    forall t: Tenant :: t != tenant ==> (t in after <==> t in before) && (t in after ==> after[t] == before[t])
  }

  predicate IsPending(reservations: seq<Reservation>, tenant: Tenant, id: nat) {
    id < |reservations| && reservations[id].tenant == tenant && reservations[id].status == Pending
  }

  lemma ReserveAccepted(b: Books, t: Tenant, task: string, amount: real)
    requires !Refused(b, Reserve(t, task, amount))
    ensures Apply(b, Reserve(t, task, amount))
         == Books(b.rows[t := Row(b, t).(reserved := Row(b, t).reserved + amount)],
                  b.reservations + [Reservation(t, amount, task, Pending)], b.log)
  {
    hide Run, Total;
  }

  lemma Overwrite<K, V>(m: map<K, V>, k: K, first: V, second: V)
    ensures m[k := first][k := second] == m[k := second]
  {
  }

  class CreditService {
    var rows: map<Tenant, Balance>
    var reservations: seq<Reservation>
    var log: seq<Tx>

    function State(): Books
      reads this
    {
      Books(rows, reservations, log)
    }

    constructor ()
      ensures State() == EMPTY
    {
      rows, reservations, log := map[], [], [];
    }

    /** The tenant's row, created at zero when there is none; that changes nobody's credits. */
    method GetBalance(tenant: Tenant) returns (row: Balance)
      modifies `rows
      ensures row == (if tenant in old(rows) then old(rows)[tenant] else NO_CREDITS)
      ensures rows == old(rows)[tenant := row]
    {
      if tenant !in rows {
        rows := rows[tenant := NO_CREDITS];
      }
      row := rows[tenant];
    }

    method CheckBalance(tenant: Tenant, required: real) returns (ok: bool)
      modifies `rows
      ensures ok <==> !Refused(old(State()), Reserve(tenant, "", required))
      ensures ok <==> Free(old(rows), tenant) >= required
      ensures rows == old(rows)[tenant := Row(old(State()), tenant)]
    {
      var row := GetBalance(tenant);
      ok := row.balance - row.reserved >= required;
    }

    method ReserveCredits(tenant: Tenant, taskType: string, amount: real) returns (r: Result<nat, CreditError>)
      modifies this
      ensures State() == Apply(old(State()), Reserve(tenant, taskType, amount))
      ensures r.Failure? <==> Refused(old(State()), Reserve(tenant, taskType, amount))
      ensures r.Success? ==> Settleable(State(), tenant, r.value) && r.value == |old(reservations)|
      ensures r.Success? <==> Free(old(rows), tenant) >= amount
      ensures r.Failure? ==>
        && rows == old(rows)[tenant := Held(old(rows), tenant)] && reservations == old(reservations) && log == old(log)
      ensures r.Success? ==>
        && Holds(rows, tenant, Held(old(rows), tenant).balance, Held(old(rows), tenant).reserved + amount)
        && OthersHold(old(rows), rows, tenant)
        && reservations == old(reservations) + [Reservation(tenant, amount, taskType, Pending)] && log == old(log)
    {
      ghost var before := old(State());
      var row := GetBalance(tenant);
      var available := row.balance - row.reserved;
      if available < amount {
        return Failure(InsufficientCredits(amount, available));
      }
      Overwrite(old(rows), tenant, row, row.(reserved := row.reserved + amount));
      rows := rows[tenant := row.(reserved := row.reserved + amount)];
      reservations := reservations + [Reservation(tenant, amount, taskType, Pending)];
      ReserveAccepted(before, tenant, taskType, amount);
      return Success(|reservations| - 1);
    }

    method ConfirmCredits(tenant: Tenant, id: nat) returns (r: Result<Tx, CreditError>)
      modifies this
      ensures State() == Apply(old(State()), Confirm(tenant, id))
      ensures r.Failure? <==> Refused(old(State()), Confirm(tenant, id))
      ensures r.Success? <==> IsPending(old(reservations), tenant, id) && tenant in old(rows)
      ensures r.Failure? ==> rows == old(rows) && reservations == old(reservations) && log == old(log)
      ensures r.Success? ==>
        var amount, before := old(reservations)[id].amount, old(rows)[tenant];
        && Holds(rows, tenant, before.balance - amount, before.reserved - amount)
        && OthersHold(old(rows), rows, tenant)
        && reservations == old(reservations)[id := old(reservations)[id].(status := Confirmed)]
        && r.value == Tx(tenant, old(reservations)[id].taskType, amount, Debit, before.balance, before.balance - amount,
             Some(id), Confirmed)
        && log == old(log) + [r.value]
      ensures old(Backed(State())) ==> !(r.Failure? && r.error.NoBalanceRow?)
    {
      if id >= |reservations| || reservations[id].tenant != tenant || reservations[id].status != Pending {
        return Failure(NotFoundOrProcessed(id));
      }
      if tenant !in rows {
        return Failure(NoBalanceRow(tenant));
      }
      var reservation, row := reservations[id], rows[tenant];
      var balanceBefore := row.balance;
      row := row.(balance := row.balance - reservation.amount);
      row := row.(reserved := row.reserved - reservation.amount);
      rows := rows[tenant := row];
      reservations := reservations[id := reservation.(status := Confirmed)];
      var tx := Tx(tenant, reservation.taskType, reservation.amount, Debit, balanceBefore, row.balance, Some(id),
        Confirmed);
      log := log + [tx];
      return Success(tx);
    }

    method ReleaseCredits(tenant: Tenant, id: nat) returns (r: Result<Tx, CreditError>)
      modifies this
      ensures State() == Apply(old(State()), Release(tenant, id))
      ensures r.Failure? <==> Refused(old(State()), Release(tenant, id))
      ensures r.Success? <==> IsPending(old(reservations), tenant, id) && tenant in old(rows)
      ensures r.Failure? ==> rows == old(rows) && reservations == old(reservations) && log == old(log)
      ensures r.Success? ==>
        var amount, before := old(reservations)[id].amount, old(rows)[tenant];
        && Holds(rows, tenant, before.balance, before.reserved - amount)
        && OthersHold(old(rows), rows, tenant)
        && reservations == old(reservations)[id := old(reservations)[id].(status := Released)]
        && r.value == Tx(tenant, old(reservations)[id].taskType, amount, Credit, before.balance, before.balance,
             Some(id), Released)
        && log == old(log) + [r.value]
      ensures old(Backed(State())) ==> !(r.Failure? && r.error.NoBalanceRow?)
    {
      if id >= |reservations| || reservations[id].tenant != tenant || reservations[id].status != Pending {
        return Failure(NotFoundOrProcessed(id));
      }
      if tenant !in rows {
        return Failure(NoBalanceRow(tenant));
      }
      var reservation, row := reservations[id], rows[tenant];
      var balanceBefore := row.balance;
      row := row.(reserved := row.reserved - reservation.amount);
      rows := rows[tenant := row];
      reservations := reservations[id := reservation.(status := Released)];
      var tx := Tx(tenant, reservation.taskType, reservation.amount, Credit, balanceBefore, row.balance, Some(id),
        Released);
      log := log + [tx];
      return Success(tx);
    }

    method AddCredits(tenant: Tenant, amount: real, reason: string) returns (tx: Tx)
      modifies this
      ensures State() == Apply(old(State()), Add(tenant, amount, reason))
      ensures var before := Held(old(rows), tenant);
        && Holds(rows, tenant, before.balance + amount, before.reserved)
        && OthersHold(old(rows), rows, tenant)
        && reservations == old(reservations)
        && tx == Tx(tenant, reason, amount, Credit, before.balance, before.balance + amount, None, Confirmed)
        && log == old(log) + [tx]
    {
      var row := GetBalance(tenant);
      var balanceBefore := row.balance;
      Overwrite(old(rows), tenant, row, row.(balance := row.balance + amount));
      row := row.(balance := row.balance + amount);
      rows := rows[tenant := row];
      tx := Tx(tenant, reason, amount, Credit, balanceBefore, row.balance, None, Confirmed);
      log := log + [tx];
    }
  }
}
