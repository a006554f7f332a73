/** The cashbox service over its tables, step by step as it is written. A close
    is `Reserve` followed by `Commit`; a failing transaction leaves the tables as
    it found them. */
module CashboxStore {
  import opened Common
  import opened Foundation
  import opened Cashbox
  import opened CashboxInvariant
  import opened CashboxSteps

  lemma PreparedFacts(s: State, c: CloseCommand, env: Env)
    ensures var p := PrepareClose(s, c, env);
            p.Prepared? ==>
              && c.box in s.boxes && p.latest == Latest(s.days, c.box, c.date)
              && (p.latest.Some? ==> s.days[p.latest.value].state == REOPENED)
  {
    hide CountNow, CloseApproved, HasVariance, ObservedValid, NormalizeClose;
  }

  class Store {
    var boxes: map<nat, Box>
    var days: seq<Day>
    var reservations: seq<Reservation>
    var requests: seq<Request>
    var actions: seq<Action>
    var movements: seq<Movement>
    var replies: map<(Scope, nat), Reply>
    var nextNumber: nat
    var tickets: seq<Ticket>

    function Tables(): State
      reads this
    {
      State(boxes, days, reservations, requests, actions, movements, replies, nextNumber, tickets)
    }

    ghost predicate Valid()
      reads this
    {
      Invariant(Tables())
    }

    constructor ()
      ensures Valid() && Tables() == EMPTY
    {
      boxes, days, reservations, requests, actions := map[], [], [], [], [];
      movements, replies, nextNumber, tickets := [], map[], 1, [];
    }

    // ---- repository ----

    /** Refused by the unique index when the subject has a request. */
    method InsertApprovalRequest(request: Request) returns (id: Option<nat>)
      modifies this`requests
      ensures id == if RequestTaken(old(requests), request) then None else Some(|old(requests)|)
      ensures requests == if id.None? then old(requests) else old(requests) + [request]
    {
      if RequestTaken(requests, request) {
        return None;
      }
      id := Some(|requests|);
      requests := requests + [request];
    }

    /** The stored reply of a key, or a conflict when it belongs to another command. */
    method FindReply(key: (Scope, nat), digest: ReplyDigest) returns (r: Option<Outcome>)
      ensures r == if key !in replies then None
                   else Some(if replies[key].digest != digest then Refused(IDEMPOTENCY_CONFLICT)
                     else Done(replies[key].id))
    {
      if key !in replies {
        return None;
      }
      if replies[key].digest != digest {
        return Some(Refused(IDEMPOTENCY_CONFLICT));
      }
      return Some(Done(replies[key].id));
    }

    /** Inserts the action, then decides the request if it is still pending at
        the expected version. */
    method CompleteApprovalAction(d: Decision) returns (ok: bool)
      requires d.request < |requests|
      modifies this`actions, this`requests
      ensures ok == (old(requests)[d.request].state == PENDING && old(requests)[d.request].version == d.expectedVersion)
      ensures actions == old(actions) + [Action(d.request, d.actor, d.approve)]
      ensures requests == if !ok then old(requests) else old(requests)[d.request := old(requests)[d.request].(
                state := if d.approve then APPROVED else REJECTED, version := old(requests)[d.request].version + 1)]
    {
      actions := actions + [Action(d.request, d.actor, d.approve)];
      var request := requests[d.request];
      ok := request.state == PENDING && request.version == d.expectedVersion;
      if ok {
        requests := requests[d.request := request.(
          state := if d.approve then APPROVED else REJECTED, version := request.version + 1)];
      }
    }

    method InsertReservation(r: Reservation) returns (id: nat)
      modifies this`reservations, this`nextNumber
      ensures id == |old(reservations)| && reservations == old(reservations) + [r] && nextNumber == old(nextNumber) + 1
    {
      id := |reservations|;
      reservations := reservations + [r];
      nextNumber := nextNumber + 1;
    }

    /** Compare-and-set from RESERVED. */
    method ConsumeReservation(id: nat, day: nat) returns (ok: bool)
      requires id < |reservations|
      modifies this`reservations
      ensures ok == (old(reservations)[id].state == RESERVED)
      ensures reservations == if !ok then old(reservations)
                              else old(reservations)[id := old(reservations)[id].(state := CONSUMED, day := Some(day))]
    {
      ok := reservations[id].state == RESERVED;
      if ok {
        reservations := reservations[id := reservations[id].(state := CONSUMED, day := Some(day))];
      }
    }

    /** Updates the latest row if it is still open at the version that was read,
        or inserts the first row. */
    method CloseDay(c: CloseCommand, latest: Option<nat>, version: nat, number: nat, counts: seq<Count>)
        returns (id: Option<nat>)
      requires latest.Some? ==> latest.value < |days|
      modifies this`days
      ensures id == (if latest.None? then Some(|old(days)|)
                     else if old(days)[latest.value].version == version
                       && old(days)[latest.value].state == REOPENED then latest
                     else None)
      ensures days == if id.None? then old(days)
                      else if latest.Some? then
                        old(days)[latest.value := ClosedDay(old(days), latest, c, number, counts)]
                      else old(days) + [ClosedDay(old(days), latest, c, number, counts)]
    {
      var row := ClosedDay(days, latest, c, number, counts);
      if latest.Some? {
        if days[latest.value].version != version || days[latest.value].state != REOPENED {
          return None;
        }
        days := days[latest.value := row];
        return latest;
      }
      id := Some(|days|);
      days := days + [row];
    }

    method AppendMovement(command: MovementCommand) returns (id: nat)
      modifies this`movements
      ensures id == |old(movements)| && movements == old(movements) + [Recorded(command)]
    {
      id := |movements|;
      movements := movements + [Recorded(command)];
    }

    // ---- service ----

    method RequestClose(c: CloseCommand, env: Env) returns (r: Outcome)
      requires Valid()
      modifies this
      ensures Valid()
      ensures r == RequestCloseOutcome(old(Tables()), c, env) && Tables() == AfterRequestClose(old(Tables()), c, env)
    {
      RequestCloseKeeps(Tables(), c, env);
      r := FileCloseRequest(c, env);
    }

    method FileCloseRequest(c: CloseCommand, env: Env) returns (r: Outcome)
      modifies this
      ensures r == RequestCloseOutcome(old(Tables()), c, env) && Tables() == AfterRequestClose(old(Tables()), c, env)
    {
      hide CountNow, NormalizeClose, HasVariance, ObservedValid, RequestTaken, SnapshotOf, DistinctCurrencies, Precise;
      if !DistinctCurrencies(c.counts) || !Precise(env.places, c.counts) {
        return Refused(VALIDATION);
      }
      var body := NormalizeClose(c.counts, c.observed);
      var digest := OfCloseRequest(c.actor, c.box, c.date, body);
      var replay := FindReply(CloseRequestKey(c), digest);
      if replay.Some? {
        return replay.value;
      }
      var hidden := BoxError(Tables(), c.box);
      if hidden.Some? {
        return Refused(hidden.value);
      }
      var box := boxes[c.box];
      var latest := Latest(days, c.box, c.date);
      if latest.Some? && days[latest.value].state == CLOSED {
        return Refused(DAY_ALREADY_CLOSED);
      }
      if box.custodian != Some(c.actor) {
        return Refused(CUSTODY_CONFLICT);
      }
      var counted := CountNow(Tables(), c.box, c.date, c.counts, body, env, VALIDATION);
      if counted.CountError? {
        return Refused(counted.error);
      }
      if !HasVariance(counted.counts) || !ObservedValid(box, c.observed) {
        return Refused(VALIDATION);
      }
      if !env.authorized {
        return Refused(SCOPE_DENIED);
      }
      var source := Source(days, latest);
      var id := InsertApprovalRequest(Request(
        c.box, c.date, CLOSE, CloseSubject(c.box, c.date, source.0, source.1, body),
        Some(SnapshotOf(c.box, box, counted.counts)), source.0, source.1, c.actor, PENDING, 1));
      if id.None? {
        return Refused(STATE_CONFLICT);
      }
      replies := replies[CloseRequestKey(c) := Reply(digest, id.value)];
      return Done(id.value);
    }

    method RequestReopen(request: ReopenRequest, env: Env) returns (r: Outcome)
      requires Valid()
      modifies this
      ensures Valid()
      ensures r == RequestReopenOutcome(old(Tables()), request, env)
      ensures Tables() == AfterRequestReopen(old(Tables()), request, env)
    {
      RequestReopenKeeps(Tables(), request, env);
      r := FileReopenRequest(request, env);
    }

    method FileReopenRequest(request: ReopenRequest, env: Env) returns (r: Outcome)
      modifies this
      ensures r == RequestReopenOutcome(old(Tables()), request, env)
      ensures Tables() == AfterRequestReopen(old(Tables()), request, env)
    {
      hide RequestTaken, ReasonOf;
      var box, date := request.box, request.date;
      var reason := ReasonOf(request.reason);
      if reason.None? {
        return Refused(VALIDATION);
      }
      var digest := ReopenRequestDigest(request);
      var replay := FindReply(ReopenRequestKey(request), digest);
      if replay.Some? {
        return replay.value;
      }
      var hidden := BoxError(Tables(), box);
      if hidden.Some? {
        return Refused(hidden.value);
      }
      var latest := Latest(days, box, date);
      if latest.None? {
        return Refused(RESOURCE_HIDDEN);
      }
      if days[latest.value].state != CLOSED {
        return Refused(STATE_CONFLICT);
      }
      if !env.authorized {
        return Refused(SCOPE_DENIED);
      }
      var version := days[latest.value].version;
      var id := InsertApprovalRequest(Request(
        box, date, REOPEN, ReopenSubject(box, date, latest, version, reason.value), None, latest, version,
        request.actor, PENDING, 1));
      if id.None? {
        return Refused(STATE_CONFLICT);
      }
      replies := replies[ReopenRequestKey(request) := Reply(digest, id.value)];
      return Done(id.value);
    }

    method Act(d: Decision, env: Env) returns (r: Outcome)
      requires Valid()
      modifies this
      ensures Valid()
      ensures r == ActOutcome(old(Tables()), d, env) && Tables() == AfterAct(old(Tables()), d, env)
    {
      ActKeeps(Tables(), d, env);
      r := DecideRequest(d, env);
    }

    method DecideRequest(d: Decision, env: Env) returns (r: Outcome)
      modifies this
      ensures r == ActOutcome(old(Tables()), d, env) && Tables() == AfterAct(old(Tables()), d, env)
    {
      hide Trimmed;
      if (!d.approve || d.reason.Some?) && Trimmed(d.reason).None? {
        return Refused(VALIDATION);
      }
      var digest := DecisionDigest(d);
      var replay := FindReply(DecisionKey(d), digest);
      if replay.Some? {
        return replay.value;
      }
      if d.request >= |requests| {
        return Refused(RESOURCE_HIDDEN);
      }
      var request := requests[d.request];
      if request.version != d.expectedVersion {
        return Refused(STALE_VERSION);
      }
      if request.state != PENDING {
        return Refused(STATE_CONFLICT);
      }
      if request.requestedBy == d.actor || !env.authorized {
        return Refused(SCOPE_DENIED);
      }
      if !env.proof {
        return Refused(STEP_UP_REQUIRED);
      }
      var id := |actions|;
      var ok := CompleteApprovalAction(d);
      if !ok {
        assert false;
      }
      replies := replies[DecisionKey(d) := Reply(digest, id)];
      return Done(id);
    }

    /** First transaction of a close. */
    method Reserve(c: CloseCommand, env: Env) returns (r: Reserved)
      requires Valid()
      modifies this
      ensures Valid()
      ensures r == ReserveOutcome(old(Tables()), c, env) && Tables() == AfterReserve(old(Tables()), c, env)
    {
      ReserveKeeps(Tables(), c, env);
      hide Invariant;
      if !DistinctCurrencies(c.counts) || !Precise(env.places, c.counts) {
        return NotReserved(VALIDATION);
      }
      var digest := DigestOf(c);
      if CloseKey(c) in replies {
        if replies[CloseKey(c)].digest != OfClose(digest) {
          return NotReserved(IDEMPOTENCY_CONFLICT);
        }
        return Replied(replies[CloseKey(c)].id);
      }
      var ticket;
      var existing := FindReservation(reservations, c.box, c.date, c.key);
      if existing.Some? {
        if reservations[existing.value].digest != digest {
          return NotReserved(IDEMPOTENCY_CONFLICT);
        }
        ticket := Ticket(c, existing.value, reservations[existing.value]);
      } else {
        var prepared := PrepareClose(Tables(), c, env);
        if prepared.Unprepared? {
          return NotReserved(prepared.error);
        }
        var reservation := NewReservation(Tables(), c, env);
        var id := InsertReservation(reservation);
        ticket := Ticket(c, id, reservation);
      }
      tickets := tickets + [ticket];
      return Ticketed(ticket);
    }

    /** One movement for every variance, its direction and amount from the sign. */
    method AppendVariances(day: nat, c: CloseCommand, counts: seq<Count>)
      modifies this`movements
      ensures movements == old(movements) + VarianceMovements(day, c, counts)
    {
      var k := 0;
      while k < |counts|
        invariant k <= |counts|
        invariant movements == old(movements) + VarianceMovements(day, c, counts[..k])
      {
        var count := counts[k];
        assert counts[..k + 1][..k] == counts[..k];
        if count.variance != 0 {
          var id := AppendMovement(MovementCommand(
            Some(CASHBOX_AND_CUSTODY), day, VarianceKey(count.currency), CASHBOX(c.box),
            if count.variance < 0 then -count.variance else count.variance, count.currency, c.date, None,
            Some(if count.variance > 0 then CREDIT else DEBIT), Some(POSTED)));
        }
        k := k + 1;
      }
      assert counts[..k] == counts;
    }

    /** Second transaction of a close. */
    method Commit(t: nat, env: Env) returns (r: Outcome)
      requires Valid() && t < |tickets|
      modifies this
      ensures Valid()
      ensures r == CommitOutcome(old(Tables()), old(tickets)[t], env)
          && Tables() == AfterCommit(old(Tables()), old(tickets)[t], env)
    {
      assert TicketOk(tickets[t], reservations);
      CommitKeeps(Tables(), tickets[t], env);
      r := CommitTicket(tickets[t], env);
    }

    /** Everything is checked again before anything is written. */
    method CommitTicket(ticket: Ticket, env: Env) returns (r: Outcome)
      modifies this
      ensures r == CommitOutcome(old(Tables()), ticket, env) && Tables() == AfterCommit(old(Tables()), ticket, env)
    {
      var c, reservation := ticket.command, ticket.reservation;
      var replay := FindReply(CloseKey(c), OfClose(DigestOf(c)));
      if replay.Some? {
        return replay.value;
      }
      var prepared := PrepareClose(Tables(), c, env);
      PreparedFacts(Tables(), c, env);
      hide PrepareClose, CommittedTables;
      if prepared.Unprepared? {
        return Refused(prepared.error);
      }
      var latest := prepared.latest;
      if reservation.state != RESERVED || reservation.box != c.box || reservation.date != c.date
         || reservation.cycle != CycleOf(days, latest)
         || reservation.branch != boxes[c.box].branch || reservation.unit != boxes[c.box].unit {
        return Refused(STATE_CONFLICT);
      }
      if ticket.id >= |reservations| {
        return Refused(STATE_CONFLICT);
      }
      var saved := days;
      var day, written := WriteClose(ticket, latest, prepared.counts);
      if !written {
        days := saved;
        return Refused(STATE_CONFLICT);
      }
      return Done(day);
    }

    /** The writes of a close; false when its reservation is no longer reserved,
        with the day already written. */
    method WriteClose(ticket: Ticket, latest: Option<nat>, counts: seq<Count>) returns (day: nat, ok: bool)
      requires ticket.id < |reservations|
      requires latest.Some? ==> latest.value < |days| && days[latest.value].state == REOPENED
      modifies this
      ensures ok == (old(reservations)[ticket.id].state == RESERVED)
      ensures day == if latest.Some? then latest.value else |old(days)|
      ensures ok ==> Tables() == CommittedTables(old(Tables()), ticket, latest, counts)
      ensures !ok ==> Tables() == old(Tables()).(days := days)
    {
      var c := ticket.command;
      var version := if latest.Some? then days[latest.value].version else 0;
      var closed := CloseDay(c, latest, version, ticket.reservation.number, counts);
      if closed.None? {
        assert false;
      }
      day := closed.value;
      ok := ConsumeReservation(ticket.id, day);
      if !ok {
        return;
      }
      AppendVariances(day, c, counts);
      replies := replies[CloseKey(c) := Reply(OfClose(DigestOf(c)), day)];
    }

    method Reopen(c: ReopenCommand, env: Env) returns (r: Outcome)
      requires Valid()
      modifies this
      ensures Valid()
      ensures r == ReopenOutcome(old(Tables()), c, env) && Tables() == AfterReopen(old(Tables()), c, env)
    {
      ReopenKeeps(Tables(), c, env);
      hide Invariant;
      if ReasonOf(c.reason).None? {
        return Refused(VALIDATION);
      }
      var key := ReopenKey(c);
      var replay := FindReply(key, OfReopen(c));
      if replay.Some? {
        return replay.value;
      }
      var hidden := BoxError(Tables(), c.box);
      if hidden.Some? {
        return Refused(hidden.value);
      }
      var latest := Latest(days, c.box, c.date);
      if latest.None? {
        return Refused(RESOURCE_HIDDEN);
      }
      if days[latest.value].version != c.expectedVersion {
        return Refused(STALE_VERSION);
      }
      if days[latest.value].state != CLOSED {
        return Refused(STATE_CONFLICT);
      }
      if !env.authorized {
        return Refused(SCOPE_DENIED);
      }
      if !ReopenApproved(Tables(), c, latest.value) {
        return Refused(VALID_APPROVAL_MISSING);
      }
      if !env.proof {
        return Refused(STEP_UP_REQUIRED);
      }
      var id := |days|;
      days := days + [ReopenedDay(days, latest.value, c)];
      replies := replies[key := Reply(OfReopen(c), id)];
      return Done(id);
    }
  }
}
