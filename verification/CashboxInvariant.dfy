/** What holds of the cashbox tables after every run, and what a run may change. */
module CashboxInvariant {
  import opened Common
  import opened Cashbox
  import opened CashboxDays

  // ---- reservations and replies ----

  /** A consumed reservation belongs to one closed row with its number and cycle,
      and its key has been answered with that row. */
  predicate ConsumedOk(r: Reservation, days: seq<Day>, replies: map<(Scope, nat), Reply>) {
    r.state == CONSUMED ==>
      && r.day.Some? && r.day.value < |days|
      && var d := days[r.day.value];
      && d.state == CLOSED && d.box == r.box && d.date == r.date && d.cycle == r.cycle && d.number == Some(r.number)
      && (CLOSE_DAY(r.box, r.date), r.key) in replies
      && replies[(CLOSE_DAY(r.box, r.date), r.key)].id == r.day.value
  }

  predicate Apart(x: Reservation, y: Reservation) {
    && !(x.box == y.box && x.date == y.date && x.key == y.key)
    && x.number != y.number
    && (x.state == CONSUMED && y.state == CONSUMED ==> x.day != y.day)
  }

  predicate ReservationsOk(rs: seq<Reservation>, days: seq<Day>, replies: map<(Scope, nat), Reply>, nextNumber: nat) {
    && (forall k :: 0 <= k < |rs| ==> ConsumedOk(rs[k], days, replies) && rs[k].number < nextNumber)
    && forall j, k :: 0 <= j < k < |rs| ==> Apart(rs[j], rs[k])
  }

  predicate HasReservation(rs: seq<Reservation>, day: nat) {
    exists k :: 0 <= k < |rs| && rs[k].state == CONSUMED && rs[k].day == Some(day)
  }

  /** Every closed row has consumed a reservation. */
  predicate AllReserved(rs: seq<Reservation>, days: seq<Day>) {
    forall d :: 0 <= d < |days| && days[d].state == CLOSED ==> HasReservation(rs, d)
  }

  predicate TicketOk(t: Ticket, rs: seq<Reservation>) {
    && t.id < |rs|
    && t.reservation.(state := rs[t.id].state, day := rs[t.id].day) == rs[t.id]
    && t.reservation.box == t.command.box && t.reservation.date == t.command.date && t.reservation.key == t.command.key
  }

  predicate TicketsOk(ts: seq<Ticket>, rs: seq<Reservation>) {
    forall k :: 0 <= k < |ts| ==> TicketOk(ts[k], rs)
  }

  // ---- requests, actions and the approvals days carry ----

  /** The subject of a request repeats what the request is about. */
  predicate SubjectFits(r: Request) {
    match r.subject
    case CloseSubject(box, date, source, version, _) =>
      r.kind == CLOSE && box == r.box && date == r.date && source == r.source && version == r.sourceVersion
    case ReopenSubject(box, date, source, version, _) =>
      r.kind == REOPEN && box == r.box && date == r.date && source == r.source && version == r.sourceVersion
  }

  predicate RequestOk(r: Request, days: seq<Day>) {
    && SubjectFits(r) && r.version == (if r.state == PENDING then 1 else 2)
    && (r.source.None? ==> r.kind == CLOSE && r.sourceVersion == 0)
    && (r.source.Some? ==>
          && r.source.value < |days|
          && days[r.source.value].box == r.box && days[r.source.value].date == r.date
          && (r.kind == CLOSE ==> r.sourceVersion == 1 && days[r.source.value].prior.Some?)
          && (r.kind == REOPEN ==>
             days[r.source.value].state == CLOSED && r.sourceVersion == days[r.source.value].version))
  }

  /** Every subject is requested once. */
  predicate RequestsOk(rs: seq<Request>, days: seq<Day>) {
    && (forall k :: 0 <= k < |rs| ==> RequestOk(rs[k], days))
    && forall j, k :: 0 <= j < k < |rs| ==> !SameSubject(rs[j], rs[k])
  }

  /** Decided once, by someone else than the requester. */
  predicate ActionOk(a: Action, rs: seq<Request>) {
    && a.request < |rs| && a.actor != rs[a.request].requestedBy
    && rs[a.request].state == (if a.approved then APPROVED else REJECTED)
  }

  predicate HasAction(acts: seq<Action>, r: nat) {
    exists a :: 0 <= a < |acts| && acts[a].request == r
  }

  /** A request has one action if it is decided, and none before. */
  predicate ActionsOk(acts: seq<Action>, rs: seq<Request>) {
    && (forall k :: 0 <= k < |acts| ==> ActionOk(acts[k], rs))
    && (forall j, k :: 0 <= j < k < |acts| ==> acts[j].request != acts[k].request)
    && forall r :: 0 <= r < |rs| && rs[r].state != PENDING ==> HasAction(acts, r)
  }

  /** A row closed with a variance names the approval of someone else than the
      closer for exactly this row. */
  predicate ApprovedClose(d: Day, id: nat, rs: seq<Request>, acts: seq<Action>) {
    && d.closedBy.Some? && d.approval.Some? && d.approval.value < |acts|
    && var a := acts[d.approval.value];
    && a.approved && a.request < |rs| && a.actor != d.closedBy.value
    && var r := rs[a.request];
    && r.kind == CLOSE && r.requestedBy == d.closedBy.value && r.box == d.box && r.date == d.date
    && r.source == (if d.prior.Some? then Some(id) else None)
  }

  /** A reopened row names the approval to reopen the row before it. */
  predicate ApprovedReopening(d: Day, rs: seq<Request>, acts: seq<Action>) {
    && d.approval.Some? && d.approval.value < |acts|
    && var a := acts[d.approval.value];
    && a.approved && a.request < |rs|
    && var r := rs[a.request];
    && r.kind == REOPEN && r.box == d.box && r.date == d.date && r.source == d.prior
  }

  /** The approval a row names: of its close when that had a variance, otherwise of
      its reopening, and none for a first close. */
  predicate RowApproval(d: Day, id: nat, rs: seq<Request>, acts: seq<Action>) {
    if d.state == CLOSED && HasVariance(d.counts) then ApprovedClose(d, id, rs, acts)
    else if d.prior.None? then d.approval.None?
    else ApprovedReopening(d, rs, acts)
  }

  predicate ApprovalsOk(days: seq<Day>, rs: seq<Request>, acts: seq<Action>) {
    forall d :: 0 <= d < |days| ==> RowApproval(days[d], d, rs, acts)
  }

  predicate BoxesOk(boxes: map<nat, Box>) {
    forall b :: b in boxes ==> DistinctList(boxes[b].currencies)
  }

  predicate Invariant(s: State) {
    && DaysOk(s.days)
    && ReservationsOk(s.reservations, s.days, s.replies, s.nextNumber)
    && AllReserved(s.reservations, s.days)
    && TicketsOk(s.tickets, s.reservations)
    && RequestsOk(s.requests, s.days)
    && ActionsOk(s.actions, s.requests)
    && ApprovalsOk(s.days, s.requests, s.actions)
    && BoxesOk(s.boxes)
  }

  // ---- history ----

  predicate RequestProgress(x: Request, y: Request) {
    && x.(state := y.state, version := y.version) == y
    && (x.state == PENDING || x == y)
  }

  predicate RepliesExtend(a: map<(Scope, nat), Reply>, b: map<(Scope, nat), Reply>) {
    forall k :: k in a ==> k in b && b[k] == a[k]
  }

  /** What a run leaves behind is never taken back. */
  predicate Extends(s: State, t: State) {
    && DaysExtend(s.days, t.days)
    && |s.requests| <= |t.requests|
    && (forall k :: 0 <= k < |s.requests| ==> RequestProgress(s.requests[k], t.requests[k]))
    && s.actions <= t.actions && s.movements <= t.movements && s.tickets <= t.tickets
    && RepliesExtend(s.replies, t.replies)
  }

  lemma ExtendsTransitive(s: State, t: State, u: State)
    requires Extends(s, t) && Extends(t, u)
    ensures Extends(s, u)
  {
    DaysExtendTransitive(s.days, t.days, u.days);
    forall k | 0 <= k < |s.requests|
      ensures RequestProgress(s.requests[k], u.requests[k])
    {
      assert RequestProgress(s.requests[k], t.requests[k]) && RequestProgress(t.requests[k], u.requests[k]);
    }
  }

  // ---- growing tables ----

  lemma RequestsKept(rs: seq<Request>, x: seq<Day>, y: seq<Day>)
    requires RequestsOk(rs, x) && DaysExtend(x, y)
    ensures RequestsOk(rs, y)
  {
    forall k | 0 <= k < |rs|
      ensures RequestOk(rs[k], y)
    {
      assert RequestOk(rs[k], x);
      if rs[k].source.Some? {
        assert DayProgress(x[rs[k].source.value], y[rs[k].source.value]);
      }
    }
  }

  lemma ConsumedKept(r: Reservation, x: seq<Day>, y: seq<Day>, a: map<(Scope, nat), Reply>, b: map<(Scope, nat), Reply>)
    requires ConsumedOk(r, x, a) && DaysExtend(x, y)
    requires RepliesExtend(a, b)
    ensures ConsumedOk(r, y, b)
  {
    if r.state == CONSUMED {
      assert DayProgress(x[r.day.value], y[r.day.value]);
    }
  }

  lemma RowApprovalKept(d: Day, id: nat, rs: seq<Request>, acts: seq<Action>, rs': seq<Request>, acts': seq<Action>)
    requires RowApproval(d, id, rs, acts) && ActionsOk(acts, rs)
    requires acts <= acts' && |rs| <= |rs'| && forall k :: 0 <= k < |rs| ==> RequestProgress(rs[k], rs'[k])
    ensures RowApproval(d, id, rs', acts')
  {
    hide HasVariance;
    if d.approval.Some? {
      assert acts'[d.approval.value] == acts[d.approval.value];
      assert RequestProgress(rs[acts[d.approval.value].request], rs'[acts[d.approval.value].request]);
    }
  }

  lemma ReservationsKept(rs: seq<Reservation>, x: seq<Day>, y: seq<Day>, a: map<(Scope, nat), Reply>,
      b: map<(Scope, nat), Reply>, n: nat)
    requires ReservationsOk(rs, x, a, n) && DaysExtend(x, y) && RepliesExtend(a, b)
    ensures ReservationsOk(rs, y, b, n)
  {
    forall k | 0 <= k < |rs|
      ensures ConsumedOk(rs[k], y, b)
    {
      ConsumedKept(rs[k], x, y, a, b);
    }
  }

  lemma AllReservedKept(rs: seq<Reservation>, rs': seq<Reservation>, d: nat)
    requires HasReservation(rs, d)
    requires |rs| <= |rs'| && forall k :: 0 <= k < |rs| && rs[k].state == CONSUMED ==> rs'[k] == rs[k]
    ensures HasReservation(rs', d)
  {
    var k :| 0 <= k < |rs| && rs[k].state == CONSUMED && rs[k].day == Some(d);
    assert rs'[k] == rs[k];
  }

  lemma ReservationAdded(rs: seq<Reservation>, r: Reservation, days: seq<Day>, replies: map<(Scope, nat), Reply>,
      n: nat)
    requires ReservationsOk(rs, days, replies, n) && AllReserved(rs, days) && r.state == RESERVED && r.number == n
    requires forall k :: 0 <= k < |rs| ==> Apart(rs[k], r)
    ensures ReservationsOk(rs + [r], days, replies, n + 1) && AllReserved(rs + [r], days)
  {
    assert ConsumedOk(r, days, replies);
    hide ConsumedOk;
    forall d | 0 <= d < |days| && days[d].state == CLOSED
      ensures HasReservation(rs + [r], d)
    {
      AllReservedKept(rs, rs + [r], d);
    }
  }

  /** Consuming a reservation for a row closed just now. */
  lemma ReservationConsumed(
      rs: seq<Reservation>, id: nat, x: seq<Day>, y: seq<Day>, day: nat,
      a: map<(Scope, nat), Reply>, b: map<(Scope, nat), Reply>, n: nat)
    requires ReservationsOk(rs, x, a, n) && AllReserved(rs, x) && DaysExtend(x, y) && RepliesExtend(a, b)
    requires id < |rs| && rs[id].state == RESERVED
    requires day < |y| && (day < |x| ==> x[day].state == REOPENED)
    requires forall d :: 0 <= d < |y| && d != day ==> d < |x| && y[d] == x[d]
    requires ConsumedOk(rs[id].(state := CONSUMED, day := Some(day)), y, b)
    ensures var rs' := rs[id := rs[id].(state := CONSUMED, day := Some(day))];
            ReservationsOk(rs', y, b, n) && AllReserved(rs', y)
  {
    var rs' := rs[id := rs[id].(state := CONSUMED, day := Some(day))];
    forall k | 0 <= k < |rs| && k != id && rs[k].state == CONSUMED
      ensures rs[k].day != Some(day)
    {
      assert ConsumedOk(rs[k], x, a);
    }
    ReservationsKept(rs, x, y, a, b, n);
    hide ConsumedOk;
    forall j, k | 0 <= j < k < |rs'|
      ensures Apart(rs'[j], rs'[k])
    {
      assert Apart(rs[j], rs[k]);
    }
    forall d | 0 <= d < |y| && y[d].state == CLOSED
      ensures HasReservation(rs', d)
    {
      if d == day {
        assert rs'[id].day == Some(d);
      } else {
        AllReservedKept(rs, rs', d);
      }
    }
  }

  lemma TicketsKept(ts: seq<Ticket>, rs: seq<Reservation>, rs': seq<Reservation>)
    requires TicketsOk(ts, rs) && |rs| <= |rs'|
    requires forall k :: 0 <= k < |rs| ==> rs[k].(state := rs'[k].state, day := rs'[k].day) == rs'[k]
    ensures TicketsOk(ts, rs')
  {
    forall k | 0 <= k < |ts|
      ensures TicketOk(ts[k], rs')
    {
      assert TicketOk(ts[k], rs);
    }
  }

  lemma ApprovalsKept(days: seq<Day>, rs: seq<Request>, acts: seq<Action>, rs': seq<Request>, acts': seq<Action>)
    requires ApprovalsOk(days, rs, acts) && ActionsOk(acts, rs)
    requires acts <= acts' && |rs| <= |rs'| && forall k :: 0 <= k < |rs| ==> RequestProgress(rs[k], rs'[k])
    ensures ApprovalsOk(days, rs', acts')
  {
    hide RowApproval;
    forall d | 0 <= d < |days|
      ensures RowApproval(days[d], d, rs', acts')
    {
      RowApprovalKept(days[d], d, rs, acts, rs', acts');
    }
  }
}
