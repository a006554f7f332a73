/** Every transaction keeps the invariant and only extends the history. */
module CashboxSteps {
  import opened Common
  import opened Foundation
  import opened Cashbox
  import opened CashboxDays
  import opened CashboxInvariant

  lemma ExtendsItself(s: State)
    ensures Extends(s, s)
  {
  }

  // ---- requests and decisions ----

  lemma LatestFacts(s: State, box: nat, date: int)
    requires Invariant(s)
    ensures var latest := Latest(s.days, box, date); latest.Some? ==> RowOk(s.days[latest.value])
  {
  }

  lemma RepliesAdded(replies: map<(Scope, nat), Reply>, key: (Scope, nat), reply: Reply)
    requires key !in replies
    ensures RepliesExtend(replies, replies[key := reply])
  {
  }

  /** A new request for a new subject, with its reply. */
  lemma RequestAppended(s: State, r: Request, key: (Scope, nat), reply: Reply)
    requires Invariant(s) && RequestOk(r, s.days) && r.state == PENDING
    requires !RequestTaken(s.requests, r) && key !in s.replies
    ensures var t := s.(requests := s.requests + [r], replies := s.replies[key := reply]); Invariant(t) && Extends(s, t)
  {
    var t := s.(requests := s.requests + [r], replies := s.replies[key := reply]);
    ExtendsItself(s);
    RepliesAdded(s.replies, key, reply);
    hide DaysOk, DaysExtend, ReservationsOk, AllReserved, TicketsOk, ApprovalsOk, RequestOk, RepliesExtend, SameSubject;
    ReservationsKept(s.reservations, s.days, t.days, s.replies, t.replies, s.nextNumber);
    ApprovalsKept(s.days, s.requests, s.actions, t.requests, t.actions);
  }

  lemma CloseRequestOk(s: State, c: CloseCommand, counts: seq<Count>)
    requires Invariant(s) && c.box in s.boxes
    ensures RequestOk(CloseRequest(s, c, counts), s.days) && CloseRequest(s, c, counts).state == PENDING
  {
    LatestFacts(s, c.box, c.date);
    hide Invariant, SnapshotOf, NormalizeClose, DaysOk;
  }

  lemma RequestCloseFacts(s: State, c: CloseCommand, env: Env)
    requires RequestsClose(s, c, env)
    ensures var counted := CountNow(s, c.box, c.date, c.counts, NormalizeClose(c.counts, c.observed), env, VALIDATION);
            && c.box in s.boxes && counted.Counts? && HasVariance(counted.counts)
            && !RequestTaken(s.requests, CloseRequest(s, c, counted.counts))
            && RequestCloseOutcome(s, c, env) == Done(|s.requests|)
  {
    hide CountNow, NormalizeClose, HasVariance, RequestTaken, CloseRequest, ObservedValid, Precise, DistinctCurrencies;
  }

  lemma RequestCloseKeeps(s: State, c: CloseCommand, env: Env)
    requires Invariant(s)
    ensures Invariant(AfterRequestClose(s, c, env)) && Extends(s, AfterRequestClose(s, c, env))
  {
    hide Invariant, Extends, CountNow, NormalizeClose, HasVariance, RequestTaken, CloseRequest, RequestCloseOutcome;
    ExtendsItself(s);
    if RequestsClose(s, c, env) {
      RequestCloseFacts(s, c, env);
      var counts := CountNow(s, c.box, c.date, c.counts, NormalizeClose(c.counts, c.observed), env, VALIDATION).counts;
      CloseRequestOk(s, c, counts);
      RequestAppended(s, CloseRequest(s, c, counts), CloseRequestKey(c), Reply(CloseRequestDigest(c), |s.requests|));
    }
  }

  lemma RequestReopenFacts(s: State, r: ReopenRequest, env: Env)
    requires Invariant(s) && RequestsReopen(s, r, env)
    ensures var latest := Latest(s.days, r.box, r.date);
            && ReasonOf(r.reason).Some? && latest.Some? && s.days[latest.value].state == CLOSED
            && !RequestTaken(s.requests, ReopeningRequest(s.days, r, latest.value))
            && RequestOk(ReopeningRequest(s.days, r, latest.value), s.days)
            && ReopeningRequest(s.days, r, latest.value).state == PENDING
            && RequestReopenOutcome(s, r, env) == Done(|s.requests|)
  {
  }

  lemma RequestReopenKeeps(s: State, r: ReopenRequest, env: Env)
    requires Invariant(s)
    ensures Invariant(AfterRequestReopen(s, r, env)) && Extends(s, AfterRequestReopen(s, r, env))
  {
    hide Invariant, Extends, RequestReopenOutcome, RequestTaken, ReopeningRequest, Latest;
    ExtendsItself(s);
    if RequestsReopen(s, r, env) {
      RequestReopenFacts(s, r, env);
      RequestAppended(s, ReopeningRequest(s.days, r, Latest(s.days, r.box, r.date).value), ReopenRequestKey(r),
        Reply(ReopenRequestDigest(r), |s.requests|));
    }
  }

  lemma ActionRecorded(s: State, d: Decision, r: nat)
    requires r < |s.requests| && (r == d.request || HasAction(s.actions, r))
    ensures HasAction(s.actions + [Action(d.request, d.actor, d.approve)], r)
  {
    var acts := s.actions + [Action(d.request, d.actor, d.approve)];
    if r == d.request {
      assert acts[|s.actions|].request == r;
    } else {
      var a :| 0 <= a < |s.actions| && s.actions[a].request == r;
      assert acts[a].request == r;
    }
  }

  /** What a decision writes. */
  lemma ActShape(s: State, d: Decision, env: Env)
    requires Decides(s, d, env)
    ensures d.request < |s.requests| && DecisionKey(d) !in s.replies
    ensures var r := s.requests[d.request];
            && r.state == PENDING && r.requestedBy != d.actor
            && AfterAct(s, d, env) == s.(actions := s.actions + [Action(d.request, d.actor, d.approve)],
                 requests := s.requests[d.request := r.(
                   state := if d.approve then APPROVED else REJECTED, version := r.version + 1)],
                 replies := s.replies[DecisionKey(d) := Reply(DecisionDigest(d), |s.actions|)])
  {
  }

  lemma ActRequests(s: State, d: Decision, env: Env)
    requires RequestsOk(s.requests, s.days) && Decides(s, d, env)
    ensures var t := AfterAct(s, d, env);
            && RequestsOk(t.requests, t.days) && |t.requests| == |s.requests|
            && forall k :: 0 <= k < |s.requests| ==> RequestProgress(s.requests[k], t.requests[k])
  {
    ActShape(s, d, env);
    hide Decides, AfterAct;
    assert RequestOk(s.requests[d.request], s.days);
  }

  lemma ActActions(s: State, d: Decision, env: Env)
    requires ActionsOk(s.actions, s.requests) && Decides(s, d, env)
    ensures var t := AfterAct(s, d, env); ActionsOk(t.actions, t.requests)
  {
    ActShape(s, d, env);
    hide Decides, AfterAct;
    var t := AfterAct(s, d, env);
    forall k | 0 <= k < |s.actions|
      ensures ActionOk(t.actions[k], t.requests) && t.actions[k].request != d.request
    {
      assert ActionOk(s.actions[k], s.requests);
    }
    forall r | 0 <= r < |t.requests| && t.requests[r].state != PENDING
      ensures HasAction(t.actions, r)
    {
      ActionRecorded(s, d, r);
    }
  }

  lemma ActKeeps(s: State, d: Decision, env: Env)
    requires Invariant(s)
    ensures Invariant(AfterAct(s, d, env)) && Extends(s, AfterAct(s, d, env))
  {
    ExtendsItself(s);
    if Decides(s, d, env) {
      hide DaysOk, DaysExtend, ReservationsOk, AllReserved, TicketsOk, ApprovalsOk, RepliesExtend, Decides, AfterAct,
        RequestsOk, ActionsOk, DecisionDigest;
      ActShape(s, d, env);
      ActRequests(s, d, env);
      ActActions(s, d, env);
      var t := AfterAct(s, d, env);
      RepliesAdded(s.replies, DecisionKey(d), Reply(DecisionDigest(d), |s.actions|));
      ReservationsKept(s.reservations, s.days, t.days, s.replies, t.replies, s.nextNumber);
      ApprovalsKept(s.days, s.requests, s.actions, t.requests, t.actions);
    }
  }

  // ---- reserving ----

  lemma ReserveKeeps(s: State, c: CloseCommand, env: Env)
    requires Invariant(s)
    ensures Invariant(AfterReserve(s, c, env)) && Extends(s, AfterReserve(s, c, env))
  {
    ExtendsItself(s);
    var outcome := ReserveOutcome(s, c, env);
    if outcome.Ticketed? {
      ReserveFacts(s, c, env);
      var t := AfterReserve(s, c, env);
      if outcome.ticket.id >= |s.reservations| {
        ReservationAdded(s.reservations, outcome.ticket.reservation, s.days, s.replies, s.nextNumber);
      }
      hide DaysOk, DaysExtend, ReservationsOk, AllReserved, RequestsOk, ActionsOk, ApprovalsOk, BoxesOk, ReserveOutcome;
      TicketsKept(s.tickets, s.reservations, t.reservations);
    }
  }

  /** A ticket is for a reservation of the same key: an old one that is still
      reserved, or a new one whose key nobody has used. */
  lemma ReserveFacts(s: State, c: CloseCommand, env: Env)
    requires Invariant(s) && ReserveOutcome(s, c, env).Ticketed?
    ensures var ticket := ReserveOutcome(s, c, env).ticket;
            && ticket.command == c && ticket.reservation.state == RESERVED
            && ticket.reservation.box == c.box && ticket.reservation.date == c.date && ticket.reservation.key == c.key
            && (if ticket.id < |s.reservations| then ticket.reservation == s.reservations[ticket.id]
                else ticket.id == |s.reservations| && ticket.reservation.number == s.nextNumber
                     && forall k :: 0 <= k < |s.reservations| ==> Apart(s.reservations[k], ticket.reservation))
  {
    var existing := FindReservation(s.reservations, c.box, c.date, c.key);
    if existing.Some? {
      assert ConsumedOk(s.reservations[existing.value], s.days, s.replies);
    } else {
      forall k | 0 <= k < |s.reservations|
        ensures Apart(s.reservations[k], ReserveOutcome(s, c, env).ticket.reservation)
      {
        assert ConsumedOk(s.reservations[k], s.days, s.replies) && s.reservations[k].number < s.nextNumber;
      }
    }
  }

  // ---- committing ----

  /** What a close that goes through has been checked for. */
  lemma CommitFacts(s: State, ticket: Ticket, env: Env)
    requires Invariant(s) && Commits(s, ticket, env) && TicketOk(ticket, s.reservations)
    ensures var c := ticket.command; var p := PrepareClose(s, c, env);
            && p.Prepared? && c.box in s.boxes && p.latest == Latest(s.days, c.box, c.date)
            && (p.latest.Some? ==> s.days[p.latest.value].state == REOPENED && RowOk(s.days[p.latest.value]))
            && ticket.id < |s.reservations| && s.reservations[ticket.id].state == RESERVED
            && ticket.reservation.cycle == CycleOf(s.days, p.latest)
            && (HasVariance(p.counts) ==>
               CloseApproved(s, c, Source(s.days, p.latest), SnapshotOf(c.box, s.boxes[c.box], p.counts)))
            && (!HasVariance(p.counts) ==> c.approval.None?)
            && CommitOutcome(s, ticket, env) == Done(if p.latest.Some? then p.latest.value else |s.days|)
  {
  }

  /** What a close that goes through writes. */
  lemma CommitShape(s: State, ticket: Ticket, env: Env)
    requires Invariant(s) && Commits(s, ticket, env) && TicketOk(ticket, s.reservations)
    ensures var t := AfterCommit(s, ticket, env); var day := CommitOutcome(s, ticket, env).id;
            var c := ticket.command; var p := PrepareClose(s, c, env);
            && p.Prepared? && (p.latest.Some? ==> p.latest.value < |s.days|) && ticket.id < |s.reservations|
            && var row := ClosedDay(s.days, p.latest, c, ticket.reservation.number, p.counts);
            && day == (if p.latest.Some? then p.latest.value else |s.days|)
            && t.days == (if p.latest.Some? then s.days[day := row] else s.days + [row])
            && t.boxes == s.boxes && t.requests == s.requests && t.actions == s.actions && t.tickets == s.tickets
            && t.nextNumber == s.nextNumber
            && t.reservations == s.reservations[ticket.id := s.reservations[ticket.id].(state := CONSUMED,
               day := Some(day))]
            && t.replies == s.replies[CloseKey(c) := Reply(OfClose(DigestOf(c)), day)]
            && t.movements == s.movements + VarianceMovements(day, c, p.counts)
  {
    CommitFacts(s, ticket, env);
    hide Invariant, PrepareClose, VarianceMovements, ClosedDay;
  }

  /** Closing the latest row, or inserting the first one, keeps the rows in order. */
  lemma ClosedDays(days: seq<Day>, latest: Option<nat>, c: CloseCommand, number: nat, counts: seq<Count>)
    requires DaysOk(days) && latest == Latest(days, c.box, c.date)
    requires latest.Some? ==> days[latest.value].state == REOPENED
    ensures var row := ClosedDay(days, latest, c, number, counts);
            var after := if latest.Some? then days[latest.value := row] else days + [row];
            && DaysOk(after) && DaysExtend(days, after)
            && row.state == CLOSED && row.number == Some(number) && row.box == c.box && row.date == c.date
            && row.cycle == CycleOf(days, latest)
  {
    var row := ClosedDay(days, latest, c, number, counts);
    assert latest.Some? ==> RowOk(days[latest.value]);
    hide DaysOk, DaysExtend, Latest;
    if latest.Some? {
      DaysAfterUpdate(days, latest.value, row);
    } else {
      DaysAfterInsert(days, row);
    }
  }

  lemma DaysInOrder(s: State)
    requires Invariant(s)
    ensures DaysOk(s.days)
  {
  }

  lemma CommitDays(s: State, ticket: Ticket, env: Env)
    requires Invariant(s) && Commits(s, ticket, env) && TicketOk(ticket, s.reservations)
    ensures var t := AfterCommit(s, ticket, env); DaysOk(t.days) && DaysExtend(s.days, t.days)
    ensures var day := CommitOutcome(s, ticket, env).id; var t := AfterCommit(s, ticket, env);
            && day < |t.days| && t.days[day].state == CLOSED && t.days[day].number == Some(ticket.reservation.number)
            && t.days[day].box == ticket.command.box && t.days[day].date == ticket.command.date
            && t.days[day].cycle == ticket.reservation.cycle
            && (day < |s.days| ==> s.days[day].state == REOPENED)
            && |t.days| == (if day < |s.days| then |s.days| else |s.days| + 1)
            && forall k :: 0 <= k < |s.days| && k != day ==> t.days[k] == s.days[k]
  {
    hide Invariant, Commits, CommitOutcome, AfterCommit, PrepareClose, VarianceMovements, ClosedDay, CycleOf, DaysOk,
      DaysExtend, Latest, TicketOk, CloseApproved, HasVariance, SnapshotOf, Source, RowOk, DigestOf;
    CommitFacts(s, ticket, env);
    CommitShape(s, ticket, env);
    DaysInOrder(s);
    var p := PrepareClose(s, ticket.command, env);
    ClosedDays(s.days, p.latest, ticket.command, ticket.reservation.number, p.counts);
  }

  lemma CommitReservations(s: State, ticket: Ticket, env: Env)
    requires Invariant(s) && Commits(s, ticket, env) && TicketOk(ticket, s.reservations)
    ensures var t := AfterCommit(s, ticket, env);
            && ReservationsOk(t.reservations, t.days, t.replies, t.nextNumber)
            && AllReserved(t.reservations, t.days) && TicketsOk(t.tickets, t.reservations)
            && RepliesExtend(s.replies, t.replies)
  {
    CommitFacts(s, ticket, env);
    CommitShape(s, ticket, env);
    CommitDays(s, ticket, env);
    var t := AfterCommit(s, ticket, env);
    var day := CommitOutcome(s, ticket, env).id;
    hide CommitOutcome, AfterCommit, PrepareClose, VarianceMovements, ClosedDay, DaysOk, DaysExtend, ReservationsOk,
      AllReserved, RequestsOk, ActionsOk, ApprovalsOk, RepliesExtend;
    assert ConsumedOk(t.reservations[ticket.id], t.days, t.replies);
    hide ConsumedOk, DigestOf, CloseKey;
    RepliesAdded(s.replies, CloseKey(ticket.command), t.replies[CloseKey(ticket.command)]);
    ReservationConsumed(s.reservations, ticket.id, s.days, t.days, day, s.replies, t.replies, s.nextNumber);
    CommitTickets(s, ticket.id, day);
  }

  lemma CommitTickets(s: State, id: nat, day: nat)
    requires TicketsOk(s.tickets, s.reservations) && id < |s.reservations|
    ensures TicketsOk(s.tickets, s.reservations[id := s.reservations[id].(state := CONSUMED, day := Some(day))])
  {
    TicketsKept(s.tickets, s.reservations,
      s.reservations[id := s.reservations[id].(state := CONSUMED, day := Some(day))]);
  }

  /** The approval of a close with a variance, read off its request and action. */
  lemma CloseApprovalFits(s: State, c: CloseCommand, latest: Option<nat>, snapshot: Snapshot, number: nat,
      counts: seq<Count>, id: nat)
    requires latest.Some? ==> latest.value < |s.days|
    requires CloseApproved(s, c, Source(s.days, latest), snapshot) && ActionsOk(s.actions, s.requests)
    requires latest.Some? ==>
        s.days[latest.value].state == REOPENED && RowOk(s.days[latest.value]) && id == latest.value
    requires latest.Some? ==> s.days[latest.value].box == c.box && s.days[latest.value].date == c.date
    ensures ApprovedClose(ClosedDay(s.days, latest, c, number, counts), id, s.requests, s.actions)
  {
    assert ActionOk(s.actions[c.approval.value], s.requests);
  }

  lemma ApprovalsUpdated(x: seq<Day>, y: seq<Day>, day: nat, rs: seq<Request>, acts: seq<Action>)
    requires ApprovalsOk(x, rs, acts) && day < |y|
    requires RowApproval(y[day], day, rs, acts)
    requires forall d :: 0 <= d < |y| && d != day ==> d < |x| && y[d] == x[d]
    ensures ApprovalsOk(y, rs, acts)
  {
    hide RowApproval;
  }

  /** A close without a variance leaves a reopened row with the approval of its
      reopening, and a first row without one. */
  lemma EvenCloseFits(s: State, c: CloseCommand, latest: Option<nat>, number: nat, counts: seq<Count>, id: nat)
    requires latest.Some? ==> latest.value < |s.days| && id == latest.value
    requires !HasVariance(counts) && c.approval.None? && ApprovalsOk(s.days, s.requests, s.actions)
    requires latest.Some? ==> s.days[latest.value].state == REOPENED && RowOk(s.days[latest.value])
    ensures RowApproval(ClosedDay(s.days, latest, c, number, counts), id, s.requests, s.actions)
  {
    hide HasVariance, ApprovedClose;
    if latest.Some? {
      assert RowApproval(s.days[id], id, s.requests, s.actions);
    }
  }

  lemma CommitApprovesNew(s: State, ticket: Ticket, env: Env)
    requires Invariant(s) && Commits(s, ticket, env) && TicketOk(ticket, s.reservations)
    ensures var c := ticket.command; var p := PrepareClose(s, c, env); var day := CommitOutcome(s, ticket, env).id;
            p.Prepared? && (p.latest.Some? ==> p.latest.value < |s.days|)
            && RowApproval(ClosedDay(s.days, p.latest, c, ticket.reservation.number, p.counts), day, s.requests,
               s.actions)
  {
    CommitFacts(s, ticket, env);
    var c := ticket.command;
    var p := PrepareClose(s, c, env);
    var day := CommitOutcome(s, ticket, env).id;
    ClosedCounts(s.days, p.latest, c, ticket.reservation.number, p.counts);
    hide CommitOutcome, PrepareClose, DaysOk, ReservationsOk, AllReserved, RequestsOk, HasVariance, ApprovedClose,
      TicketsOk, ActionsOk, ApprovalsOk, ApprovedReopening, CloseApproved, Source, ClosedDay, SnapshotOf;
    if HasVariance(p.counts) {
      CloseApprovalFits(s, c, p.latest, SnapshotOf(c.box, s.boxes[c.box], p.counts), ticket.reservation.number,
        p.counts, day);
    } else {
      EvenCloseFits(s, c, p.latest, ticket.reservation.number, p.counts, day);
    }
  }

  lemma ClosedCounts(days: seq<Day>, latest: Option<nat>, c: CloseCommand, number: nat, counts: seq<Count>)
    requires latest.Some? ==> latest.value < |days|
    ensures var row := ClosedDay(days, latest, c, number, counts); row.state == CLOSED && row.counts == counts
  {
  }

  lemma CommitApprovals(s: State, ticket: Ticket, env: Env)
    requires Invariant(s) && Commits(s, ticket, env) && TicketOk(ticket, s.reservations)
    ensures var t := AfterCommit(s, ticket, env); ApprovalsOk(t.days, t.requests, t.actions)
  {
    CommitShape(s, ticket, env);
    CommitDays(s, ticket, env);
    CommitApprovesNew(s, ticket, env);
    var t := AfterCommit(s, ticket, env);
    hide CommitOutcome, AfterCommit, PrepareClose, VarianceMovements, ClosedDay, DaysOk, DaysExtend, ReservationsOk,
      AllReserved, RequestsOk, RowApproval, TicketsOk, ActionsOk, ApprovalsOk;
    ApprovalsUpdated(s.days, t.days, CommitOutcome(s, ticket, env).id, t.requests, t.actions);
  }

  lemma CommitKeeps(s: State, ticket: Ticket, env: Env)
    requires Invariant(s) && TicketOk(ticket, s.reservations)
    ensures Invariant(AfterCommit(s, ticket, env)) && Extends(s, AfterCommit(s, ticket, env))
  {
    ExtendsItself(s);
    if Commits(s, ticket, env) {
      CommitShape(s, ticket, env);
      CommitDays(s, ticket, env);
      CommitReservations(s, ticket, env);
      CommitApprovals(s, ticket, env);
      hide CommitOutcome, AfterCommit, PrepareClose, VarianceMovements, ClosedDay, DaysOk, DaysExtend, ReservationsOk,
        AllReserved, RequestsOk, ActionsOk, ApprovalsOk, TicketsOk, TicketOk, RepliesExtend;
      RequestsKept(s.requests, s.days, AfterCommit(s, ticket, env).days);
    }
  }

  // ---- reopening ----

  lemma ReopenFacts(s: State, c: ReopenCommand, env: Env)
    requires Invariant(s) && Reopens(s, c, env)
    ensures var latest := Latest(s.days, c.box, c.date);
            && latest.Some? && s.days[latest.value].state == CLOSED && ReopenApproved(s, c, latest.value)
  {
  }

  lemma ReopenedRow(s: State, c: ReopenCommand, latest: nat)
    requires latest < |s.days| && ReopenApproved(s, c, latest)
    ensures RowApproval(ReopenedDay(s.days, latest, c), |s.days|, s.requests, s.actions)
  {
    hide HasVariance;
  }

  lemma ReopenKeeps(s: State, c: ReopenCommand, env: Env)
    requires Invariant(s)
    ensures Invariant(AfterReopen(s, c, env)) && Extends(s, AfterReopen(s, c, env))
  {
    ExtendsItself(s);
    if Reopens(s, c, env) {
      ReopenFacts(s, c, env);
      var t := AfterReopen(s, c, env);
      var latest := Latest(s.days, c.box, c.date).value;
      DaysAfterInsert(s.days, ReopenedDay(s.days, latest, c));
      ReopenedRow(s, c, latest);
      hide ReopenOutcome, ReopenApproved, DaysOk, DaysExtend, RequestsOk, ReservationsOk, RowApproval, TicketsOk;
      RequestsKept(s.requests, s.days, t.days);
      ReservationsKept(s.reservations, s.days, t.days, s.replies, t.replies, s.nextNumber);
      hide ApprovalsOk;
      ApprovalsUpdated(s.days, t.days, |s.days|, t.requests, t.actions);
    }
  }

  // ---- runs ----

  lemma RecordKeeps(s: State, m: Movement)
    requires Invariant(s)
    ensures Invariant(Next(s, Record(m))) && Extends(s, Next(s, Record(m)))
  {
  }

  lemma NextKeeps(s: State, step: Step)
    requires Invariant(s)
    ensures Invariant(Next(s, step)) && Extends(s, Next(s, step))
  {
    match step {
      case RequestClose(c, env) => RequestCloseKeeps(s, c, env);
      case RequestReopen(r, env) => RequestReopenKeeps(s, r, env);
      case Act(d, env) => ActKeeps(s, d, env);
      case Reserve(c, env) => ReserveKeeps(s, c, env);
      case Commit(t, env) =>
        ExtendsItself(s);
        if t < |s.tickets| {
          CommitKeeps(s, s.tickets[t], env);
        }
      case Reopen(c, env) => ReopenKeeps(s, c, env);
      case Record(m) => RecordKeeps(s, m);
      case Administer(id, row) => ExtendsItself(s);
    }
  }

  /** Every run, under any interleaving. */
  lemma {:induction false} RunKeeps(s: State, steps: seq<Step>)
    requires Invariant(s)
    ensures Invariant(Run(s, steps)) && Extends(s, Run(s, steps))
  {
    hide Invariant, Extends, Next;
    if |steps| == 0 {
      ExtendsItself(s);
    } else {
      var before := Run(s, steps[..|steps| - 1]);
      RunKeeps(s, steps[..|steps| - 1]);
      NextKeeps(before, steps[|steps| - 1]);
      ExtendsTransitive(s, before, Run(s, steps));
    }
  }

  lemma EmptyIsInOrder()
    ensures Invariant(EMPTY)
  {
  }
}
