/** What closing and reopening guarantee under every interleaving of their
    transactions. */
module CashboxTheorems {
  import opened Common
  import opened Foundation
  import opened Cashbox
  import opened CashboxDays
  import opened CashboxInvariant
  import opened CashboxSteps
  import opened Sums

  lemma ReachableIsInOrder(steps: seq<Step>)
    ensures Invariant(Run(EMPTY, steps))
  {
    EmptyIsInOrder();
    RunKeeps(EMPTY, steps);
  }

  /** In every reachable state the rows of a cashbox date are cycles 1, 2, ...,
      each linked to the one before, all but the last closed. */
  lemma ReachableCycles(steps: seq<Step>, box: nat, date: int, k: nat)
    requires k < |Chain(Run(EMPTY, steps).days, box, date)|
    ensures var days := Run(EMPTY, steps).days; ChainRow(days, Chain(days, box, date), k)
  {
    ReachableIsInOrder(steps);
    ChainIsCycles(Run(EMPTY, steps).days, box, date, k);
  }

  /** A closed row stays as it was closed: no run closes it, or writes it, again. */
  lemma ClosedOnce(s: State, steps: seq<Step>, d: nat)
    requires Invariant(s) && d < |s.days| && s.days[d].state == CLOSED
    ensures d < |Run(s, steps).days| && Run(s, steps).days[d] == s.days[d]
  {
    RunKeeps(s, steps);
    assert DayProgress(s.days[d], Run(s, steps).days[d]);
  }

  /** Consumed reservations and closed rows match one to one, with the same cycle
      and number. */
  lemma ReservationOfRow(s: State, d: nat) returns (k: nat)
    requires Invariant(s) && d < |s.days| && s.days[d].state == CLOSED
    ensures k < |s.reservations| && s.reservations[k].state == CONSUMED && s.reservations[k].day == Some(d)
    ensures s.reservations[k].cycle == s.days[d].cycle && Some(s.reservations[k].number) == s.days[d].number
    ensures forall j ::
              0 <= j < |s.reservations| && s.reservations[j].state == CONSUMED && s.reservations[j].day == Some(d) ==>
              j == k
  {
    assert HasReservation(s.reservations, d);
    k :| 0 <= k < |s.reservations| && s.reservations[k].state == CONSUMED && s.reservations[k].day == Some(d);
    assert ConsumedOk(s.reservations[k], s.days, s.replies);
    forall j | 0 <= j < |s.reservations| && s.reservations[j].state == CONSUMED && s.reservations[j].day == Some(d)
      ensures j == k
    {
      assert j < k ==> Apart(s.reservations[j], s.reservations[k]);
      assert k < j ==> Apart(s.reservations[k], s.reservations[j]);
    }
  }

  lemma RowOfReservation(s: State, k: nat)
    requires Invariant(s) && k < |s.reservations| && s.reservations[k].state == CONSUMED
    ensures var r := s.reservations[k];
            && r.day.Some? && r.day.value < |s.days| && s.days[r.day.value].state == CLOSED
            && s.days[r.day.value].cycle == r.cycle && s.days[r.day.value].number == Some(r.number)
  {
    assert ConsumedOk(s.reservations[k], s.days, s.replies);
  }

  /** No two closed rows carry the same business number. */
  lemma NumbersUnique(s: State, d: nat, e: nat)
    requires Invariant(s) && d < |s.days| && e < |s.days| && s.days[d].state == CLOSED && s.days[e].state == CLOSED
    requires s.days[d].number == s.days[e].number
    ensures d == e
  {
    var j := ReservationOfRow(s, d);
    var k := ReservationOfRow(s, e);
    assert j < k ==> Apart(s.reservations[j], s.reservations[k]);
    assert k < j ==> Apart(s.reservations[k], s.reservations[j]);
  }

  // ---- one key, one response ----

  /** As long as a key is unanswered its reservation can be consumed: the final
      compare-and-set cannot fail. */
  lemma ReservationStillReserved(s: State, ticket: Ticket)
    requires Invariant(s) && TicketOk(ticket, s.reservations) && CloseKey(ticket.command) !in s.replies
    ensures s.reservations[ticket.id].state == RESERVED
  {
    assert ConsumedOk(s.reservations[ticket.id], s.days, s.replies);
  }

  lemma CommitReplies(s: State, ticket: Ticket, env: Env)
    requires Invariant(s) && TicketOk(ticket, s.reservations) && CommitOutcome(s, ticket, env).Done?
    ensures var t := AfterCommit(s, ticket, env);
            CloseKey(ticket.command) in t.replies
              && t.replies[CloseKey(ticket.command)].id == CommitOutcome(s, ticket, env).id
  {
    if Commits(s, ticket, env) {
      CommitShape(s, ticket, env);
    }
  }

  /** Whatever runs in between, a key that has been answered is answered with the
      same day: by a second attempt's second transaction and by its first. */
  lemma OneKeyOneDay(s: State, x: Ticket, env: Env, between: seq<Step>, y: Ticket, later: Env)
    requires Invariant(s) && TicketOk(x, s.reservations) && CommitOutcome(s, x, env).Done?
    requires CloseKey(y.command) == CloseKey(x.command)
    ensures var u := Run(AfterCommit(s, x, env), between);
            && (CommitOutcome(u, y, later).Done? ==> CommitOutcome(u, y, later) == CommitOutcome(s, x, env))
            && AfterCommit(u, y, later) == u
            && !ReserveOutcome(u, y.command, later).Ticketed?
            && (ReserveOutcome(u, y.command, later).Replied? ==>
                  ReserveOutcome(u, y.command, later).day == CommitOutcome(s, x, env).id)
  {
    var t := AfterCommit(s, x, env);
    CommitKeeps(s, x, env);
    CommitReplies(s, x, env);
    RunKeeps(t, between);
    hide Invariant, PrepareClose, CommittedTables, Run;
  }

  lemma AnsweredStays(s: State, steps: seq<Step>, key: (Scope, nat))
    requires Invariant(s) && key in s.replies
    ensures key in Run(s, steps).replies && Run(s, steps).replies[key] == s.replies[key]
  {
    RunKeeps(s, steps);
    hide Invariant, Run;
  }

  /** The same for requesting a close: whatever runs in between, the key is
      answered with the same request, or refused when the command is another one. */
  lemma OneKeyOneCloseRequest(s: State, c: CloseCommand, env: Env, between: seq<Step>, again: CloseCommand, later: Env)
    requires Invariant(s) && RequestCloseOutcome(s, c, env).Done? && CloseRequestKey(again) == CloseRequestKey(c)
    ensures var u := Run(AfterRequestClose(s, c, env), between);
            && AfterRequestClose(u, again, later) == u
            && RequestCloseOutcome(u, again, later) ==
               if !DistinctCurrencies(again.counts) || !Precise(later.places, again.counts) then Refused(VALIDATION)
               else if CloseRequestDigest(again) == CloseRequestDigest(c) then RequestCloseOutcome(s, c, env)
               else Refused(IDEMPOTENCY_CONFLICT)
  {
    var t := AfterRequestClose(s, c, env);
    RequestCloseKeeps(s, c, env);
    CloseRequestReplied(s, c, env);
    hide Invariant, Run, AfterRequestClose;
    AnsweredStays(t, between, CloseRequestKey(c));
    CloseRequestReplay(Run(t, between), again, later);
    hide RequestCloseOutcome, CloseRequestDigest, DistinctCurrencies, Precise;
  }

  lemma CloseRequestReplied(s: State, c: CloseCommand, env: Env)
    requires RequestCloseOutcome(s, c, env).Done?
    ensures var t := AfterRequestClose(s, c, env); var key := CloseRequestKey(c);
            key in t.replies && t.replies[key] == Reply(CloseRequestDigest(c), RequestCloseOutcome(s, c, env).id)
  {
    if RequestsClose(s, c, env) {
      RequestCloseFacts(s, c, env);
      hide RequestCloseOutcome, CloseRequest, CountNow, CloseRequestDigest;
    }
  }

  lemma CloseRequestReplay(u: State, again: CloseCommand, later: Env)
    requires CloseRequestKey(again) in u.replies
    ensures AfterRequestClose(u, again, later) == u
    ensures var reply := u.replies[CloseRequestKey(again)];
            RequestCloseOutcome(u, again, later) ==
              if !DistinctCurrencies(again.counts) || !Precise(later.places, again.counts) then Refused(VALIDATION)
              else if CloseRequestDigest(again) == reply.digest then Done(reply.id) else Refused(IDEMPOTENCY_CONFLICT)
  {
    hide CloseRequestDigest, DistinctCurrencies, Precise, CountNow;
  }

  /** And for requesting a reopening. */
  lemma OneKeyOneReopenRequest(s: State, r: ReopenRequest, env: Env, between: seq<Step>, again: ReopenRequest,
      later: Env)
    requires Invariant(s) && RequestReopenOutcome(s, r, env).Done? && ReopenRequestKey(again) == ReopenRequestKey(r)
    ensures var u := Run(AfterRequestReopen(s, r, env), between);
            && AfterRequestReopen(u, again, later) == u
            && RequestReopenOutcome(u, again, later) ==
               if ReasonOf(again.reason).None? then Refused(VALIDATION)
               else if ReopenRequestDigest(again) == ReopenRequestDigest(r) then RequestReopenOutcome(s, r, env)
               else Refused(IDEMPOTENCY_CONFLICT)
  {
    var t := AfterRequestReopen(s, r, env);
    RequestReopenKeeps(s, r, env);
    if RequestsReopen(s, r, env) {
      RequestReopenFacts(s, r, env);
    }
    AnsweredStays(t, between, ReopenRequestKey(r));
    hide Invariant, Run, ReasonOf, Latest, RequestTaken;
  }

  /** A key decides a request at most once. */
  lemma OneKeyOneDecision(s: State, d: Decision, env: Env, between: seq<Step>, again: Decision, later: Env)
    requires Invariant(s) && ActOutcome(s, d, env).Done? && DecisionKey(again) == DecisionKey(d)
    ensures var u := Run(AfterAct(s, d, env), between);
            && AfterAct(u, again, later) == u
            && ActOutcome(u, again, later) ==
               if (!again.approve || again.reason.Some?) && Trimmed(again.reason).None? then Refused(VALIDATION)
               else if DecisionDigest(again) == DecisionDigest(d) then ActOutcome(s, d, env)
               else Refused(IDEMPOTENCY_CONFLICT)
  {
    ActKeeps(s, d, env);
    AnsweredStays(AfterAct(s, d, env), between, DecisionKey(d));
    hide Invariant, Run, Trimmed;
  }

  lemma ReopenReplied(s: State, c: ReopenCommand, env: Env)
    requires Invariant(s) && ReopenOutcome(s, c, env).Done?
    ensures var t := AfterReopen(s, c, env); var key := ReopenKey(c);
            key in t.replies && t.replies[key] == Reply(OfReopen(c), ReopenOutcome(s, c, env).id)
  {
    if Reopens(s, c, env) {
      ReopenFacts(s, c, env);
      hide Invariant, ReopenApproved, ReasonOf, BoxError;
    }
  }

  lemma ReopenReplay(u: State, again: ReopenCommand, later: Env)
    requires ReopenKey(again) in u.replies
    ensures AfterReopen(u, again, later) == u
    ensures var reply := u.replies[ReopenKey(again)];
            ReopenOutcome(u, again, later) ==
              if ReasonOf(again.reason).None? then Refused(VALIDATION)
              else if reply.digest == OfReopen(again) then Done(reply.id) else Refused(IDEMPOTENCY_CONFLICT)
  {
    hide ReasonOf, ReopenApproved;
  }

  /** A key reopens at most one day. */
  lemma OneKeyOneReopening(s: State, c: ReopenCommand, env: Env, between: seq<Step>, again: ReopenCommand, later: Env)
    requires Invariant(s) && ReopenOutcome(s, c, env).Done? && ReopenKey(again) == ReopenKey(c)
    ensures var u := Run(AfterReopen(s, c, env), between);
            && AfterReopen(u, again, later) == u
            && ReopenOutcome(u, again, later) ==
               if ReasonOf(again.reason).None? then Refused(VALIDATION)
               else if again == c then ReopenOutcome(s, c, env) else Refused(IDEMPOTENCY_CONFLICT)
  {
    var t := AfterReopen(s, c, env);
    ReopenKeeps(s, c, env);
    ReopenReplied(s, c, env);
    hide Invariant, Run, AfterReopen;
    AnsweredStays(t, between, ReopenKey(c));
    ReopenReplay(Run(t, between), again, later);
    hide ReopenOutcome, ReasonOf;
  }

  // ---- approvals ----

  /** The approval action a step uses up. */
  function SpentBy(s: State, step: Step): Option<nat> {
    match step
    case Commit(t, env) =>
      if t < |s.tickets| && Commits(s, s.tickets[t], env) then s.tickets[t].command.approval else None
    case Reopen(c, env) => if Reopens(s, c, env) then Some(c.approval) else None
    case _ => None
  }

  /** The day row a request is bound to is no longer the one to act on. */
  predicate Past(days: seq<Day>, r: Request) {
    match r.source
    case None => Latest(days, r.box, r.date).Some?
    case Some(id) =>
      if r.kind == CLOSE then id < |days| && days[id].state == CLOSED
      else exists k :: 0 <= k < |days| && days[k].prior == Some(id)
  }

  predicate ApprovedRequest(s: State, a: nat) {
    a < |s.actions| && s.actions[a].approved && s.actions[a].request < |s.requests|
  }

  lemma SpendFacts(s: State, step: Step, a: nat)
    requires Invariant(s) && SpentBy(s, step) == Some(a)
    ensures ApprovedRequest(s, a)
    ensures var r := s.requests[s.actions[a].request]; var latest := Latest(s.days, r.box, r.date);
            match step
            case Commit(t, env) =>
              && t < |s.tickets| && r.kind == CLOSE && r.requestedBy == s.tickets[t].command.actor
              && (latest.Some? ==> s.days[latest.value].state == REOPENED) && r.source == latest
              && CommitOutcome(s, s.tickets[t], env) == Done(if latest.Some? then latest.value else |s.days|)
              && r.box == s.tickets[t].command.box && r.date == s.tickets[t].command.date
            case Reopen(c, env) =>
              && r.kind == REOPEN && r.requestedBy == c.actor && latest.Some? && r.source == latest
              && s.days[latest.value].state == CLOSED && r.box == c.box && r.date == c.date
            case _ => false
  {
    if step.Commit? {
      assert TicketOk(s.tickets[step.ticket], s.reservations);
      CommitFacts(s, s.tickets[step.ticket], step.env);
    } else {
      ReopenFacts(s, step.reopen, step.env);
    }
  }

  lemma CommitMakesPast(s: State, ticket: Ticket, env: Env, r: Request)
    requires Invariant(s) && TicketOk(ticket, s.reservations) && Commits(s, ticket, env)
    requires r.kind == CLOSE && r.box == ticket.command.box && r.date == ticket.command.date
    requires r.source == Latest(s.days, r.box, r.date)
    ensures Past(AfterCommit(s, ticket, env).days, r)
  {
    CommitFacts(s, ticket, env);
    CommitDays(s, ticket, env);
    hide Invariant, Commits, CommitOutcome, AfterCommit, PrepareClose, DaysExtend, Latest;
    LatestExists(AfterCommit(s, ticket, env).days, CommitOutcome(s, ticket, env).id);
  }

  lemma ReopenMakesPast(s: State, c: ReopenCommand, env: Env, r: Request)
    requires Reopens(s, c, env) && r.kind == REOPEN
    requires r.source == Latest(s.days, c.box, c.date) && r.source.Some?
    ensures Past(AfterReopen(s, c, env).days, r)
  {
    var t := AfterReopen(s, c, env);
    hide Reopens, Latest;
    assert t.days[|s.days|].prior == r.source;
  }

  lemma SpendMakesPast(s: State, step: Step, a: nat)
    requires Invariant(s) && SpentBy(s, step) == Some(a)
    ensures Past(Next(s, step).days, s.requests[s.actions[a].request])
  {
    SpendFacts(s, step, a);
    assert TicketsOk(s.tickets, s.reservations);
    hide Invariant, Commits, Reopens, AfterCommit, AfterReopen, CommitOutcome, Latest, Past;
    var r := s.requests[s.actions[a].request];
    if step.Commit? {
      CommitMakesPast(s, s.tickets[step.ticket], step.env, r);
    } else {
      ReopenMakesPast(s, step.reopen, step.env, r);
    }
  }

  lemma PastStays(x: seq<Day>, y: seq<Day>, r: Request)
    requires Past(x, r) && DaysExtend(x, y) && DaysOk(y)
    ensures Past(y, r)
  {
    match r.source {
      case None =>
        var k := Latest(x, r.box, r.date).value;
        assert DayProgress(x[k], y[k]);
        LatestExists(y, k);
      case Some(id) =>
        if r.kind == CLOSE {
          assert DayProgress(x[id], y[id]);
        } else {
          var k :| 0 <= k < |x| && x[k].prior == Some(id);
          assert DayProgress(x[k], y[k]);
        }
    }
  }

  /** A row that a later row continues is not the latest. */
  lemma ContinuedIsNotLatest(days: seq<Day>, id: nat, k: nat)
    requires DaysOk(days) && k < |days| && days[k].prior == Some(id)
    ensures id < |days| && SameKey(days[id], days[k])
    ensures Latest(days, days[id].box, days[id].date) != Some(id)
  {
    assert Linked(days, k);
    assert days[..k][id] == days[id];
    LatestIsLast(days, days[k].box, days[k].date);
  }

  lemma PastIsNotSpent(s: State, step: Step, a: nat)
    requires Invariant(s) && ApprovedRequest(s, a) && Past(s.days, s.requests[s.actions[a].request])
    ensures SpentBy(s, step) != Some(a)
  {
    var r := s.requests[s.actions[a].request];
    if r.kind == REOPEN && r.source.Some? {
      var k :| 0 <= k < |s.days| && s.days[k].prior == r.source;
      ContinuedIsNotLatest(s.days, r.source.value, k);
    }
    assert RequestOk(r, s.days);
    if SpentBy(s, step) == Some(a) {
      SpendFacts(s, step, a);
    }
  }

  /** An approval action backs at most one close or reopening in any run. */
  lemma ApprovalSpentOnce(s: State, step: Step, between: seq<Step>, again: Step, a: nat)
    requires Invariant(s) && SpentBy(s, step) == Some(a)
    ensures SpentBy(Run(Next(s, step), between), again) != Some(a)
  {
    var t := Next(s, step);
    var u := Run(t, between);
    SpendFacts(s, step, a);
    SpendMakesPast(s, step, a);
    NextKeeps(s, step);
    RunKeeps(t, between);
    ExtendsTransitive(s, t, u);
    var r := s.actions[a].request;
    hide SpentBy, Run, Next;
    PastStays(t.days, u.days, s.requests[r]);
    assert u.actions[a] == s.actions[a];
    assert RequestProgress(s.requests[r], u.requests[r]);
    PastIsNotSpent(u, again, a);
  }

  /** Whoever spends an approval asked for it, and somebody else approved it. */
  lemma ApproverIsNotSpender(s: State, step: Step, a: nat)
    requires Invariant(s) && SpentBy(s, step) == Some(a)
    ensures match step
            case Commit(t, _) => t < |s.tickets| && s.actions[a].actor != s.tickets[t].command.actor
            case Reopen(c, _) => s.actions[a].actor != c.actor
            case _ => false
  {
    SpendFacts(s, step, a);
    assert ActionOk(s.actions[a], s.requests);
  }

  /** In every reachable state a row closed with a variance names an approval, by
      someone other than its closer, for exactly this row. */
  lemma VariancesAreApproved(steps: seq<Step>, d: nat)
    requires var s := Run(EMPTY, steps); d < |s.days| && s.days[d].state == CLOSED && HasVariance(s.days[d].counts)
    ensures var s := Run(EMPTY, steps); ApprovedClose(s.days[d], d, s.requests, s.actions)
  {
    ReachableIsInOrder(steps);
    hide Run;
    assert RowApproval(Run(EMPTY, steps).days[d], d, Run(EMPTY, steps).requests, Run(EMPTY, steps).actions);
  }

  /** The approval a row names is one to close. */
  predicate NamesCloseApproval(s: State, d: Day) {
    && d.approval.Some? && d.approval.value < |s.actions|
    && s.actions[d.approval.value].request < |s.requests|
    && s.requests[s.actions[d.approval.value].request].kind == CLOSE
  }

  /** In every reachable state a closed row names an approval to close if and only
      if it was closed with a variance. Closed without one it names none as a first
      close, and otherwise the approval to reopen the row before it. */
  lemma CloseApprovalIffVariance(steps: seq<Step>, d: nat)
    requires d < |Run(EMPTY, steps).days| && Run(EMPTY, steps).days[d].state == CLOSED
    ensures var s := Run(EMPTY, steps); var row := s.days[d];
            && (NamesCloseApproval(s, row) <==> HasVariance(row.counts))
            && (!HasVariance(row.counts) ==>
                  if row.prior.None? then row.approval.None? else ApprovedReopening(row, s.requests, s.actions))
  {
    ReachableIsInOrder(steps);
    hide Run, HasVariance;
    assert RowApproval(Run(EMPTY, steps).days[d], d, Run(EMPTY, steps).requests, Run(EMPTY, steps).actions);
  }

  /** So a closed row names any approval at all if and only if it was closed with a
      variance or had been reopened. */
  lemma NamesApprovalIff(steps: seq<Step>, d: nat)
    requires d < |Run(EMPTY, steps).days| && Run(EMPTY, steps).days[d].state == CLOSED
    ensures var row := Run(EMPTY, steps).days[d]; row.approval.Some? <==> HasVariance(row.counts) || row.prior.Some?
  {
    CloseApprovalIffVariance(steps, d);
  }

  // ---- one request for one subject ----

  lemma SameSubjectSameRequest(s: State, j: nat, k: nat)
    requires Invariant(s) && j < |s.requests| && k < |s.requests| && s.requests[j].subject == s.requests[k].subject
    ensures j == k
  {
    assert RequestOk(s.requests[j], s.days) && RequestOk(s.requests[k], s.days);
    assert SameSubject(s.requests[j], s.requests[k]) && SameSubject(s.requests[k], s.requests[j]);
  }

  lemma ApprovedSubject(s: State, c: CloseCommand, env: Env)
    requires PrepareClose(s, c, env).Prepared? && HasVariance(PrepareClose(s, c, env).counts)
    ensures c.box in s.boxes && c.approval.Some? && ApprovedRequest(s, c.approval.value)
    ensures var r := s.requests[s.actions[c.approval.value].request];
            && r.subject == SubjectNow(s.days, c) && r.requestedBy == c.actor
            && r.snapshot == Some(SnapshotOf(c.box, s.boxes[c.box], PrepareClose(s, c, env).counts))
  {
    hide CountNow, NormalizeClose, HasVariance, ObservedValid, SnapshotOf;
  }

  /** A close with a variance goes through only on the one request for its subject,
      approved, made by the closer, while the cashbox and its books are as they
      were when the request was made. */
  lemma OnlyItsRequest(s: State, c: CloseCommand, env: Env, k: nat)
    requires Invariant(s) && k < |s.requests| && s.requests[k].subject == SubjectNow(s.days, c)
    requires PrepareClose(s, c, env).Prepared? && HasVariance(PrepareClose(s, c, env).counts)
    ensures s.requests[k].state == APPROVED && s.requests[k].requestedBy == c.actor && c.box in s.boxes
    ensures s.requests[k].snapshot == Some(SnapshotOf(c.box, s.boxes[c.box], PrepareClose(s, c, env).counts))
  {
    ApprovedSubject(s, c, env);
    var a := s.actions[c.approval.value];
    assert ActionOk(a, s.requests);
    hide PrepareClose, HasVariance, SnapshotOf, SubjectNow;
    SameSubjectSameRequest(s, a.request, k);
  }

  /** What a close that counts with a variance has to pass besides its approval. */
  predicate ReadyToClose(s: State, c: CloseCommand, env: Env, counts: seq<Count>) {
    var latest := Latest(s.days, c.box, c.date);
    && BoxError(s, c.box).None? && s.boxes[c.box].custodian == Some(c.actor) && env.authorized
    && (latest.Some? ==> s.days[latest.value].state != CLOSED)
    && CountNow(s, c.box, c.date, c.counts, NormalizeClose(c.counts, c.observed), env, APPROVAL_REQUIRED)
       == Counts(counts)
    && HasVariance(counts) && ObservedValid(s.boxes[c.box], c.observed)
  }

  /** A request that lets the close through: approved, made by the closer, for its
      subject, and with the cashbox and books as they are now. */
  predicate LetsThrough(s: State, c: CloseCommand, counts: seq<Count>, r: Request)
    requires c.box in s.boxes
  {
    && r.subject == SubjectNow(s.days, c) && r.state == APPROVED && r.requestedBy == c.actor
    && r.snapshot == Some(SnapshotOf(c.box, s.boxes[c.box], counts))
  }

  lemma PreparedOnApproval(s: State, c: CloseCommand, env: Env, counts: seq<Count>, a: nat)
    requires ReadyToClose(s, c, env, counts)
    ensures var x := c.(approval := Some(a));
            PrepareClose(s, x, env).Prepared?
            <==> CloseApproved(s, x, Source(s.days, Latest(s.days, c.box, c.date)),
              SnapshotOf(c.box, s.boxes[c.box], counts))
    ensures PrepareClose(s, c.(approval := Some(a)), env).Prepared? ==>
              PrepareClose(s, c.(approval := Some(a)), env).counts == counts
  {
    hide CountNow, NormalizeClose, HasVariance, ObservedValid, SnapshotOf, CloseApproved, Latest, Source;
  }

  /** The action on an approved request backs the close it was made for. */
  lemma ApprovedBacks(s: State, c: CloseCommand, counts: seq<Count>, k: nat) returns (a: nat)
    requires Invariant(s) && k < |s.requests| && c.box in s.boxes && LetsThrough(s, c, counts, s.requests[k])
    ensures CloseApproved(s, c.(approval := Some(a)), Source(s.days, Latest(s.days, c.box, c.date)),
              SnapshotOf(c.box, s.boxes[c.box], counts))
  {
    assert RequestOk(s.requests[k], s.days);
    assert HasAction(s.actions, k);
    a :| 0 <= a < |s.actions| && s.actions[a].request == k;
    assert ActionOk(s.actions[a], s.requests);
    hide Invariant, NormalizeClose, SnapshotOf, Latest, Source;
  }

  /** A close with a variance that is ready for it can be approved exactly when the
      request for its subject is approved, was made by the closer, and the cashbox
      and its books are as they were when it was made. */
  lemma ClosableOnRequestIff(s: State, c: CloseCommand, env: Env, counts: seq<Count>, k: nat)
    requires Invariant(s) && ReadyToClose(s, c, env, counts)
    requires k < |s.requests| && s.requests[k].subject == SubjectNow(s.days, c)
    ensures (exists a: nat :: PrepareClose(s, c.(approval := Some(a)), env).Prepared?) <==>
              && s.requests[k].state == APPROVED && s.requests[k].requestedBy == c.actor
              && s.requests[k].snapshot == Some(SnapshotOf(c.box, s.boxes[c.box], counts))
  {
    hide Invariant, PrepareClose, HasVariance, SnapshotOf, SubjectNow, CloseApproved, CountNow, NormalizeClose, Latest;
    if a: nat :| PrepareClose(s, c.(approval := Some(a)), env).Prepared? {
      PreparedOnApproval(s, c, env, counts, a);
      SameSubjectNow(s.days, c, a);
      OnlyItsRequest(s, c.(approval := Some(a)), env, k);
    }
    if LetsThrough(s, c, counts, s.requests[k]) {
      var a := ApprovedBacks(s, c, counts, k);
      PreparedOnApproval(s, c, env, counts, a);
    }
  }

  /** So it can be closed if and only if some request lets it through. */
  lemma ClosableIff(s: State, c: CloseCommand, env: Env, counts: seq<Count>)
    requires Invariant(s) && ReadyToClose(s, c, env, counts)
    ensures (exists a: nat :: PrepareClose(s, c.(approval := Some(a)), env).Prepared?) <==>
            exists k :: 0 <= k < |s.requests| && LetsThrough(s, c, counts, s.requests[k])
  {
    hide Invariant, PrepareClose, HasVariance, SnapshotOf, SubjectNow, CloseApproved, CountNow, NormalizeClose, Latest;
    if a: nat :| PrepareClose(s, c.(approval := Some(a)), env).Prepared? {
      PreparedOnApproval(s, c, env, counts, a);
      SameSubjectNow(s.days, c, a);
      ApprovedSubject(s, c.(approval := Some(a)), env);
      var k := s.actions[a].request;
      ClosableOnRequestIff(s, c, env, counts, k);
      assert LetsThrough(s, c, counts, s.requests[k]);
    }
    if k :| 0 <= k < |s.requests| && LetsThrough(s, c, counts, s.requests[k]) {
      ClosableOnRequestIff(s, c, env, counts, k);
    }
  }

  lemma SameSubjectNow(days: seq<Day>, c: CloseCommand, a: nat)
    ensures SubjectNow(days, c.(approval := Some(a))) == SubjectNow(days, c)
  {
  }

  /** A rejected request is final: in no later state does a close with a variance
      go through for its subject, and nobody can request that subject again. */
  lemma RejectedIsFinal(s: State, k: nat, steps: seq<Step>, c: CloseCommand, env: Env)
    requires Invariant(s) && k < |s.requests| && s.requests[k].state == REJECTED
    requires SubjectNow(Run(s, steps).days, c) == s.requests[k].subject
    ensures var u := Run(s, steps);
            && (PrepareClose(u, c, env).Prepared? ==> !HasVariance(PrepareClose(u, c, env).counts))
            && !RequestsClose(u, c, env)
  {
    var u := Run(s, steps);
    RunKeeps(s, steps);
    assert RequestProgress(s.requests[k], u.requests[k]);
    hide Run, PrepareClose, HasVariance, RequestsClose, SubjectNow;
    if PrepareClose(u, c, env).Prepared? && HasVariance(PrepareClose(u, c, env).counts) {
      OnlyItsRequest(u, c, env, k);
    }
    if RequestsClose(u, c, env) {
      RequestedSubjectIsNew(u, c, env, k);
    }
  }

  lemma RequestedSubjectIsNew(s: State, c: CloseCommand, env: Env, k: nat)
    requires Invariant(s) && RequestsClose(s, c, env) && k < |s.requests|
    ensures s.requests[k].subject != SubjectNow(s.days, c)
  {
    RequestCloseFacts(s, c, env);
    var counts := CountNow(s, c.box, c.date, c.counts, NormalizeClose(c.counts, c.observed), env, VALIDATION).counts;
    assert RequestOk(s.requests[k], s.days);
    assert !SameSubject(s.requests[k], CloseRequest(s, c, counts));
    hide Invariant, RequestsClose, CountNow, NormalizeClose, HasVariance, SnapshotOf;
  }

  // ---- book and count ----

  function Shares(counts: seq<Count>, currency: Currency): int {
    if |counts| == 0 then 0
    else Shares(counts[..|counts| - 1], currency)
         + if counts[|counts| - 1].currency == currency then counts[|counts| - 1].variance else 0
  }

  /** Direction and absolute amount carry the signed variance. */
  lemma {:induction false} VarianceSum(day: nat, c: CloseCommand, counts: seq<Count>, currency: Currency)
    ensures SumBy(VarianceMovements(day, c, counts), BookShare(c.box, currency, c.date)) == Shares(counts, currency)
  {
    if |counts| > 0 {
      var n := |counts| - 1;
      VarianceSum(day, c, counts[..n], currency);
      if counts[n].variance != 0 {
        SumPush(VarianceMovements(day, c, counts[..n]), VarianceMovement(day, c, counts[n]),
          BookShare(c.box, currency, c.date));
      }
    }
  }

  predicate DistinctCounts(counts: seq<Count>) {
    forall j, k :: 0 <= j < k < |counts| ==> counts[j].currency != counts[k].currency
  }

  lemma {:induction false} ShareOfOther(counts: seq<Count>, currency: Currency)
    requires forall k :: 0 <= k < |counts| ==> counts[k].currency != currency
    ensures Shares(counts, currency) == 0
  {
    if |counts| > 0 {
      ShareOfOther(counts[..|counts| - 1], currency);
    }
  }

  lemma {:induction false} ShareOfCount(counts: seq<Count>, k: nat)
    requires DistinctCounts(counts) && k < |counts|
    ensures Shares(counts, counts[k].currency) == counts[k].variance
  {
    var n := |counts| - 1;
    if k < n {
      ShareOfCount(counts[..n], k);
    } else {
      ShareOfOther(counts[..n], counts[k].currency);
    }
  }

  lemma CountedFacts(s: State, id: nat, date: int, submitted: seq<Submitted>, body: CloseBody, env: Env, e: Error,
      k: nat)
    requires id in s.boxes && DistinctList(s.boxes[id].currencies) && k < |s.boxes[id].currencies|
    requires CountNow(s, id, date, submitted, body, env, e).Counts?
    ensures var counts := CountNow(s, id, date, submitted, body, env, e).counts;
        var currency := s.boxes[id].currencies[k];
            && DistinctCounts(counts) && k < |counts| && currency in body.counts
            && counts[k] == CountFor(s.movements, id, date, currency, body.counts[currency])
  {
    var currencies := s.boxes[id].currencies;
    assert forall j :: 0 <= j < |currencies| ==> currencies[j] in body.counts.Keys;
    hide Precise, BooksPrecise, AllExplained, CoversBox, DistinctCurrencies;
  }

  lemma CommitCounts(s: State, ticket: Ticket, env: Env, k: nat)
    requires Invariant(s) && Commits(s, ticket, env) && TicketOk(ticket, s.reservations)
    requires k < |s.boxes[ticket.command.box].currencies|
    ensures var c := ticket.command; var p := PrepareClose(s, c, env); var currency := s.boxes[c.box].currencies[k];
            var body := NormalizeClose(c.counts, c.observed);
            && p.Prepared? && DistinctCounts(p.counts) && k < |p.counts| && currency in body.counts
            && p.counts[k] == CountFor(s.movements, c.box, c.date, currency, body.counts[currency])
  {
    var c := ticket.command;
    hide CountNow, CloseApproved, NormalizeClose, HasVariance, ObservedValid, DaysOk, ReservationsOk, AllReserved,
      TicketsOk,
      RequestsOk, ActionsOk, ApprovalsOk, DistinctList;
    CountedFacts(s, c.box, c.date, c.counts, NormalizeClose(c.counts, c.observed), env, APPROVAL_REQUIRED, k);
  }

  /** After a committed close the book of every controlled currency, recomputed
      for that date, is the counted amount. */
  lemma BookEqualsCount(s: State, ticket: Ticket, env: Env, k: nat)
    requires Invariant(s) && Commits(s, ticket, env) && TicketOk(ticket, s.reservations)
    requires k < |s.boxes[ticket.command.box].currencies|
    ensures var c := ticket.command; var currency := s.boxes[c.box].currencies[k];
            var body := NormalizeClose(c.counts, c.observed);
            && currency in body.counts
            && Book(AfterCommit(s, ticket, env).movements, c.box, currency, c.date) == body.counts[currency].amount
  {
    var c := ticket.command;
    var p := PrepareClose(s, c, env);
    var day := CommitOutcome(s, ticket, env).id;
    CommitShape(s, ticket, env);
    CommitCounts(s, ticket, env, k);
    hide Invariant, CommitOutcome, AfterCommit, PrepareClose, VarianceMovements;
    var currency := s.boxes[c.box].currencies[k];
    SumAppend(s.movements, VarianceMovements(day, c, p.counts), BookShare(c.box, currency, c.date));
    VarianceSum(day, c, p.counts, currency);
    ShareOfCount(p.counts, k);
  }

  /** Movements after position `n` leave the book of a currency alone. */
  predicate Quiet(movements: seq<Movement>, n: nat, box: nat, currency: Currency, date: int) {
    forall k :: n <= k < |movements| ==> BookShare(box, currency, date)(movements[k]) == 0
  }

  lemma {:induction false} QuietKeepsBook(movements: seq<Movement>, n: nat, box: nat, currency: Currency, date: int)
    requires n <= |movements| && Quiet(movements, n, box, currency, date)
    ensures Book(movements, box, currency, date) == Book(movements[..n], box, currency, date)
    decreases |movements|
  {
    if n == |movements| {
      assert movements[..n] == movements;
    } else {
      var before := movements[..|movements| - 1];
      QuietKeepsBook(before, n, box, currency, date);
      assert before[..n] == movements[..n];
    }
  }

  lemma PreparedIsCounted(s: State, c: CloseCommand, env: Env)
    requires PrepareClose(s, c, env).Prepared?
    ensures c.box in s.boxes
    ensures CountNow(s, c.box, c.date, c.counts, NormalizeClose(c.counts, c.observed), env, APPROVAL_REQUIRED)
         == Counts(PrepareClose(s, c, env).counts)
  {
    hide CountNow, CloseApproved, NormalizeClose, HasVariance, ObservedValid, SnapshotOf;
  }

  /** A close counts every controlled currency of its cashbox as it stands. */
  lemma PreparedCounts(s: State, c: CloseCommand, env: Env, k: nat)
    requires BoxesOk(s.boxes) && PrepareClose(s, c, env).Prepared?
    ensures var p := PrepareClose(s, c, env); var body := NormalizeClose(c.counts, c.observed);
            && c.box in s.boxes && |p.counts| == |s.boxes[c.box].currencies|
            && (k < |p.counts| ==>
                  && s.boxes[c.box].currencies[k] in body.counts
                  && p.counts[k] == CountFor(s.movements, c.box, c.date, s.boxes[c.box].currencies[k],
                       body.counts[s.boxes[c.box].currencies[k]]))
  {
    hide PrepareClose, CountNow, CountFor, NormalizeClose;
    PreparedIsCounted(s, c, env);
    var body := NormalizeClose(c.counts, c.observed);
    CountedLength(s, c.box, c.date, c.counts, body, env, APPROVAL_REQUIRED);
    if k < |s.boxes[c.box].currencies| {
      CountedFacts(s, c.box, c.date, c.counts, body, env, APPROVAL_REQUIRED, k);
    }
  }

  lemma CountedLength(s: State, id: nat, date: int, submitted: seq<Submitted>, body: CloseBody, env: Env, e: Error)
    requires id in s.boxes && CountNow(s, id, date, submitted, body, env, e).Counts?
    ensures |CountNow(s, id, date, submitted, body, env, e).counts| == |s.boxes[id].currencies|
  {
    hide Precise, BooksPrecise, AllExplained, CoversBox, DistinctCurrencies, CountFor;
  }

  /** No movement after position `n` touches a controlled currency of the cashbox. */
  predicate AllQuiet(movements: seq<Movement>, n: nat, box: nat, currencies: seq<Currency>, date: int) {
    forall k :: 0 <= k < |currencies| ==> Quiet(movements, n, box, currencies[k], date)
  }

  /** Both commands count the same amount of every listed currency. */
  predicate SameAmounts(x: CloseBody, y: CloseBody, currencies: seq<Currency>) {
    forall k :: 0 <= k < |currencies| ==>
      && currencies[k] in x.counts && currencies[k] in y.counts
      && x.counts[currencies[k]].amount == y.counts[currencies[k]].amount
  }

  lemma StillCounted(s: State, ticket: Ticket, env: Env, between: seq<Step>, k: nat)
    requires Invariant(s) && Commits(s, ticket, env) && TicketOk(ticket, s.reservations)
    requires k < |s.boxes[ticket.command.box].currencies|
    requires var c := ticket.command; var t := AfterCommit(s, ticket, env);
             Quiet(Run(t, between).movements, |t.movements|, c.box, s.boxes[c.box].currencies[k], c.date)
    ensures var c := ticket.command; var currency := s.boxes[c.box].currencies[k];
            var body := NormalizeClose(c.counts, c.observed);
            && currency in body.counts
            && Book(Run(AfterCommit(s, ticket, env), between).movements, c.box, currency, c.date)
               == body.counts[currency].amount
  {
    var c := ticket.command;
    var currency := s.boxes[c.box].currencies[k];
    var t := AfterCommit(s, ticket, env);
    var u := Run(t, between);
    BookEqualsCount(s, ticket, env, k);
    CommitKeeps(s, ticket, env);
    RunKeeps(t, between);
    hide Invariant, AfterCommit, Run, NormalizeClose, Commits;
    QuietKeepsBook(u.movements, |t.movements|, c.box, currency, c.date);
    assert u.movements[..|t.movements|] == t.movements;
  }

  /** Counted again to the amounts the books show, nothing varies. */
  lemma EvenCounts(u: State, again: CloseCommand, later: Env)
    requires BoxesOk(u.boxes) && PrepareClose(u, again, later).Prepared? && again.box in u.boxes
    requires var body := NormalizeClose(again.counts, again.observed); var currencies := u.boxes[again.box].currencies;
             forall k :: 0 <= k < |currencies| ==>
               && currencies[k] in body.counts
               && Book(u.movements, again.box, currencies[k], again.date) == body.counts[currencies[k]].amount
    ensures !HasVariance(PrepareClose(u, again, later).counts)
  {
    hide PrepareClose, NormalizeClose, Book;
    var counts := PrepareClose(u, again, later).counts;
    forall k | 0 <= k < |counts|
      ensures counts[k].variance == 0
    {
      PreparedCounts(u, again, later, k);
    }
  }

  /** A later close of the same day that counts the same amounts, after any run that
      leaves the controlled books alone, has no variance in any currency and posts
      nothing. */
  lemma RecloseIsEven(s: State, ticket: Ticket, env: Env, between: seq<Step>, again: CloseCommand, later: Env, day: nat)
    requires Invariant(s) && Commits(s, ticket, env) && TicketOk(ticket, s.reservations)
    requires again.box == ticket.command.box && again.date == ticket.command.date
    requires var c := ticket.command; var t := AfterCommit(s, ticket, env); var u := Run(t, between);
             && PrepareClose(u, again, later).Prepared? && c.box in u.boxes
             && u.boxes[c.box].currencies == s.boxes[c.box].currencies
             && AllQuiet(u.movements, |t.movements|, c.box, s.boxes[c.box].currencies, c.date)
             && SameAmounts(NormalizeClose(c.counts, c.observed), NormalizeClose(again.counts, again.observed),
                  s.boxes[c.box].currencies)
    ensures var p := PrepareClose(Run(AfterCommit(s, ticket, env), between), again, later);
            !HasVariance(p.counts) && VarianceMovements(day, again, p.counts) == []
  {
    hide Invariant, AfterCommit, Run, NormalizeClose, PrepareClose, Commits, VarianceMovements, Quiet, Book,
      HasVariance;
    var t := AfterCommit(s, ticket, env);
    var u := Run(t, between);
    CommitKeeps(s, ticket, env);
    RunKeeps(t, between);
    BoxesInOrder(u);
    forall k | 0 <= k < |u.boxes[again.box].currencies|
      ensures var currency := u.boxes[again.box].currencies[k];
          var body := NormalizeClose(again.counts, again.observed);
              currency in body.counts
                && Book(u.movements, again.box, currency, again.date) == body.counts[currency].amount
    {
      StillCounted(s, ticket, env, between, k);
    }
    EvenCounts(u, again, later);
    NothingToPost(day, again, PrepareClose(u, again, later).counts);
  }

  lemma BoxesInOrder(s: State)
    requires Invariant(s)
    ensures BoxesOk(s.boxes)
  {
  }

  lemma {:induction false} NothingToPost(day: nat, c: CloseCommand, counts: seq<Count>)
    requires !HasVariance(counts)
    ensures VarianceMovements(day, c, counts) == []
  {
    if |counts| > 0 {
      var n := |counts| - 1;
      assert !HasVariance(counts[..n]) by {
        assert forall k :: 0 <= k < n ==> counts[..n][k] == counts[k];
      }
      NothingToPost(day, c, counts[..n]);
    }
  }
}
