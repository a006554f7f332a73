/** Keys of closes: a reservation is consumed exactly when its key is answered,
    and a key whose cycle was closed under another one is dead. */
module CashboxKeys {
  import opened Common
  import opened Cashbox
  import opened CashboxDays
  import opened CashboxInvariant
  import opened CashboxSteps

  function KeyOf(r: Reservation): (Scope, nat) { (CLOSE_DAY(r.box, r.date), r.key) }

  /** No key has been answered while its reservation waits. */
  predicate Unanswered(rs: seq<Reservation>, replies: map<(Scope, nat), Reply>) {
    forall k :: 0 <= k < |rs| && rs[k].state == RESERVED ==> KeyOf(rs[k]) !in replies
  }

  // ---- consumed or unanswered ----

  lemma CommitUnanswered(s: State, ticket: Ticket, env: Env)
    requires Invariant(s) && TicketOk(ticket, s.reservations) && Unanswered(s.reservations, s.replies)
    ensures Unanswered(AfterCommit(s, ticket, env).reservations, AfterCommit(s, ticket, env).replies)
  {
    hide CommitOutcome, AfterCommit, PrepareClose, VarianceMovements, ClosedDay, DaysOk, RequestsOk, ActionsOk,
      ApprovalsOk, AllReserved, TicketsOk, ConsumedOk;
    if Commits(s, ticket, env) {
      CommitShape(s, ticket, env);
      forall k | 0 <= k < |s.reservations| && k != ticket.id
        ensures KeyOf(s.reservations[k]) != CloseKey(ticket.command)
      {
        assert k < ticket.id ==> Apart(s.reservations[k], s.reservations[ticket.id]);
        assert ticket.id < k ==> Apart(s.reservations[ticket.id], s.reservations[k]);
      }
    } else {
      NothingCommitted(s, ticket, env);
    }
  }

  lemma NothingCommitted(s: State, ticket: Ticket, env: Env)
    requires !Commits(s, ticket, env)
    ensures AfterCommit(s, ticket, env) == s
  {
    hide Commits;
  }

  lemma ReserveUnanswered(s: State, c: CloseCommand, env: Env)
    requires Invariant(s) && Unanswered(s.reservations, s.replies)
    ensures Unanswered(AfterReserve(s, c, env).reservations, AfterReserve(s, c, env).replies)
  {
    if ReserveOutcome(s, c, env).Ticketed? {
      ReserveFacts(s, c, env);
      hide Invariant, PrepareClose, NewReservation, FindReservation, DigestOf, Precise, DistinctCurrencies;
    }
  }

  lemma NextUnanswered(s: State, step: Step)
    requires Invariant(s) && Unanswered(s.reservations, s.replies)
    ensures Unanswered(Next(s, step).reservations, Next(s, step).replies)
  {
    match step {
      case Commit(t, env) =>
        if t < |s.tickets| {
          assert TicketOk(s.tickets[t], s.reservations);
          CommitUnanswered(s, s.tickets[t], env);
        }
      case Reserve(c, env) => ReserveUnanswered(s, c, env);
      case _ => hide Invariant, RequestsClose, RequestsReopen, Decides, Reopens, AfterCommit, AfterReserve;
    }
  }

  lemma {:induction false} RunUnanswered(s: State, steps: seq<Step>)
    requires Invariant(s) && Unanswered(s.reservations, s.replies)
    ensures Unanswered(Run(s, steps).reservations, Run(s, steps).replies)
  {
    if |steps| > 0 {
      var before := steps[..|steps| - 1];
      RunUnanswered(s, before);
      RunKeeps(s, before);
      hide Invariant, Unanswered, Next;
      NextUnanswered(Run(s, before), steps[|steps| - 1]);
    }
  }

  /** In every reachable state a reservation is consumed if and only if its key has
      been answered. */
  lemma ConsumedIffAnswered(steps: seq<Step>, k: nat)
    requires k < |Run(EMPTY, steps).reservations|
    ensures var u := Run(EMPTY, steps); u.reservations[k].state == CONSUMED <==> KeyOf(u.reservations[k]) in u.replies
  {
    EmptyIsInOrder();
    RunKeeps(EMPTY, steps);
    RunUnanswered(EMPTY, steps);
    hide Run;
    var u := Run(EMPTY, steps);
    assert ConsumedOk(u.reservations[k], u.days, u.replies);
  }

  // ---- overtaken reservations ----

  /** The cycle a reservation is for has been closed, and not by it. */
  predicate Overtaken(s: State, k: nat, d: nat) {
    && k < |s.reservations| && s.reservations[k].state == RESERVED
    && d < |s.days| && s.days[d].state == CLOSED
    && s.days[d].box == s.reservations[k].box && s.days[d].date == s.reservations[k].date
    && s.days[d].cycle == s.reservations[k].cycle
  }

  /** A cycle of a cashbox date has one row. */
  lemma OneRowPerCycle(days: seq<Day>, d: nat, e: nat)
    requires DaysOk(days) && d < |days| && e < |days| && SameKey(days[d], days[e]) && days[d].cycle == days[e].cycle
    ensures d == e
  {
    var box, date := days[d].box, days[d].date;
    ChainIsComplete(days, box, date, d);
    ChainIsComplete(days, box, date, e);
    var c := Chain(days, box, date);
    var i: nat :| i < |c| && c[i] == d;
    var j: nat :| j < |c| && c[j] == e;
    ChainIsCycles(days, box, date, i);
    ChainIsCycles(days, box, date, j);
  }

  lemma OvertakenDoesNotCommit(s: State, ticket: Ticket, env: Env, d: nat)
    requires Invariant(s) && TicketOk(ticket, s.reservations) && Overtaken(s, ticket.id, d)
    ensures !Commits(s, ticket, env)
  {
    if Commits(s, ticket, env) {
      CommitFacts(s, ticket, env);
      DaysInOrder(s);
      var latest := PrepareClose(s, ticket.command, env).latest;
      hide Invariant, PrepareClose, Commits, CommitOutcome, Latest, DaysOk;
      LatestExists(s.days, d);
      OneRowPerCycle(s.days, latest.value, d);
    }
  }

  lemma OvertakenByCommit(s: State, ticket: Ticket, env: Env, k: nat, d: nat)
    requires Invariant(s) && TicketOk(ticket, s.reservations) && Overtaken(s, k, d)
    ensures k < |AfterCommit(s, ticket, env).reservations|
    ensures AfterCommit(s, ticket, env).reservations[k] == s.reservations[k]
  {
    hide Invariant, Commits, AfterCommit, PrepareClose, VarianceMovements, ClosedDay, CommitOutcome, DigestOf;
    if Commits(s, ticket, env) {
      CommitShape(s, ticket, env);
      if ticket.id == k {
        OvertakenDoesNotCommit(s, ticket, env, d);
      }
    } else {
      NothingCommitted(s, ticket, env);
    }
  }

  lemma OthersKeepReservations(s: State, step: Step)
    requires !step.Commit?
    ensures s.reservations <= Next(s, step).reservations
  {
    hide RequestsClose, RequestsReopen, Decides, Reopens, ReserveOutcome, DistinctList;
  }

  lemma OvertakenByStep(s: State, step: Step, k: nat, d: nat)
    requires Invariant(s) && Overtaken(s, k, d)
    ensures Overtaken(Next(s, step), k, d) && Next(s, step).reservations[k] == s.reservations[k]
  {
    NextKeeps(s, step);
    assert DayProgress(s.days[d], Next(s, step).days[d]);
    assert TicketsOk(s.tickets, s.reservations);
    hide Invariant, Extends, AfterCommit;
    if step.Commit? {
      if step.ticket < |s.tickets| {
        OvertakenByCommit(s, s.tickets[step.ticket], step.env, k, d);
      }
    } else {
      OthersKeepReservations(s, step);
      hide Next;
    }
  }

  lemma {:induction false} OvertakenStays(s: State, steps: seq<Step>, k: nat, d: nat)
    requires Invariant(s) && Overtaken(s, k, d)
    ensures Overtaken(Run(s, steps), k, d) && Run(s, steps).reservations[k] == s.reservations[k]
  {
    if |steps| > 0 {
      var before := steps[..|steps| - 1];
      OvertakenStays(s, before, k, d);
      RunKeeps(s, before);
      OvertakenByStep(Run(s, before), steps[|steps| - 1], k, d);
      hide Invariant, Next, Overtaken;
    }
  }

  /** A key has one reservation. */
  lemma KeyHasOneReservation(u: State, j: nat, k: nat)
    requires Invariant(u) && j < |u.reservations| && k < |u.reservations|
    requires KeyOf(u.reservations[j]) == KeyOf(u.reservations[k])
    ensures j == k
  {
    assert j < k ==> Apart(u.reservations[j], u.reservations[k]);
    assert k < j ==> Apart(u.reservations[k], u.reservations[j]);
  }

  lemma OnlyItsReservation(u: State, k: nat, c: CloseCommand, env: Env)
    requires Invariant(u) && k < |u.reservations| && CloseKey(c) == KeyOf(u.reservations[k])
        && CloseKey(c) !in u.replies
    ensures !ReserveOutcome(u, c, env).Replied?
    ensures ReserveOutcome(u, c, env).Ticketed? ==> ReserveOutcome(u, c, env).ticket.id == k
  {
    hide Invariant, PrepareClose, DigestOf, Precise, DistinctCurrencies, NewReservation;
    var found := FindReservation(u.reservations, c.box, c.date, c.key);
    if found.Some? {
      KeyHasOneReservation(u, found.value, k);
    }
  }

  /** Once the cycle of a waiting reservation has been closed under another key,
      no later run consumes it: its key is never answered, the first transaction
      only ever returns this reservation, and the second always refuses. */
  lemma OvertakenKeyIsDead(steps: seq<Step>, k: nat, d: nat, later: seq<Step>, c: CloseCommand, env: Env)
    requires Overtaken(Run(EMPTY, steps), k, d)
    requires CloseKey(c) == KeyOf(Run(EMPTY, steps).reservations[k])
    ensures var s := Run(EMPTY, steps); var u := Run(s, later);
            && k < |u.reservations| && u.reservations[k] == s.reservations[k] && CloseKey(c) !in u.replies
            && !ReserveOutcome(u, c, env).Replied?
            && (ReserveOutcome(u, c, env).Ticketed? ==> ReserveOutcome(u, c, env).ticket.id == k)
            && forall ticket: Ticket :: TicketOk(ticket, u.reservations) && CloseKey(ticket.command) == CloseKey(c) ==>
                 CommitOutcome(u, ticket, env).Refused?
  {
    var s := Run(EMPTY, steps);
    var u := Run(s, later);
    EmptyIsInOrder();
    RunKeeps(EMPTY, steps);
    RunUnanswered(EMPTY, steps);
    RunKeeps(s, later);
    RunUnanswered(s, later);
    OvertakenStays(s, later, k, d);
    hide Run, Invariant, PrepareClose, ReserveOutcome, CommitOutcome;
    OnlyItsReservation(u, k, c, env);
    forall ticket: Ticket | TicketOk(ticket, u.reservations) && CloseKey(ticket.command) == CloseKey(c)
      ensures CommitOutcome(u, ticket, env).Refused?
    {
      KeyHasOneReservation(u, ticket.id, k);
      OvertakenDoesNotCommit(u, ticket, env, d);
    }
  }
}
