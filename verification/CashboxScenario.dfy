/** Runs over one day of one cashbox. Closed with a variance, reopened, counted
    again and closed: every transaction goes through, both approvals are spent, and
    the second close finds no variance. Refused by the approver: the subject can
    never be closed. Books that move away and back: the approval works again. */
module CashboxScenario {
  import opened Common
  import opened Foundation
  import opened Cashbox
  import opened CashboxInvariant
  import opened CashboxTheorems
  import opened Sums

  const USD: Currency := "USD"
  const BOX := Cashbox.Box(None, 0, true, 0, Some(1), [USD], [])
  const ENV := Env(map[USD := 8], true, true)

  function Counting(reason: Option<string>): seq<Submitted> { [Submitted(USD, 5, 8, reason)] }

  function Body(reason: Option<string>): CloseBody { CloseBody(map[USD := Entry(5, reason)], multiset{}) }

  const EXPLAINED := Some("x")
  const ASKED := CloseCommand(0, 1, Counting(EXPLAINED), [], None, 1, 7)
  const FIRST := CloseCommand(0, 1, Counting(EXPLAINED), [], Some(0), 1, 7)
  const AGAIN := CloseCommand(0, 1, Counting(None), [], None, 1, 8)
  const APPROVE_CLOSE := Decision(0, true, None, 1, 2, 7)
  const APPROVE_REOPEN := Decision(1, true, None, 1, 2, 7)
  const REOPEN_ASKED := ReopenRequest(0, 1, "x", 1, 7)
  const REOPENING := ReopenCommand(0, 1, "x", 1, 1, 1, 9)

  const STEPS: seq<Step> := [
    Administer(0, BOX), RequestClose(ASKED, ENV), Act(APPROVE_CLOSE, ENV), Reserve(FIRST, ENV), Commit(0, ENV),
    RequestReopen(REOPEN_ASKED, ENV), Act(APPROVE_REOPEN, ENV), Reopen(REOPENING, ENV),
    Reserve(AGAIN, ENV), Commit(1, ENV)]

  // ---- the tables after each step ----

  const SURPLUS := Count(USD, 0, 5, 5, EXPLAINED)
  const EVEN := Count(USD, 5, 5, 0, None)
  const CREDITED := Movement(CASHBOX_AND_CUSTODY, 0, VarianceKey(USD), CASHBOX(0), CREDIT, 5, USD, 1, None, POSTED)

  const CLOSING := Request(0, 1, CLOSE, CloseSubject(0, 1, None, 0, Body(EXPLAINED)),
    Some(Snapshot(0, 0, [(USD, 0)], [])),
    None, 0, 1, PENDING, 1)
  const OPENING := Request(0, 1, REOPEN, ReopenSubject(0, 1, Some(0), 1, "x"), None, Some(0), 1, 1, PENDING, 1)

  function Decided(r: Request): Request { r.(state := APPROVED, version := 2) }

  const NUMBER_1 := Reservation(0, 1, 1, None, 0, 1, 7, DigestOf(FIRST), RESERVED, None)
  const NUMBER_2 := Reservation(0, 1, 2, None, 0, 2, 8, DigestOf(AGAIN), RESERVED, None)

  const CYCLE_1 := Day(0, 1, 1, Some(1), CLOSED, 1, Some(0), None, Some(1), [SURPLUS])
  const CYCLE_2 := Day(0, 1, 2, None, REOPENED, 1, Some(1), Some(0), None, [])
  const CLOSED_2 := CYCLE_2.(number := Some(2), state := CLOSED, version := 2, closedBy := Some(1), counts := [EVEN])

  const S1 := EMPTY.(boxes := map[0 := BOX])
  const S2 := S1.(requests := [CLOSING], replies := map[CloseRequestKey(ASKED) := Reply(CloseRequestDigest(ASKED), 0)])
  const S3 := S2.(
    requests := [Decided(CLOSING)], actions := [Action(0, 2, true)],
    replies := S2.replies[DecisionKey(APPROVE_CLOSE) := Reply(DecisionDigest(APPROVE_CLOSE), 0)])
  const S4 := S3.(reservations := [NUMBER_1], tickets := [Ticket(FIRST, 0, NUMBER_1)], nextNumber := 2)
  const S5 := S4.(
    days := [CYCLE_1], reservations := [NUMBER_1.(state := CONSUMED, day := Some(0))], movements := [CREDITED],
    replies := S4.replies[CloseKey(FIRST) := Reply(OfClose(DigestOf(FIRST)), 0)])
  const S6 := S5.(
    requests := [Decided(CLOSING), OPENING],
    replies := S5.replies[ReopenRequestKey(REOPEN_ASKED) := Reply(ReopenRequestDigest(REOPEN_ASKED), 1)])
  const S7 := S6.(
    requests := [Decided(CLOSING), Decided(OPENING)], actions := [Action(0, 2, true), Action(1, 2, true)],
    replies := S6.replies[DecisionKey(APPROVE_REOPEN) := Reply(DecisionDigest(APPROVE_REOPEN), 1)])
  const S8 := S7.(
    days := [CYCLE_1, CYCLE_2], replies := S7.replies[ReopenKey(REOPENING) := Reply(OfReopen(REOPENING), 1)])
  const S9 := S8.(
    reservations := S8.reservations + [NUMBER_2], tickets := S8.tickets + [Ticket(AGAIN, 1, NUMBER_2)], nextNumber := 3)
  const S10 := S9.(
    days := [CYCLE_1, CLOSED_2], reservations := [S9.reservations[0], NUMBER_2.(state := CONSUMED, day := Some(1))],
    replies := S9.replies[CloseKey(AGAIN) := Reply(OfClose(DigestOf(AGAIN)), 1)])

  // ---- counting ----

  lemma Normalized(reason: Option<string>)
    requires reason == None || reason == EXPLAINED
    ensures NormalizeClose(Counting(reason), []) == Body(reason)
  {
    var s := Counting(reason);
    assert s[..0] == [] && NormalizedCounts([]) == map[];
    assert NormalizedCounts(s) == map[USD := Entry(5, NormalizedReason(reason))];
    assert TrimStart("x") == "x" && TrimEnd("x") == "x";
  }

  lemma Acceptable(reason: Option<string>)
    ensures CoversBox(Body(reason), [USD]) && Precise(ENV.places, Counting(reason))
        && DistinctCurrencies(Counting(reason))
  {
    assert Body(reason).counts.Keys == {USD};
    assert [USD][0] == USD;
  }

  lemma BookPrecise(movements: seq<Movement>)
    ensures BooksPrecise(ENV.places, movements, 0, [USD], 1)
  {
    Decimals.ReadAmountParts(Book(movements, 0, USD, 1));
    hide Decimals.AmountParts, Book;
  }

  lemma OneCount(movements: seq<Movement>, book: int, reason: Option<string>)
    requires Book(movements, 0, USD, 1) == book
    ensures CountsOf(movements, 0, 1, [USD], Body(reason)) == [Count(USD, book, 5, 5 - book, reason)]
  {
    hide Book;
    assert [USD][..0] == [];
  }

  /** Counting 5 against a book of `book`. */
  lemma Counted(s: State, book: int, reason: Option<string>, e: Error)
    requires 0 in s.boxes && s.boxes[0] == BOX && Book(s.movements, 0, USD, 1) == book
    requires if book == 5 then reason == None else reason == EXPLAINED
    ensures CountNow(s, 0, 1, Counting(reason), Body(reason), ENV, e) == Counts([Count(USD, book, 5, 5 - book, reason)])
  {
    Acceptable(reason);
    BookPrecise(s.movements);
    OneCount(s.movements, book, reason);
    hide Book, CoversBox, Precise, DistinctCurrencies, BooksPrecise, CountsOf, Counting, Body;
  }

  lemma SurplusFacts()
    ensures Books([SURPLUS]) == [(USD, 0)] && HasVariance([SURPLUS])
    ensures VarianceMovements(0, FIRST, [SURPLUS]) == [CREDITED]
  {
    assert [SURPLUS][..0] == [];
    assert [SURPLUS][0].variance != 0;
  }

  lemma NoBook(s: State)
    requires s.movements == []
    ensures Book(s.movements, 0, USD, 1) == 0
  {
  }

  lemma CreditedBook(s: State)
    requires s.movements == [CREDITED]
    ensures Book(s.movements, 0, USD, 1) == 5
  {
    assert [CREDITED][..0] == [];
    SumPush([], CREDITED, BookShare(0, USD, 1));
  }

  lemma NothingYet()
    ensures Latest([], 0, 1) == None && FindReservation([], 0, 1, 7) == None
  {
  }

  // ---- the steps ----

  lemma Administered()
    ensures Next(EMPTY, Administer(0, BOX)) == S1
  {
  }

  /** A first close with a variance is recorded as a request. */
  lemma RequestRecorded(s: State, c: CloseCommand, counts: seq<Count>)
    requires 0 in s.boxes && s.boxes[0] == BOX && c.box == 0 && c.actor == 1 && c.observed == []
        && Latest(s.days, 0, c.date) == None
    requires s.requests == [] && CloseRequestKey(c) !in s.replies
    requires DistinctCurrencies(c.counts) && Precise(ENV.places, c.counts) && HasVariance(counts)
    requires CountNow(s, 0, c.date, c.counts, NormalizeClose(c.counts, []), ENV, VALIDATION) == Counts(counts)
    ensures Next(s, RequestClose(c, ENV)) == s.(
              requests := [Request(
                0, c.date, CLOSE, CloseSubject(0, c.date, None, 0, NormalizeClose(c.counts, [])),
                  Some(SnapshotOf(0, BOX, counts)),
                None, 0, 1, PENDING, 1)],
              replies := s.replies[CloseRequestKey(c) := Reply(CloseRequestDigest(c), 0)])
  {
    hide Latest, CountNow, NormalizeClose, HasVariance, SnapshotOf, DistinctCurrencies, Precise;
  }

  lemma CloseRequested()
    ensures Next(S1, RequestClose(ASKED, ENV)) == S2
  {
    hide CountNow, NormalizeClose, Books, HasVariance, Body, Latest, Book, DistinctCurrencies, Precise, Next, Counting;
    NoBook(S1);
    Normalized(EXPLAINED);
    Counted(S1, 0, EXPLAINED, VALIDATION);
    Acceptable(EXPLAINED);
    SurplusFacts();
    NothingYet();
    RequestRecorded(S1, ASKED, [SURPLUS]);
  }

  lemma CloseDecided()
    ensures Next(S2, Act(APPROVE_CLOSE, ENV)) == S3
  {
  }

  predicate Approved(s: State) {
    && s.boxes == map[0 := BOX] && s.days == [] && Book(s.movements, 0, USD, 1) == 0
    && s.requests == [Decided(CLOSING)] && s.actions == [Action(0, 2, true)]
  }

  lemma FirstApproved(s: State)
    requires Approved(s)
    ensures CloseApproved(s, FIRST, (None, 0), SnapshotOf(0, BOX, [SURPLUS]))
  {
    Normalized(EXPLAINED);
    SurplusFacts();
    hide NormalizeClose, Books, Counting, Body;
  }

  /** The guards of a close in this cashbox, one by one. */
  lemma PreparedWhen(s: State, c: CloseCommand, latest: Option<nat>, counts: seq<Count>)
    requires 0 in s.boxes && s.boxes[0] == BOX && c.box == 0 && c.actor == 1 && c.observed == []
    requires latest == Latest(s.days, 0, c.date) && (latest.Some? ==> s.days[latest.value].state == REOPENED)
    requires CountNow(s, 0, c.date, c.counts, NormalizeClose(c.counts, []), ENV, APPROVAL_REQUIRED) == Counts(counts)
    requires if HasVariance(counts) then CloseApproved(s, c, Source(s.days, latest), SnapshotOf(0, BOX, counts))
        else c.approval == None
    ensures PrepareClose(s, c, ENV) == Prepared(latest, counts)
  {
    hide Latest, CountNow, NormalizeClose, HasVariance, SnapshotOf;
  }

  /** The approved close goes through both times it is prepared. */
  lemma FirstPrepared(s: State)
    requires Approved(s)
    ensures PrepareClose(s, FIRST, ENV) == Prepared(None, [SURPLUS])
  {
    hide CountNow, NormalizeClose, Books, HasVariance, Body, CloseApproved, SnapshotOf, Latest, Book, PrepareClose;
    Normalized(EXPLAINED);
    Counted(s, 0, EXPLAINED, APPROVAL_REQUIRED);
    SurplusFacts();
    FirstApproved(s);
    NothingYet();
    PreparedWhen(s, FIRST, None, [SURPLUS]);
  }

  /** A prepared close under a new key gets the next number. */
  lemma NewTicket(s: State, c: CloseCommand)
    requires DistinctCurrencies(c.counts) && Precise(ENV.places, c.counts) && CloseKey(c) !in s.replies
    requires FindReservation(s.reservations, c.box, c.date, c.key).None? && PrepareClose(s, c, ENV).Prepared?
        && c.box in s.boxes
    ensures var r := NewReservation(s, c, ENV);
            Next(s, Reserve(c, ENV)) == s.(tickets := s.tickets + [Ticket(c, |s.reservations|, r)],
              reservations := s.reservations + [r], nextNumber := s.nextNumber + 1)
  {
    hide DistinctCurrencies, Precise, FindReservation, PrepareClose, NewReservation, DigestOf;
  }

  lemma FirstNumber(s: State)
    requires s.boxes == map[0 := BOX] && s.days == [] && s.nextNumber == 1
    ensures NewReservation(s, FIRST, ENV) == NUMBER_1
  {
    hide DigestOf, Latest;
    NothingYet();
  }

  lemma FirstReserved()
    ensures Next(S3, Reserve(FIRST, ENV)) == S4
  {
    hide PrepareClose, DigestOf, Precise, DistinctCurrencies, Counting, Latest, FindReservation, Next, NewReservation;
    NoBook(S3);
    FirstPrepared(S3);
    Acceptable(EXPLAINED);
    NothingYet();
    FirstNumber(S3);
    NewTicket(S3, FIRST);
  }

  lemma FirstCommitted()
    ensures Next(S4, Commit(0, ENV)) == S5 && SpentBy(S4, Commit(0, ENV)) == Some(0)
  {
    NoBook(S4);
    FirstPrepared(S4);
    SurplusFacts();
    hide PrepareClose, NormalizeClose, VarianceMovements;
  }

  lemma ReopenRequested()
    ensures Next(S5, RequestReopen(REOPEN_ASKED, ENV)) == S6
  {
    assert TrimStart("x") == "x" && TrimEnd("x") == "x";
    assert [CYCLE_1][..0] == [] && Latest([CYCLE_1], 0, 1) == Some(0);
  }

  lemma ReopenDecided()
    ensures Next(S6, Act(APPROVE_REOPEN, ENV)) == S7
  {
  }

  lemma Reopened()
    ensures Next(S7, Reopen(REOPENING, ENV)) == S8 && SpentBy(S7, Reopen(REOPENING, ENV)) == Some(1)
  {
    assert TrimStart("x") == "x" && TrimEnd("x") == "x";
    assert [CYCLE_1][..0] == [] && Latest([CYCLE_1], 0, 1) == Some(0);
  }

  lemma LatestOfTwo()
    ensures Latest([CYCLE_1, CYCLE_2], 0, 1) == Some(1)
  {
    assert [CYCLE_1, CYCLE_2][..1] == [CYCLE_1] && [CYCLE_1][..0] == [];
    assert Latest([CYCLE_1], 0, 1) == Some(0);
  }

  lemma EvenFacts()
    ensures !HasVariance([EVEN]) && VarianceMovements(1, AGAIN, [EVEN]) == []
  {
    assert [EVEN][..0] == [];
  }

  lemma AgainPrepared(s: State)
    requires s == S8 || s == S9
    ensures PrepareClose(s, AGAIN, ENV) == Prepared(Some(1), [EVEN])
  {
    hide CountNow, NormalizeClose, HasVariance, Body, CloseApproved, SnapshotOf, Latest, Book, PrepareClose;
    CreditedBook(s);
    Normalized(None);
    Counted(s, 5, None, APPROVAL_REQUIRED);
    LatestOfTwo();
    EvenFacts();
    PreparedWhen(s, AGAIN, Some(1), [EVEN]);
  }

  lemma OtherKey(r: Reservation)
    requires r.key == 7
    ensures FindReservation([r], 0, 1, 8) == None
  {
    assert [r][..0] == [];
  }

  lemma AgainNumber(s: State)
    requires s.boxes == map[0 := BOX] && s.days == [CYCLE_1, CYCLE_2] && s.nextNumber == 2
    ensures NewReservation(s, AGAIN, ENV) == NUMBER_2
  {
    hide DigestOf, Latest;
    LatestOfTwo();
  }

  lemma AgainReserved()
    ensures Next(S8, Reserve(AGAIN, ENV)) == S9
  {
    hide PrepareClose, DigestOf, Precise, DistinctCurrencies, Counting, Latest, FindReservation, Next, NewReservation;
    AgainPrepared(S8);
    Acceptable(None);
    OtherKey(S8.reservations[0]);
    AgainNumber(S8);
    NewTicket(S8, AGAIN);
  }

  lemma AgainCommitted()
    ensures Next(S9, Commit(1, ENV)) == S10
  {
    AgainPrepared(S9);
    EvenFacts();
    hide PrepareClose, NormalizeClose, VarianceMovements;
  }

  // ---- the run ----

  lemma RunStep(k: nat, step: Step, s: State, t: State)
    requires k < |STEPS| && STEPS[k] == step && Run(EMPTY, STEPS[..k]) == s && Next(s, step) == t
    ensures Run(EMPTY, STEPS[..k + 1]) == t
  {
    hide Next;
    assert STEPS[..k + 1][..k] == STEPS[..k];
  }

  lemma ApprovedRun()
    ensures Run(EMPTY, STEPS[..3]) == S3
  {
    hide Next;
    assert Run(EMPTY, STEPS[..0]) == EMPTY;
    Administered();
    RunStep(0, Administer(0, BOX), EMPTY, S1);
    CloseRequested();
    RunStep(1, RequestClose(ASKED, ENV), S1, S2);
    CloseDecided();
    RunStep(2, Act(APPROVE_CLOSE, ENV), S2, S3);
  }

  /** A day is closed with an approved variance, reopened with another approval
      and closed again without a variance. */
  lemma ClosedReopenedClosed()
    ensures SpentBy(Run(EMPTY, STEPS[..4]), STEPS[4]) == Some(0)
    ensures SpentBy(Run(EMPTY, STEPS[..7]), STEPS[7]) == Some(1)
    ensures Run(EMPTY, STEPS).days == [CYCLE_1, CLOSED_2] && Run(EMPTY, STEPS).movements == [CREDITED]
  {
    hide Next, SpentBy;
    ApprovedRun();
    FirstReserved();
    RunStep(3, Reserve(FIRST, ENV), S3, S4);
    FirstCommitted();
    RunStep(4, Commit(0, ENV), S4, S5);
    ReopenRequested();
    RunStep(5, RequestReopen(REOPEN_ASKED, ENV), S5, S6);
    ReopenDecided();
    RunStep(6, Act(APPROVE_REOPEN, ENV), S6, S7);
    Reopened();
    RunStep(7, Reopen(REOPENING, ENV), S7, S8);
    AgainReserved();
    RunStep(8, Reserve(AGAIN, ENV), S8, S9);
    AgainCommitted();
    RunStep(9, Commit(1, ENV), S9, S10);
    assert STEPS[..10] == STEPS;
  }

  // ---- a rejected request ----

  const REJECT_CLOSE := Decision(0, false, EXPLAINED, 1, 2, 7)
  const REJECTION: seq<Step> := [Administer(0, BOX), RequestClose(ASKED, ENV), Act(REJECT_CLOSE, ENV)]
  const REJECTED_CLOSING := CLOSING.(state := REJECTED, version := 2)

  lemma CloseRejected()
    ensures var t := Next(S2, Act(REJECT_CLOSE, ENV));
            t.requests == [REJECTED_CLOSING] && t.boxes == S2.boxes && t.days == [] && t.movements == []
  {
    assert TrimStart("x") == "x" && TrimEnd("x") == "x";
  }

  lemma RejectionRun()
    ensures var s := Run(EMPTY, REJECTION);
            s.requests == [REJECTED_CLOSING] && s.boxes == map[0 := BOX] && s.days == [] && s.movements == []
  {
    hide Next;
    assert Run(EMPTY, REJECTION[..0]) == EMPTY;
    Administered();
    assert REJECTION[..1][..0] == REJECTION[..0] && Run(EMPTY, REJECTION[..1]) == S1;
    CloseRequested();
    assert REJECTION[..2][..1] == REJECTION[..1] && Run(EMPTY, REJECTION[..2]) == S2;
    CloseRejected();
    assert REJECTION[..3] == REJECTION;
  }

  lemma ReadyWhen(s: State, c: CloseCommand, counts: seq<Count>)
    requires 0 in s.boxes && s.boxes[0] == BOX && c.box == 0 && c.actor == 1 && c.observed == []
    requires Latest(s.days, 0, c.date) == None && HasVariance(counts)
    requires CountNow(s, 0, c.date, c.counts, NormalizeClose(c.counts, []), ENV, APPROVAL_REQUIRED) == Counts(counts)
    ensures ReadyToClose(s, c, ENV, counts)
  {
    hide Latest, CountNow, NormalizeClose, HasVariance;
  }

  lemma SubjectOfFirst(days: seq<Day>, c: CloseCommand)
    requires Latest(days, 0, 1) == None && c.box == 0 && c.date == 1 && c.observed == []
    requires c.counts == Counting(EXPLAINED)
    ensures SubjectNow(days, c) == CLOSING.subject
  {
    Normalized(EXPLAINED);
    hide NormalizeClose, Counting, Body, Latest;
  }

  /** The run ends with the request of a close refused. The close lacks nothing but
      an approval, and no approval lets it through, now or after any run that leaves
      the day without a row; nor can the same subject be requested again. */
  lemma RefusedForEver(later: seq<Step>, a: nat, key: nat, env: Env)
    requires Latest(Run(Run(EMPTY, REJECTION), later).days, 0, 1) == None
    ensures ReadyToClose(Run(EMPTY, REJECTION), ASKED, ENV, [SURPLUS])
    ensures !PrepareClose(Run(EMPTY, REJECTION), ASKED.(approval := Some(a)), ENV).Prepared?
    ensures var u := Run(Run(EMPTY, REJECTION), later); var again := ASKED.(approval := Some(a), key := key);
            !PrepareClose(u, again, env).Prepared? && !RequestsClose(u, again, env)
  {
    hide Run, PrepareClose, HasVariance, CountNow, NormalizeClose, RequestsClose, SubjectNow, Latest, ReadyToClose,
      Books, Book, Body, Counting, SnapshotOf, Invariant;
    var s := Run(EMPTY, REJECTION);
    RejectionRun();
    ReachableIsInOrder(REJECTION);
    NothingYet();
    NoBook(s);
    Normalized(EXPLAINED);
    Counted(s, 0, EXPLAINED, APPROVAL_REQUIRED);
    SurplusFacts();
    ReadyWhen(s, ASKED, [SURPLUS]);
    SubjectOfFirst(s.days, ASKED);
    ClosableOnRequestIff(s, ASKED, ENV, [SURPLUS], 0);
    var again := ASKED.(approval := Some(a), key := key);
    SubjectOfFirst(Run(s, later).days, again);
    RejectedIsFinal(s, 0, later, again, env);
    if PrepareClose(Run(s, later), again, env).Prepared? {
      ApprovalMeansVariance(Run(s, later), again, env);
    }
  }

  /** A close that names an approval is prepared only with a variance. */
  lemma ApprovalMeansVariance(s: State, c: CloseCommand, env: Env)
    requires PrepareClose(s, c, env).Prepared? && c.approval.Some?
    ensures HasVariance(PrepareClose(s, c, env).counts)
  {
    hide CountNow, NormalizeClose, HasVariance, CloseApproved, Latest;
  }

  // ---- books that move ----

  const MOVED_IN := CREDITED.(amount := 3)
  const MOVED_OUT := MOVED_IN.(direction := DEBIT)

  lemma MovedBooks()
    ensures Book([MOVED_IN], 0, USD, 1) == 3 && Book([MOVED_IN, MOVED_OUT], 0, USD, 1) == 0
  {
    assert [MOVED_IN][..0] == [] && [MOVED_IN] + [MOVED_OUT] == [MOVED_IN, MOVED_OUT];
    SumPush([], MOVED_IN, BookShare(0, USD, 1));
    SumPush([MOVED_IN], MOVED_OUT, BookShare(0, USD, 1));
  }

  lemma MovedSnapshot()
    ensures var short := Count(USD, 3, 5, 2, EXPLAINED);
            && HasVariance([short]) && SnapshotOf(0, BOX, [short]) != SnapshotOf(0, BOX, [SURPLUS])
  {
    var short := Count(USD, 3, 5, 2, EXPLAINED);
    assert [short][..0] == [] && [SURPLUS][..0] == [];
    assert [short][0].variance != 0;
    assert Books([short])[0] == (USD, 3) && Books([SURPLUS])[0] == (USD, 0);
  }

  /** After the approval a movement changes the book, and no approval lets the close
      through; a movement back, and the same approval backs it again. */
  lemma BooksMoveAndReturn(a: nat)
    ensures var moved := Run(EMPTY, STEPS[..3] + [Record(MOVED_IN)]);
            && ReadyToClose(moved, FIRST, ENV, [Count(USD, 3, 5, 2, EXPLAINED)])
            && !PrepareClose(moved, FIRST.(approval := Some(a)), ENV).Prepared?
            && PrepareClose(Next(moved, Record(MOVED_OUT)), FIRST, ENV) == Prepared(None, [SURPLUS])
  {
    hide PrepareClose, HasVariance, CountNow, NormalizeClose, SubjectNow, Latest, ReadyToClose, Books, Book, Body,
      Counting, SnapshotOf, Invariant;
    var steps := STEPS[..3] + [Record(MOVED_IN)];
    assert steps[..3] == STEPS[..3];
    ApprovedRun();
    var moved := Run(EMPTY, steps);
    assert moved == S3.(movements := [MOVED_IN]);
    ReachableIsInOrder(steps);
    NothingYet();
    MovedBooks();
    MovedSnapshot();
    Normalized(EXPLAINED);
    Counted(moved, 3, EXPLAINED, APPROVAL_REQUIRED);
    var counts := [Count(USD, 3, 5, 2, EXPLAINED)];
    ReadyWhen(moved, FIRST, counts);
    SubjectOfFirst(moved.days, FIRST);
    SurplusFacts();
    ClosableOnRequestIff(moved, FIRST, ENV, counts, 0);
    SnapshotOfSurplus();
    assert moved.movements + [MOVED_OUT] == [MOVED_IN, MOVED_OUT];
    FirstPrepared(Next(moved, Record(MOVED_OUT)));
  }

  lemma SnapshotOfSurplus()
    ensures Some(SnapshotOf(0, BOX, [SURPLUS])) == CLOSING.snapshot
  {
    SurplusFacts();
  }
}
