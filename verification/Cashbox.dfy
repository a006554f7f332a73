/** Closing and reopening the day of a cashbox: the tables, the guards of every
    command in the order the service checks them, and the state each transaction
    leaves. A close is two transactions: the first reserves a number, the second
    checks everything again and commits. Amounts are integers of 10^-8; digests
    are modelled by the values they are taken of; row ids are positions. */
module Cashbox {
  import opened Common
  import opened Foundation
  import opened Sums
  import Decimals

  // ---- tables ----

  /** A cashbox with its active primary custodian, its controlled currencies in
      their one order, and the instruments it holds. */
  datatype Box = Box(
    branch: Option<nat>, unit: nat, active: bool, version: nat, custodian: Option<nat>,
    currencies: seq<Currency>, instruments: seq<nat>)

  datatype Count = Count(currency: Currency, book: int, counted: int, variance: int, reason: Option<string>)

  datatype DayState = CLOSED | REOPENED

  datatype Day = Day(
    box: nat, date: int, cycle: nat, number: Option<nat>, state: DayState, version: nat,
    approval: Option<nat>, prior: Option<nat>, closedBy: Option<nat>, counts: seq<Count>)

  datatype ReservationState = RESERVED | CONSUMED

  datatype Reservation = Reservation(
    box: nat, date: int, cycle: nat, branch: Option<nat>, unit: nat, number: nat,
    key: nat, digest: CloseDigest, state: ReservationState, day: Option<nat>)

  datatype Kind = CLOSE | REOPEN

  datatype RequestState = PENDING | APPROVED | REJECTED

  datatype Request = Request(
    box: nat, date: int, kind: Kind, subject: Subject, snapshot: Option<Snapshot>,
    source: Option<nat>, sourceVersion: nat, requestedBy: nat, state: RequestState, version: nat)

  datatype Action = Action(request: nat, actor: nat, approved: bool)

  // ---- commands and what digests are taken of ----

  /** A submitted count: its amount, and how many fraction digits were written. */
  datatype Submitted = Submitted(currency: Currency, amount: int, digits: nat, reason: Option<string>)

  datatype Entry = Entry(amount: int, reason: Option<string>)

  /** A normalized close command: sorting distinct currencies leaves a map,
      sorting instrument ids a multiset. */
  datatype CloseBody = CloseBody(counts: map<Currency, Entry>, observed: multiset<nat>)

  datatype Subject =
    | CloseSubject(box: nat, date: int, source: Option<nat>, version: nat, body: CloseBody)
    | ReopenSubject(box: nat, date: int, source: Option<nat>, version: nat, reason: string)

  datatype Snapshot = Snapshot(box: nat, version: nat, books: seq<(Currency, int)>, instruments: seq<nat>)

  datatype CloseDigest = CloseDigest(actor: nat, box: nat, date: int, body: CloseBody, approval: Option<nat>)

  datatype CloseCommand = CloseCommand(
    box: nat, date: int, counts: seq<Submitted>, observed: seq<nat>, approval: Option<nat>, actor: nat, key: nat)

  datatype ReopenCommand = ReopenCommand(
    box: nat, date: int, reason: string, approval: nat, expectedVersion: nat, actor: nat, key: nat)

  datatype ReopenRequest = ReopenRequest(box: nat, date: int, reason: string, actor: nat, key: nat)

  datatype Decision = Decision(
    request: nat, approve: bool, reason: Option<string>, expectedVersion: nat, actor: nat, key: nat)

  /** What an idempotency key belongs to. */
  datatype Scope =
    | REQUEST_CLOSE(box: nat, date: int) | REQUEST_REOPEN(box: nat, date: int) | DECIDE(request: nat)
    | CLOSE_DAY(box: nat, date: int) | REOPEN_DAY(box: nat, date: int)

  datatype ReplyDigest =
    | OfCloseRequest(actor: nat, box: nat, date: int, body: CloseBody)
    | OfReopenRequest(actor: nat, box: nat, date: int, reason: Option<string>)
    | OfDecision(actor: nat, request: nat, expectedVersion: nat, approve: bool, reason: Option<string>)
    | OfClose(close: CloseDigest)
    | OfReopen(reopen: ReopenCommand)

  /** A reply names the row it is about: the request, the action or the day. */
  datatype Reply = Reply(digest: ReplyDigest, id: nat)

  /** A close between its two transactions: the command and the reservation row
      the first one returned. */
  datatype Ticket = Ticket(command: CloseCommand, id: nat, reservation: Reservation)

  datatype State = State(
    boxes: map<nat, Box>, days: seq<Day>, reservations: seq<Reservation>, requests: seq<Request>,
    actions: seq<Action>, movements: seq<Movement>, replies: map<(Scope, nat), Reply>,
    nextNumber: nat, tickets: seq<Ticket>)

  /** What a transaction takes from elsewhere: the decimal places of currencies,
      the answer of the authority check, and whether the step-up proof is valid. */
  datatype Env = Env(places: map<Currency, nat>, authorized: bool, proof: bool)

  datatype Error = VALIDATION | RESOURCE_HIDDEN | SCOPE_DENIED | STATE_CONFLICT | STALE_VERSION
    | IDEMPOTENCY_CONFLICT | STEP_UP_REQUIRED | CUSTODY_CONFLICT | APPROVAL_REQUIRED
    | VALID_APPROVAL_MISSING | DAY_ALREADY_CLOSED

  datatype Outcome = Done(id: nat) | Refused(error: Error)

  // ---- books ----

  /** What a movement adds to the book of a cashbox up to a date. */
  function BookShare(box: nat, currency: Currency, date: int): Movement -> int {
    (m: Movement) =>
      if m.endpoint == CASHBOX(box) && m.currency == currency && m.date <= date then SignedAmount(m) else 0
  }

  function Book(movements: seq<Movement>, box: nat, currency: Currency, date: int): int {
    SumBy(movements, BookShare(box, currency, date))
  }

  // ---- days ----

  /** The row with the highest cycle. */
  function Latest(days: seq<Day>, box: nat, date: int): (r: Option<nat>)
    ensures r.Some? ==> r.value < |days| && days[r.value].box == box && days[r.value].date == date
  {
    if |days| == 0 then None
    else
      var n := |days| - 1;
      var best := Latest(days[..n], box, date);
      if days[n].box == box && days[n].date == date && (best.None? || days[best.value].cycle < days[n].cycle) then
        Some(n)
      else best
  }

  /** The day row a close approval is bound to: a reopened one, or none. */
  function Source(days: seq<Day>, latest: Option<nat>): (r: (Option<nat>, nat))
    requires latest.Some? ==> latest.value < |days|
  {
    if latest.Some? && days[latest.value].state == REOPENED then (latest, days[latest.value].version) else (None, 0)
  }

  function CycleOf(days: seq<Day>, latest: Option<nat>): nat
    requires latest.Some? ==> latest.value < |days|
  {
    if latest.Some? then days[latest.value].cycle else 1
  }

  // ---- counts ----

  function NormalizedReason(reason: Option<string>): Option<string> {
    if reason.Some? && |reason.value| > 0 then Some(TrimEnd(TrimStart(reason.value))) else None
  }

  predicate DistinctCurrencies(counts: seq<Submitted>) {
    forall j, k :: 0 <= j < k < |counts| ==> counts[j].currency != counts[k].currency
  }

  function NormalizedCounts(counts: seq<Submitted>): map<Currency, Entry> {
    if |counts| == 0 then map[]
    else
      var last := counts[|counts| - 1];
      NormalizedCounts(counts[..|counts| - 1])[last.currency := Entry(last.amount, NormalizedReason(last.reason))]
  }

  function NormalizeClose(counts: seq<Submitted>, observed: seq<nat>): CloseBody {
    CloseBody(NormalizedCounts(counts), multiset(observed))
  }

  /** No submitted amount has more fraction digits than its currency. */
  predicate Precise(places: map<Currency, nat>, counts: seq<Submitted>) {
    forall k :: 0 <= k < |counts| ==> counts[k].currency in places && counts[k].digits <= places[counts[k].currency]
  }

  predicate CoversBox(body: CloseBody, currencies: seq<Currency>) {
    body.counts.Keys == set k | 0 <= k < |currencies| :: currencies[k]
  }

  predicate BooksPrecise(places: map<Currency, nat>, movements: seq<Movement>, box: nat, currencies: seq<Currency>,
      date: int) {
    forall k :: 0 <= k < |currencies| ==>
      && currencies[k] in places
      && |Decimals.AmountParts(Book(movements, box, currencies[k], date)).fraction| <= places[currencies[k]]
  }

  function CountFor(movements: seq<Movement>, box: nat, date: int, currency: Currency, entry: Entry): Count {
    var book := Book(movements, box, currency, date);
    Count(currency, book, entry.amount, entry.amount - book, entry.reason)
  }

  /** One count for every controlled currency, in their order. */
  function CountsOf(movements: seq<Movement>, box: nat, date: int, currencies: seq<Currency>,
      body: CloseBody): (r: seq<Count>)
    requires forall k :: 0 <= k < |currencies| ==> currencies[k] in body.counts
    ensures |r| == |currencies|
    ensures forall k :: 0 <= k < |currencies| ==>
              r[k] == CountFor(movements, box, date, currencies[k], body.counts[currencies[k]])
  {
    if |currencies| == 0 then []
    else
      var n := |currencies| - 1;
      CountsOf(movements, box, date, currencies[..n], body)
      + [CountFor(movements, box, date, currencies[n], body.counts[currencies[n]])]
  }

  predicate Explained(c: Count) {
    c.variance != 0 <==> c.reason.Some? && |c.reason.value| > 0
  }

  predicate AllExplained(counts: seq<Count>) {
    forall k :: 0 <= k < |counts| ==> Explained(counts[k])
  }

  predicate HasVariance(counts: seq<Count>) {
    exists k :: 0 <= k < |counts| && counts[k].variance != 0
  }

  predicate ObservedValid(box: Box, observed: seq<nat>) {
    && (forall j, k :: 0 <= j < k < |observed| ==> observed[j] != observed[k])
    && forall k :: 0 <= k < |observed| ==> observed[k] in box.instruments
  }

  function Books(counts: seq<Count>): seq<(Currency, int)> {
    if |counts| == 0 then []
    else Books(counts[..|counts| - 1]) + [(counts[|counts| - 1].currency, counts[|counts| - 1].book)]
  }

  function SnapshotOf(id: nat, box: Box, counts: seq<Count>): Snapshot {
    Snapshot(id, box.version, Books(counts), box.instruments)
  }

  /** The counts the submitted amounts give now, or the error they are refused with. */
  datatype Counted = Counts(counts: seq<Count>) | CountError(error: Error)

  function CountNow(s: State, id: nat, date: int, submitted: seq<Submitted>, body: CloseBody, env: Env,
      unexplained: Error): Counted
    requires id in s.boxes
  {
    var currencies := s.boxes[id].currencies;
    if !DistinctCurrencies(submitted) || !CoversBox(body, currencies) || !Precise(env.places, submitted)
       || !BooksPrecise(env.places, s.movements, id, currencies, date) then CountError(VALIDATION)
    else
      assert forall k :: 0 <= k < |currencies| ==> currencies[k] in body.counts.Keys;
      var counts := CountsOf(s.movements, id, date, currencies, body);
      if AllExplained(counts) then Counts(counts) else CountError(unexplained)
  }

  // ---- guards shared by the commands ----

  function BoxError(s: State, id: nat): Option<Error> {
    if id !in s.boxes || s.boxes[id].custodian.None? then Some(RESOURCE_HIDDEN)
    else if !s.boxes[id].active then Some(STATE_CONFLICT)
    else None
  }

  /** An approval that still stands for exactly this close. */
  predicate CloseApproved(s: State, c: CloseCommand, source: (Option<nat>, nat), snapshot: Snapshot) {
    && c.approval.Some? && c.approval.value < |s.actions| && s.actions[c.approval.value].approved
    && s.actions[c.approval.value].request < |s.requests|
    && var request := s.requests[s.actions[c.approval.value].request];
    && request.requestedBy == c.actor && request.kind == CLOSE && request.box == c.box && request.date == c.date
    && request.subject == CloseSubject(c.box, c.date, source.0, source.1, NormalizeClose(c.counts, c.observed))
    && request.source == source.0 && request.sourceVersion == source.1
    && request.snapshot == Some(snapshot)
  }

  /** What both transactions of a close check. */
  datatype Prepared = Prepared(latest: Option<nat>, counts: seq<Count>) | Unprepared(error: Error)

  function PrepareClose(s: State, c: CloseCommand, env: Env): Prepared {
    if BoxError(s, c.box).Some? then Unprepared(BoxError(s, c.box).value)
    else
      var box := s.boxes[c.box];
      var latest := Latest(s.days, c.box, c.date);
      if latest.Some? && s.days[latest.value].state == CLOSED then Unprepared(DAY_ALREADY_CLOSED)
      else if box.custodian != Some(c.actor) then Unprepared(CUSTODY_CONFLICT)
      else if !env.authorized then Unprepared(SCOPE_DENIED)
      else
        var counted := CountNow(s, c.box, c.date, c.counts, NormalizeClose(c.counts, c.observed), env,
          APPROVAL_REQUIRED);
        if counted.CountError? then Unprepared(counted.error)
        else if !ObservedValid(box, c.observed) then Unprepared(VALIDATION)
        else if HasVariance(counted.counts) then
          if c.approval.None? then Unprepared(APPROVAL_REQUIRED)
          else if !CloseApproved(s, c, Source(s.days, latest), SnapshotOf(c.box, box, counted.counts)) then
            Unprepared(VALID_APPROVAL_MISSING)
          else Prepared(latest, counted.counts)
        else if c.approval.Some? then Unprepared(VALIDATION)
        else Prepared(latest, counted.counts)
  }

  function DigestOf(c: CloseCommand): CloseDigest {
    CloseDigest(c.actor, c.box, c.date, NormalizeClose(c.counts, c.observed), c.approval)
  }

  // ---- requesting and deciding approvals ----

  const REASON_LIMIT: nat := 500

  /** A reason of one to 500 characters once trimmed. */
  function ReasonOf(text: string): (r: Option<string>)
    ensures r.Some? ==> 0 < |r.value| <= REASON_LIMIT
  {
    var t := Trimmed(Some(text));
    if t.Some? && |t.value| <= REASON_LIMIT then t else None
  }

  /** The unique index on requests; the digest of the subject stands for it. */
  predicate SameSubject(x: Request, y: Request) {
    && x.box == y.box && x.date == y.date && x.kind == y.kind
    && x.subject == y.subject && x.sourceVersion == y.sourceVersion
  }

  predicate RequestTaken(requests: seq<Request>, r: Request) {
    exists k :: 0 <= k < |requests| && SameSubject(requests[k], r)
  }

  function CloseRequestKey(c: CloseCommand): (Scope, nat) { (REQUEST_CLOSE(c.box, c.date), c.key) }

  function CloseRequestDigest(c: CloseCommand): ReplyDigest {
    OfCloseRequest(c.actor, c.box, c.date, NormalizeClose(c.counts, c.observed))
  }

  /** The subject of a close, as the rows of its date stand. */
  function SubjectNow(days: seq<Day>, c: CloseCommand): Subject {
    var source := Source(days, Latest(days, c.box, c.date));
    CloseSubject(c.box, c.date, source.0, source.1, NormalizeClose(c.counts, c.observed))
  }

  function CloseRequest(s: State, c: CloseCommand, counts: seq<Count>): Request
    requires c.box in s.boxes
  {
    var subject := SubjectNow(s.days, c);
    Request(c.box, c.date, CLOSE, subject, Some(SnapshotOf(c.box, s.boxes[c.box], counts)), subject.source,
      subject.version,
      c.actor, PENDING, 1)
  }

  function RequestCloseOutcome(s: State, c: CloseCommand, env: Env): Outcome {
    if !DistinctCurrencies(c.counts) || !Precise(env.places, c.counts) then Refused(VALIDATION)
    else if CloseRequestKey(c) in s.replies then
      var reply := s.replies[CloseRequestKey(c)];
      if reply.digest != CloseRequestDigest(c) then Refused(IDEMPOTENCY_CONFLICT) else Done(reply.id)
    else if BoxError(s, c.box).Some? then Refused(BoxError(s, c.box).value)
    else
      var box := s.boxes[c.box];
      var latest := Latest(s.days, c.box, c.date);
      if latest.Some? && s.days[latest.value].state == CLOSED then Refused(DAY_ALREADY_CLOSED)
      else if box.custodian != Some(c.actor) then Refused(CUSTODY_CONFLICT)
      else
        var counted := CountNow(s, c.box, c.date, c.counts, NormalizeClose(c.counts, c.observed), env, VALIDATION);
        if counted.CountError? then Refused(counted.error)
        else if !HasVariance(counted.counts) then Refused(VALIDATION)
        else if !ObservedValid(box, c.observed) then Refused(VALIDATION)
        else if !env.authorized then Refused(SCOPE_DENIED)
        else if RequestTaken(s.requests, CloseRequest(s, c, counted.counts)) then Refused(STATE_CONFLICT)
        else Done(|s.requests|)
  }

  /** A request is inserted, rather than answered again or refused. */
  predicate RequestsClose(s: State, c: CloseCommand, env: Env) {
    RequestCloseOutcome(s, c, env).Done? && CloseRequestKey(c) !in s.replies
  }

  function AfterRequestClose(s: State, c: CloseCommand, env: Env): State {
    if RequestsClose(s, c, env) then
      var counts := CountNow(s, c.box, c.date, c.counts, NormalizeClose(c.counts, c.observed), env, VALIDATION).counts;
      s.(requests := s.requests + [CloseRequest(s, c, counts)],
         replies := s.replies[CloseRequestKey(c) := Reply(CloseRequestDigest(c), |s.requests|)])
    else s
  }

  function ReopenRequestKey(r: ReopenRequest): (Scope, nat) { (REQUEST_REOPEN(r.box, r.date), r.key) }

  function ReopenRequestDigest(r: ReopenRequest): ReplyDigest {
    OfReopenRequest(r.actor, r.box, r.date, ReasonOf(r.reason))
  }

  function ReopeningRequest(days: seq<Day>, r: ReopenRequest, latest: nat): Request
    requires latest < |days| && ReasonOf(r.reason).Some?
  {
    var version := days[latest].version;
    Request(r.box, r.date, REOPEN, ReopenSubject(r.box, r.date, Some(latest), version, ReasonOf(r.reason).value),
      None, Some(latest), version, r.actor, PENDING, 1)
  }

  function RequestReopenOutcome(s: State, r: ReopenRequest, env: Env): Outcome {
    if ReasonOf(r.reason).None? then Refused(VALIDATION)
    else if ReopenRequestKey(r) in s.replies then
      var reply := s.replies[ReopenRequestKey(r)];
      if reply.digest != ReopenRequestDigest(r) then Refused(IDEMPOTENCY_CONFLICT) else Done(reply.id)
    else if BoxError(s, r.box).Some? then Refused(BoxError(s, r.box).value)
    else
      var latest := Latest(s.days, r.box, r.date);
      if latest.None? then Refused(RESOURCE_HIDDEN)
      else if s.days[latest.value].state != CLOSED then Refused(STATE_CONFLICT)
      else if !env.authorized then Refused(SCOPE_DENIED)
      else if RequestTaken(s.requests, ReopeningRequest(s.days, r, latest.value)) then Refused(STATE_CONFLICT)
      else Done(|s.requests|)
  }

  predicate RequestsReopen(s: State, r: ReopenRequest, env: Env) {
    RequestReopenOutcome(s, r, env).Done? && ReopenRequestKey(r) !in s.replies
  }

  function AfterRequestReopen(s: State, r: ReopenRequest, env: Env): State {
    if RequestsReopen(s, r, env) then
      s.(requests := s.requests + [ReopeningRequest(s.days, r, Latest(s.days, r.box, r.date).value)],
         replies := s.replies[ReopenRequestKey(r) := Reply(ReopenRequestDigest(r), |s.requests|)])
    else s
  }

  function DecisionKey(d: Decision): (Scope, nat) { (DECIDE(d.request), d.key) }

  function DecisionDigest(d: Decision): ReplyDigest {
    OfDecision(d.actor, d.request, d.expectedVersion, d.approve, Trimmed(d.reason))
  }

  function ActOutcome(s: State, d: Decision, env: Env): Outcome {
    if (!d.approve || d.reason.Some?) && Trimmed(d.reason).None? then Refused(VALIDATION)
    else if DecisionKey(d) in s.replies then
      var reply := s.replies[DecisionKey(d)];
      if reply.digest != DecisionDigest(d) then Refused(IDEMPOTENCY_CONFLICT) else Done(reply.id)
    else if d.request >= |s.requests| then Refused(RESOURCE_HIDDEN)
    else
      var request := s.requests[d.request];
      if request.version != d.expectedVersion then Refused(STALE_VERSION)
      else if request.state != PENDING then Refused(STATE_CONFLICT)
      else if request.requestedBy == d.actor then Refused(SCOPE_DENIED)
      else if !env.authorized then Refused(SCOPE_DENIED)
      else if !env.proof then Refused(STEP_UP_REQUIRED)
      else Done(|s.actions|)
  }

  predicate Decides(s: State, d: Decision, env: Env) {
    ActOutcome(s, d, env).Done? && DecisionKey(d) !in s.replies
  }

  function AfterAct(s: State, d: Decision, env: Env): State {
    if Decides(s, d, env) then
      var request := s.requests[d.request];
      s.(actions := s.actions + [Action(d.request, d.actor, d.approve)],
         requests := s.requests[d.request := request.(
           state := if d.approve then APPROVED else REJECTED, version := request.version + 1)],
         replies := s.replies[DecisionKey(d) := Reply(DecisionDigest(d), |s.actions|)])
    else s
  }

  // ---- closing, first transaction ----

  function FindReservation(reservations: seq<Reservation>, box: nat, date: int, key: nat): (r: Option<nat>)
    ensures r.Some? ==> r.value < |reservations| && reservations[r.value].box == box
                        && reservations[r.value].date == date && reservations[r.value].key == key
    ensures r.None? ==> forall k :: 0 <= k < |reservations| ==>
                          !(reservations[k].box == box && reservations[k].date == date && reservations[k].key == key)
  {
    if |reservations| == 0 then None
    else
      var n := |reservations| - 1;
      if reservations[n].box == box && reservations[n].date == date && reservations[n].key == key then Some(n)
      else FindReservation(reservations[..n], box, date, key)
  }

  datatype Reserved = Replied(day: nat) | Ticketed(ticket: Ticket) | NotReserved(error: Error)

  function CloseKey(c: CloseCommand): (Scope, nat) { (CLOSE_DAY(c.box, c.date), c.key) }

  function NewReservation(s: State, c: CloseCommand, env: Env): Reservation
    requires c.box in s.boxes
  {
    var box := s.boxes[c.box];
    Reservation(c.box, c.date, CycleOf(s.days, Latest(s.days, c.box, c.date)), box.branch, box.unit, s.nextNumber,
      c.key, DigestOf(c), RESERVED, None)
  }

  function ReserveOutcome(s: State, c: CloseCommand, env: Env): Reserved {
    if !DistinctCurrencies(c.counts) || !Precise(env.places, c.counts) then NotReserved(VALIDATION)
    else if CloseKey(c) in s.replies then
      var reply := s.replies[CloseKey(c)];
      if reply.digest != OfClose(DigestOf(c)) then NotReserved(IDEMPOTENCY_CONFLICT) else Replied(reply.id)
    else
      var existing := FindReservation(s.reservations, c.box, c.date, c.key);
      if existing.Some? then
        if s.reservations[existing.value].digest != DigestOf(c) then NotReserved(IDEMPOTENCY_CONFLICT)
        else Ticketed(Ticket(c, existing.value, s.reservations[existing.value]))
      else
        var prepared := PrepareClose(s, c, env);
        if prepared.Unprepared? then NotReserved(prepared.error)
        else Ticketed(Ticket(c, |s.reservations|, NewReservation(s, c, env)))
  }

  function AfterReserve(s: State, c: CloseCommand, env: Env): State {
    var outcome := ReserveOutcome(s, c, env);
    if !outcome.Ticketed? then s
    else
      var t := s.(tickets := s.tickets + [outcome.ticket]);
      if outcome.ticket.id < |s.reservations| then t
      else t.(reservations := s.reservations + [outcome.ticket.reservation], nextNumber := s.nextNumber + 1)
  }

  // ---- closing, second transaction ----

  function CommitOutcome(s: State, ticket: Ticket, env: Env): Outcome {
    var c, reservation := ticket.command, ticket.reservation;
    if CloseKey(c) in s.replies then
      var reply := s.replies[CloseKey(c)];
      if reply.digest != OfClose(DigestOf(c)) then Refused(IDEMPOTENCY_CONFLICT) else Done(reply.id)
    else
      var prepared := PrepareClose(s, c, env);
      if prepared.Unprepared? then Refused(prepared.error)
      else if reservation.state != RESERVED || reservation.box != c.box || reservation.date != c.date
              || reservation.cycle != CycleOf(s.days, prepared.latest)
              || reservation.branch != s.boxes[c.box].branch || reservation.unit != s.boxes[c.box].unit then
        Refused(STATE_CONFLICT)
      else if ticket.id >= |s.reservations| || s.reservations[ticket.id].state != RESERVED then Refused(STATE_CONFLICT)
      else Done(if prepared.latest.Some? then prepared.latest.value else |s.days|)
  }

  /** The row a close writes: a reopened row is updated in place and keeps its
      approval when the close has none, a first close inserts cycle 1. */
  function ClosedDay(days: seq<Day>, latest: Option<nat>, c: CloseCommand, number: nat, counts: seq<Count>): Day
    requires latest.Some? ==> latest.value < |days|
  {
    if latest.Some? then
      var row := days[latest.value];
      row.(number := Some(number), state := CLOSED, version := row.version + 1, closedBy := Some(c.actor),
           approval := if c.approval.Some? then c.approval else row.approval, counts := counts)
    else Day(c.box, c.date, 1, Some(number), CLOSED, 1, c.approval, None, Some(c.actor), counts)
  }

  function VarianceKey(currency: Currency): string { "CLOSE_VARIANCE:" + currency }

  function VarianceMovement(day: nat, c: CloseCommand, count: Count): Movement {
    Movement(CASHBOX_AND_CUSTODY, day, VarianceKey(count.currency), CASHBOX(c.box),
      if count.variance > 0 then CREDIT else DEBIT,
      if count.variance < 0 then -count.variance else count.variance, count.currency, c.date, None, POSTED)
  }

  function VarianceMovements(day: nat, c: CloseCommand, counts: seq<Count>): seq<Movement> {
    if |counts| == 0 then []
    else
      var n := |counts| - 1;
      var before := VarianceMovements(day, c, counts[..n]);
      if counts[n].variance != 0 then before + [VarianceMovement(day, c, counts[n])] else before
  }

  /** Everything the second transaction writes. */
  function CommittedTables(s: State, ticket: Ticket, latest: Option<nat>, counts: seq<Count>): State
    requires ticket.id < |s.reservations| && (latest.Some? ==> latest.value < |s.days|)
  {
    var c := ticket.command;
    var day := if latest.Some? then latest.value else |s.days|;
    var row := ClosedDay(s.days, latest, c, ticket.reservation.number, counts);
    s.(days := if latest.Some? then s.days[day := row] else s.days + [row],
       reservations := s.reservations[ticket.id := s.reservations[ticket.id].(state := CONSUMED, day := Some(day))],
       movements := s.movements + VarianceMovements(day, c, counts),
       replies := s.replies[CloseKey(c) := Reply(OfClose(DigestOf(c)), day)])
  }

  /** The second transaction closes a day, rather than replying or failing. */
  predicate Commits(s: State, ticket: Ticket, env: Env) {
    CommitOutcome(s, ticket, env).Done? && CloseKey(ticket.command) !in s.replies
  }

  function AfterCommit(s: State, ticket: Ticket, env: Env): State {
    if Commits(s, ticket, env) then
      var prepared := PrepareClose(s, ticket.command, env);
      CommittedTables(s, ticket, prepared.latest, prepared.counts)
    else s
  }

  // ---- reopening ----

  function ReopenKey(c: ReopenCommand): (Scope, nat) { (REOPEN_DAY(c.box, c.date), c.key) }

  predicate ReopenApproved(s: State, c: ReopenCommand, latest: nat)
    requires latest < |s.days|
  {
    && c.approval < |s.actions| && s.actions[c.approval].approved
    && s.actions[c.approval].request < |s.requests|
    && var request := s.requests[s.actions[c.approval].request];
    && request.requestedBy == c.actor && request.kind == REOPEN && request.box == c.box && request.date == c.date
    && ReasonOf(c.reason).Some?
    && request.subject == ReopenSubject(c.box, c.date, Some(latest), s.days[latest].version, ReasonOf(c.reason).value)
    && request.source == Some(latest) && request.sourceVersion == c.expectedVersion
  }

  function ReopenOutcome(s: State, c: ReopenCommand, env: Env): Outcome {
    if ReasonOf(c.reason).None? then Refused(VALIDATION)
    else if ReopenKey(c) in s.replies then
      var reply := s.replies[ReopenKey(c)];
      if reply.digest != OfReopen(c) then Refused(IDEMPOTENCY_CONFLICT) else Done(reply.id)
    else if BoxError(s, c.box).Some? then Refused(BoxError(s, c.box).value)
    else
      var latest := Latest(s.days, c.box, c.date);
      if latest.None? then Refused(RESOURCE_HIDDEN)
      else if s.days[latest.value].version != c.expectedVersion then Refused(STALE_VERSION)
      else if s.days[latest.value].state != CLOSED then Refused(STATE_CONFLICT)
      else if !env.authorized then Refused(SCOPE_DENIED)
      else if !ReopenApproved(s, c, latest.value) then Refused(VALID_APPROVAL_MISSING)
      else if !env.proof then Refused(STEP_UP_REQUIRED)
      else Done(|s.days|)
  }

  predicate Reopens(s: State, c: ReopenCommand, env: Env) {
    ReopenOutcome(s, c, env).Done? && ReopenKey(c) !in s.replies
  }

  function ReopenedDay(days: seq<Day>, latest: nat, c: ReopenCommand): Day
    requires latest < |days|
  {
    Day(c.box, c.date, days[latest].cycle + 1, None, REOPENED, 1, Some(c.approval), Some(latest), None, [])
  }

  function AfterReopen(s: State, c: ReopenCommand, env: Env): State {
    if Reopens(s, c, env) then
      s.(days := s.days + [ReopenedDay(s.days, Latest(s.days, c.box, c.date).value, c)],
         replies := s.replies[ReopenKey(c) := Reply(OfReopen(c), |s.days|)])
    else s
  }

  // ---- runs ----

  /** One transaction, in any interleaving; movements of other domains and
      changes of master data may happen in between. */
  datatype Step =
    | RequestClose(close: CloseCommand, env: Env)
    | RequestReopen(request: ReopenRequest, env: Env)
    | Act(decision: Decision, env: Env)
    | Reserve(close: CloseCommand, env: Env)
    | Commit(ticket: nat, env: Env)
    | Reopen(reopen: ReopenCommand, env: Env)
    | Record(movement: Movement)
    | Administer(id: nat, row: Box)

  predicate DistinctList(currencies: seq<Currency>) {
    forall j, k :: 0 <= j < k < |currencies| ==> currencies[j] != currencies[k]
  }

  function Next(s: State, step: Step): State {
    match step
    case RequestClose(c, env) => AfterRequestClose(s, c, env)
    case RequestReopen(r, env) => AfterRequestReopen(s, r, env)
    case Act(d, env) => AfterAct(s, d, env)
    case Reserve(c, env) => AfterReserve(s, c, env)
    case Commit(t, env) => if t < |s.tickets| then AfterCommit(s, s.tickets[t], env) else s
    case Reopen(c, env) => AfterReopen(s, c, env)
    case Record(m) => s.(movements := s.movements + [m])
    case Administer(id, row) => if DistinctList(row.currencies) then s.(boxes := s.boxes[id := row]) else s
  }

  function Run(s: State, steps: seq<Step>): State {
    if |steps| == 0 then s else Next(Run(s, steps[..|steps| - 1]), steps[|steps| - 1])
  }

  const EMPTY := State(map[], [], [], [], [], [], map[], 1, [])
}
