/** Exactly when a close, a reopening, a request or a decision goes through, on the
    fields of the command and of the rows. */
module CashboxAcceptance {
  import opened Common
  import opened Foundation
  import opened Cashbox
  import opened CashboxDays
  import opened CashboxInvariant
  import opened CashboxSteps
  import opened CashboxTheorems
  import Decimals

  // ---- counting ----

  lemma {:induction false} NormalizedEntry(counts: seq<Submitted>, k: nat)
    requires DistinctCurrencies(counts) && k < |counts|
    ensures counts[k].currency in NormalizedCounts(counts)
    ensures NormalizedCounts(counts)[counts[k].currency] == Entry(counts[k].amount, NormalizedReason(counts[k].reason))
  {
    if k < |counts| - 1 {
      NormalizedEntry(counts[..|counts| - 1], k);
    }
  }

  lemma {:induction false} NormalizedKeys(counts: seq<Submitted>, currency: Currency)
    ensures currency in NormalizedCounts(counts) <==> exists k :: 0 <= k < |counts| && counts[k].currency == currency
  {
    if counts != [] {
      var n := |counts| - 1;
      NormalizedKeys(counts[..n], currency);
      assert counts[n] in counts;
      if k :| 0 <= k < |counts| && counts[k].currency == currency && k < n {
        assert counts[..n][k] == counts[k];
      }
    }
  }

  predicate Submits(counts: seq<Submitted>, currency: Currency) {
    exists k :: 0 <= k < |counts| && counts[k].currency == currency
  }

  /** Every listed currency is counted, and no other one. */
  predicate Covered(counts: seq<Submitted>, currencies: seq<Currency>) {
    && (forall i :: 0 <= i < |currencies| ==> Submits(counts, currencies[i]))
    && forall k :: 0 <= k < |counts| ==> counts[k].currency in currencies
  }

  lemma CoversIff(counts: seq<Submitted>, observed: seq<nat>, currencies: seq<Currency>)
    ensures CoversBox(NormalizeClose(counts, observed), currencies) <==> Covered(counts, currencies)
  {
    var keys := NormalizeClose(counts, observed).counts.Keys;
    forall currency: Currency
      ensures currency in keys <==> Submits(counts, currency)
    {
      NormalizedKeys(counts, currency);
    }
    var listed := set k | 0 <= k < |currencies| :: currencies[k];
    assert forall k :: 0 <= k < |counts| ==> Submits(counts, counts[k].currency);
    hide NormalizedCounts;
    if keys == listed {
      forall i | 0 <= i < |currencies|
        ensures Submits(counts, currencies[i])
      {
        assert currencies[i] in listed;
      }
      forall k | 0 <= k < |counts|
        ensures counts[k].currency in currencies
      {
        assert counts[k].currency in keys;
      }
    }
    if Covered(counts, currencies) {
      forall currency: Currency
        ensures currency in keys <==> currency in listed
      {
      }
    }
  }

  /** What a submitted amount differs from the book by. */
  function VarianceOf(s: State, c: CloseCommand, k: nat): int
    requires k < |c.counts|
  {
    c.counts[k].amount - Book(s.movements, c.box, c.counts[k].currency, c.date)
  }

  /** The book shows no more fraction digits than its currency has. */
  predicate CountPrecise(s: State, c: CloseCommand, env: Env, currency: Currency) {
    && currency in env.places
    && |Decimals.AmountParts(Book(s.movements, c.box, currency, c.date)).fraction| <= env.places[currency]
  }

  /** A reason with text goes with a difference, and only with one. */
  predicate CountExplained(s: State, c: CloseCommand, k: nat)
    requires k < |c.counts|
  {
    VarianceOf(s, c, k) != 0 <==> HasText(c.counts[k].reason)
  }

  /** Every controlled currency is counted once and no other one, no count or book has
      more fraction digits than its currency, and exactly the counts that differ from
      the book have a reason. */
  predicate CountsFit(s: State, c: CloseCommand, env: Env)
    requires c.box in s.boxes
  {
    && (forall j, k :: 0 <= j < k < |c.counts| ==> c.counts[j].currency != c.counts[k].currency)
    && Covered(c.counts, s.boxes[c.box].currencies)
    && forall k :: 0 <= k < |c.counts| ==>
         && CountPrecise(s, c, env, c.counts[k].currency) && c.counts[k].digits <= env.places[c.counts[k].currency]
         && CountExplained(s, c, k)
  }

  predicate SomeVariance(s: State, c: CloseCommand) {
    exists k :: 0 <= k < |c.counts| && VarianceOf(s, c, k) != 0
  }

  lemma ReasonIff(reason: Option<string>)
    ensures (NormalizedReason(reason).Some? && |NormalizedReason(reason).value| > 0) <==> HasText(reason)
    ensures NormalizedReason(reason).None? <==> reason.None? || reason.value == ""
    ensures HasText(reason) ==> NormalizedReason(reason) == Trimmed(reason)
  {
    TrimmedIff(reason);
  }

  /** One submitted count against the count it becomes. */
  lemma CountOfSubmitted(s: State, c: CloseCommand, j: nat, k: nat)
    requires DistinctCurrencies(c.counts) && c.box in s.boxes
    requires forall i :: 0 <= i < |s.boxes[c.box].currencies| ==>
               s.boxes[c.box].currencies[i] in NormalizeClose(c.counts, c.observed).counts
    requires j < |s.boxes[c.box].currencies| && k < |c.counts| && s.boxes[c.box].currencies[j] == c.counts[k].currency
    ensures var count := CountsOf(s.movements, c.box, c.date, s.boxes[c.box].currencies,
                           NormalizeClose(c.counts, c.observed))[j];
            count.variance == VarianceOf(s, c, k) && (Explained(count) <==>
              (VarianceOf(s, c, k) != 0 <==> HasText(c.counts[k].reason)))
  {
    NormalizedEntry(c.counts, k);
    ReasonIff(c.counts[k].reason);
    hide NormalizedReason, HasText, Book, NormalizedCounts;
  }

  /** The controlled currencies and the counted ones are the same: what holds of all
      of the one holds of all of the others. */
  lemma BooksPreciseIff(s: State, c: CloseCommand, env: Env)
    requires c.box in s.boxes && Covered(c.counts, s.boxes[c.box].currencies)
    ensures BooksPrecise(env.places, s.movements, c.box, s.boxes[c.box].currencies, c.date)
       <==> forall k :: 0 <= k < |c.counts| ==> CountPrecise(s, c, env, c.counts[k].currency)
  {
    hide Book, Decimals.AmountParts;
    var currencies := s.boxes[c.box].currencies;
    forall i | 0 <= i < |currencies|
      ensures exists k :: 0 <= k < |c.counts| && c.counts[k].currency == currencies[i]
    {
      assert Submits(c.counts, currencies[i]);
    }
    assert BooksPrecise(env.places, s.movements, c.box, currencies, c.date)
      <==> forall i :: 0 <= i < |currencies| ==> CountPrecise(s, c, env, currencies[i]);
    hide CountPrecise;
  }

  predicate StandsFor(s: State, c: CloseCommand, count: Count, k: nat) {
    && k < |c.counts| && count.variance == VarianceOf(s, c, k)
    && (Explained(count) <==> CountExplained(s, c, k))
  }

  predicate WasSubmitted(s: State, c: CloseCommand, count: Count) {
    exists k :: 0 <= k < |c.counts| && StandsFor(s, c, count, k)
  }

  predicate IsCounted(s: State, c: CloseCommand, counts: seq<Count>, k: nat) {
    exists j :: 0 <= j < |counts| && StandsFor(s, c, counts[j], k)
  }

  /** The counts of the controlled currencies stand for the submitted ones. */
  predicate Stands(s: State, c: CloseCommand, counts: seq<Count>) {
    && (forall j :: 0 <= j < |counts| ==> WasSubmitted(s, c, counts[j]))
    && forall k :: 0 <= k < |c.counts| ==> IsCounted(s, c, counts, k)
  }

  lemma ListedIsSubmitted(s: State, c: CloseCommand, j: nat)
    requires Countable(s, c) && j < |s.boxes[c.box].currencies|
    ensures WasSubmitted(s, c, CountsHere(s, c)[j])
  {
    assert Submits(c.counts, s.boxes[c.box].currencies[j]);
    var k :| 0 <= k < |c.counts| && c.counts[k].currency == s.boxes[c.box].currencies[j];
    CountOfSubmitted(s, c, j, k);
    assert StandsFor(s, c, CountsHere(s, c)[j], k);
  }

  lemma SubmittedIsListed(s: State, c: CloseCommand, k: nat)
    requires Countable(s, c) && k < |c.counts|
    ensures IsCounted(s, c, CountsHere(s, c), k)
  {
    var j :| 0 <= j < |s.boxes[c.box].currencies| && s.boxes[c.box].currencies[j] == c.counts[k].currency;
    CountOfSubmitted(s, c, j, k);
    assert StandsFor(s, c, CountsHere(s, c)[j], k);
  }

  /** The controlled currencies are counted, each once, and no other. */
  predicate Countable(s: State, c: CloseCommand) {
    && c.box in s.boxes && DistinctCurrencies(c.counts) && Covered(c.counts, s.boxes[c.box].currencies)
    && forall i :: 0 <= i < |s.boxes[c.box].currencies| ==>
         s.boxes[c.box].currencies[i] in NormalizeClose(c.counts, c.observed).counts
  }

  function CountsHere(s: State, c: CloseCommand): (r: seq<Count>)
    requires Countable(s, c)
    ensures |r| == |s.boxes[c.box].currencies|
  {
    CountsOf(s.movements, c.box, c.date, s.boxes[c.box].currencies, NormalizeClose(c.counts, c.observed))
  }

  lemma CountsStand(s: State, c: CloseCommand)
    requires Countable(s, c)
    ensures Stands(s, c, CountsHere(s, c))
  {
    var counts := CountsHere(s, c);
    forall j | 0 <= j < |counts|
      ensures WasSubmitted(s, c, counts[j])
    {
      ListedIsSubmitted(s, c, j);
    }
    forall k | 0 <= k < |c.counts|
      ensures IsCounted(s, c, counts, k)
    {
      SubmittedIsListed(s, c, k);
    }
    hide WasSubmitted, IsCounted, CountsHere, Countable;
  }

  lemma StandingCounts(s: State, c: CloseCommand, counts: seq<Count>)
    requires Stands(s, c, counts)
    ensures AllExplained(counts) <==> forall k :: 0 <= k < |c.counts| ==> CountExplained(s, c, k)
    ensures HasVariance(counts) <==> SomeVariance(s, c)
  {
    hide Explained, VarianceOf, HasText, CountExplained;
    if AllExplained(counts) {
      forall k | 0 <= k < |c.counts|
        ensures CountExplained(s, c, k)
      {
        assert IsCounted(s, c, counts, k);
      }
    }
    if forall k :: 0 <= k < |c.counts| ==> CountExplained(s, c, k) {
      forall j | 0 <= j < |counts|
        ensures Explained(counts[j])
      {
        assert WasSubmitted(s, c, counts[j]);
      }
    }
    if j :| 0 <= j < |counts| && counts[j].variance != 0 {
      assert WasSubmitted(s, c, counts[j]);
    }
    if k :| 0 <= k < |c.counts| && VarianceOf(s, c, k) != 0 {
      assert IsCounted(s, c, counts, k);
      var j :| 0 <= j < |counts| && StandsFor(s, c, counts[j], k);
      assert counts[j].variance != 0;
    }
  }

  /** What was submitted gives counts exactly when it fits the cashbox and its books. */
  lemma CountedIff(s: State, c: CloseCommand, env: Env, e: Error)
    requires c.box in s.boxes
    ensures var counted := CountNow(s, c.box, c.date, c.counts, NormalizeClose(c.counts, c.observed), env, e);
            && (counted.Counts? <==> CountsFit(s, c, env))
            && (counted.Counts? ==> (HasVariance(counted.counts) <==> SomeVariance(s, c)))
  {
    var currencies := s.boxes[c.box].currencies;
    CoversIff(c.counts, c.observed, currencies);
    if Covered(c.counts, currencies) {
      var body := NormalizeClose(c.counts, c.observed);
      assert forall k :: 0 <= k < |currencies| ==> currencies[k] in body.counts.Keys;
      BooksPreciseIff(s, c, env);
      if DistinctCurrencies(c.counts) {
        CountsStand(s, c);
        StandingCounts(s, c, CountsHere(s, c));
      }
      CountsFitIff(s, c, env);
    }
    hide Covered, CountsOf, BooksPrecise, AllExplained, HasVariance, SomeVariance, NormalizeClose, CoversBox,
      CountPrecise, CountExplained, Stands;
  }

  lemma CountsFitIff(s: State, c: CloseCommand, env: Env)
    requires c.box in s.boxes
    ensures CountsFit(s, c, env) <==>
            && DistinctCurrencies(c.counts) && Covered(c.counts, s.boxes[c.box].currencies)
            && Precise(env.places, c.counts)
            && (forall k :: 0 <= k < |c.counts| ==> CountPrecise(s, c, env, c.counts[k].currency))
            && forall k :: 0 <= k < |c.counts| ==> CountExplained(s, c, k)
  {
    hide Covered, Book, Decimals.AmountParts, CountExplained;
  }

  // ---- closing ----

  /** The approval a close with a variance names: to close, given to the closer for
      exactly this date, latest row, counts and instruments, while the cashbox and its
      books were as they are now. */
  predicate Approval(s: State, c: CloseCommand, latest: Option<nat>, a: nat, snapshot: Snapshot)
    requires latest.Some? ==> latest.value < |s.days|
  {
    && a < |s.actions| && s.actions[a].approved && s.actions[a].request < |s.requests|
    && var r := s.requests[s.actions[a].request];
    && r.kind == CLOSE && r.requestedBy == c.actor && r.box == c.box && r.date == c.date && r.snapshot == Some(snapshot)
    && r.source == latest && r.sourceVersion == (if latest.Some? then s.days[latest.value].version else 0)
    && r.subject == CloseSubject(c.box, c.date, latest, r.sourceVersion, NormalizeClose(c.counts, c.observed))
  }

  lemma ApprovalIff(s: State, c: CloseCommand, latest: Option<nat>, snapshot: Snapshot)
    requires latest.Some? ==> latest.value < |s.days| && s.days[latest.value].state == REOPENED
    ensures CloseApproved(s, c, Source(s.days, latest), snapshot) <==>
              c.approval.Some? && Approval(s, c, latest, c.approval.value, snapshot)
  {
    hide NormalizeClose;
  }

  /** A close is prepared exactly when the cashbox is active and the actor its
      custodian with authority, the latest row of the date is not closed, the counts
      fit, the observed instruments are distinct and held, and an approval is named
      and stands if something differs, and none is named otherwise. */
  lemma PreparedIff(s: State, c: CloseCommand, env: Env)
    ensures PrepareClose(s, c, env).Prepared? <==>
            && c.box in s.boxes && s.boxes[c.box].active && s.boxes[c.box].custodian == Some(c.actor) && env.authorized
            && var latest := Latest(s.days, c.box, c.date);
            && (latest.Some? ==> s.days[latest.value].state == REOPENED)
            && CountsFit(s, c, env)
            && (forall j, k :: 0 <= j < k < |c.observed| ==> c.observed[j] != c.observed[k])
            && (forall k :: 0 <= k < |c.observed| ==> c.observed[k] in s.boxes[c.box].instruments)
            && var counted := CountNow(s, c.box, c.date, c.counts, NormalizeClose(c.counts, c.observed), env,
               VALIDATION);
            && counted.Counts?
            && if SomeVariance(s, c) then
                 && c.approval.Some?
                 && Approval(s, c, latest, c.approval.value, SnapshotOf(c.box, s.boxes[c.box], counted.counts))
               else c.approval.None?
  {
    if c.box in s.boxes {
      CountedIff(s, c, env, APPROVAL_REQUIRED);
      CountedIff(s, c, env, VALIDATION);
      SameCountsEitherWay(s, c, env);
      var latest := Latest(s.days, c.box, c.date);
      var counted := CountNow(s, c.box, c.date, c.counts, NormalizeClose(c.counts, c.observed), env, VALIDATION);
      if counted.Counts? && (latest.Some? ==> s.days[latest.value].state == REOPENED) {
        ApprovalIff(s, c, latest, SnapshotOf(c.box, s.boxes[c.box], counted.counts));
      }
    }
    hide CountNow, NormalizeClose, HasVariance, SomeVariance, CountsFit, SnapshotOf, CloseApproved, Source, Latest,
      Approval;
  }

  /** The command asks for the counts with another error code, but the same ones. */
  lemma SameCountsEitherWay(s: State, c: CloseCommand, env: Env)
    requires c.box in s.boxes
    ensures var x := CountNow(s, c.box, c.date, c.counts, NormalizeClose(c.counts, c.observed), env, APPROVAL_REQUIRED);
            var y := CountNow(s, c.box, c.date, c.counts, NormalizeClose(c.counts, c.observed), env, VALIDATION);
            x.Counts? == y.Counts? && (x.Counts? ==> x == y)
  {
    hide DistinctCurrencies, CoversBox, Precise, BooksPrecise, AllExplained, CountsOf, NormalizeClose;
  }

  /** What the snapshot of a request holds: the cashbox, its version and instruments,
      and the book of every controlled currency in their order. */
  lemma {:induction false} BooksAt(counts: seq<Count>, k: nat)
    requires k < |counts|
    ensures |Books(counts)| == |counts| && Books(counts)[k] == (counts[k].currency, counts[k].book)
  {
    if k < |counts| - 1 {
      BooksAt(counts[..|counts| - 1], k);
    } else if k > 0 {
      BooksAt(counts[..k], 0);
    } else {
      assert counts[..0] == [];
    }
  }

  /** A committed close has been prepared under an unanswered key, with a reservation
      of its cycle, branch and unit that is still reserved. */
  lemma CommitsIff(s: State, ticket: Ticket, env: Env)
    requires Invariant(s) && TicketOk(ticket, s.reservations)
    ensures Commits(s, ticket, env) <==>
            && CloseKey(ticket.command) !in s.replies && PrepareClose(s, ticket.command, env).Prepared?
            && ticket.reservation.state == RESERVED
            && ticket.reservation.cycle == CycleOf(s.days, Latest(s.days, ticket.command.box, ticket.command.date))
            && ticket.reservation.branch == s.boxes[ticket.command.box].branch
            && ticket.reservation.unit == s.boxes[ticket.command.box].unit
  {
    if CloseKey(ticket.command) !in s.replies {
      ReservationStillReserved(s, ticket);
    }
    PreparedShape(s, ticket.command, env);
    hide Invariant, PrepareClose, Latest, DigestOf;
  }

  lemma PreparedShape(s: State, c: CloseCommand, env: Env)
    ensures PrepareClose(s, c, env).Prepared? ==>
              c.box in s.boxes && PrepareClose(s, c, env).latest == Latest(s.days, c.box, c.date)
  {
    hide CountNow, NormalizeClose, HasVariance, ObservedValid, CloseApproved, SnapshotOf, Source;
  }

  // ---- requests, decisions, reopenings ----

  /** A close is requested exactly under a new key by the custodian with authority, for
      an active cashbox whose latest row is not closed, with counts that fit, some of
      which differ, instruments distinct and held, and a subject nobody has requested. */
  lemma CloseRequestableIff(s: State, c: CloseCommand, env: Env)
    requires Invariant(s)
    ensures RequestsClose(s, c, env) <==>
            && CloseRequestKey(c) !in s.replies
            && c.box in s.boxes && s.boxes[c.box].active && s.boxes[c.box].custodian == Some(c.actor) && env.authorized
            && var latest := Latest(s.days, c.box, c.date);
            && (latest.Some? ==> s.days[latest.value].state == REOPENED)
            && CountsFit(s, c, env) && SomeVariance(s, c)
            && (forall j, k :: 0 <= j < k < |c.observed| ==> c.observed[j] != c.observed[k])
            && (forall k :: 0 <= k < |c.observed| ==> c.observed[k] in s.boxes[c.box].instruments)
            && forall k :: 0 <= k < |s.requests| ==> s.requests[k].subject != SubjectNow(s.days, c)
  {
    hide Invariant, CountNow, NormalizeClose, HasVariance, SomeVariance, CountsFit, SubjectNow, CloseRequest,
      RequestTaken, Latest, DistinctCurrencies, Precise, Covered, CountPrecise, CountExplained, RequestsClose;
    CloseRequestGuards(s, c, env);
    if c.box in s.boxes {
      CountedIff(s, c, env, VALIDATION);
      CountsFitIff(s, c, env);
      var counted := CountNow(s, c.box, c.date, c.counts, NormalizeClose(c.counts, c.observed), env, VALIDATION);
      if counted.Counts? {
        SubjectTaken(s, c, counted.counts);
      }
    }
  }

  lemma CloseRequestGuards(s: State, c: CloseCommand, env: Env)
    ensures RequestsClose(s, c, env) <==>
            && DistinctCurrencies(c.counts) && Precise(env.places, c.counts) && CloseRequestKey(c) !in s.replies
            && c.box in s.boxes && s.boxes[c.box].active && s.boxes[c.box].custodian == Some(c.actor) && env.authorized
            && var latest := Latest(s.days, c.box, c.date);
            && (latest.Some? ==> s.days[latest.value].state == REOPENED)
            && var counted := CountNow(s, c.box, c.date, c.counts, NormalizeClose(c.counts, c.observed), env,
               VALIDATION);
            && counted.Counts? && HasVariance(counted.counts) && ObservedValid(s.boxes[c.box], c.observed)
            && !RequestTaken(s.requests, CloseRequest(s, c, counted.counts))
  {
    hide CountNow, NormalizeClose, HasVariance, CloseRequest, RequestTaken, Latest, DistinctCurrencies, Precise,
      ObservedValid, CloseRequestDigest;
  }

  lemma SubjectTaken(s: State, c: CloseCommand, counts: seq<Count>)
    requires Invariant(s) && c.box in s.boxes
    ensures RequestTaken(s.requests, CloseRequest(s, c, counts)) <==>
            exists k :: 0 <= k < |s.requests| && s.requests[k].subject == SubjectNow(s.days, c)
  {
    var r := CloseRequest(s, c, counts);
    forall k | 0 <= k < |s.requests|
      ensures SameSubject(s.requests[k], r) <==> s.requests[k].subject == SubjectNow(s.days, c)
    {
      assert RequestOk(s.requests[k], s.days);
    }
    hide SubjectNow, SnapshotOf, Invariant;
  }

  /** A reopening is requested exactly under a new key, with a reason of at most 500
      characters, for the latest row if it is closed, once per version and reason. */
  lemma ReopenRequestableIff(s: State, r: ReopenRequest, env: Env)
    requires Invariant(s)
    ensures RequestsReopen(s, r, env) <==>
            && ReopenRequestKey(r) !in s.replies && env.authorized
            && Trimmed(Some(r.reason)).Some? && |Trimmed(Some(r.reason)).value| <= 500
            && r.box in s.boxes && s.boxes[r.box].active && s.boxes[r.box].custodian.Some?
            && var latest := Latest(s.days, r.box, r.date);
            && latest.Some? && s.days[latest.value].state == CLOSED
            && forall k :: 0 <= k < |s.requests| ==>
                 s.requests[k].subject !=
                   ReopenSubject(r.box, r.date, latest, s.days[latest.value].version, Trimmed(Some(r.reason)).value)
  {
    forall k | 0 <= k < |s.requests|
      ensures RequestOk(s.requests[k], s.days)
    {
    }
    hide Trimmed, Latest, Invariant;
  }

  /** A request is decided exactly under a new key, by an authorized other user with a
      step-up proof, while it is pending and at the version named; a rejection gives a
      reason with text, and so does an approval that gives one. Then it is approved or
      rejected, at version 2, with the action of that user. */
  lemma DecidableIff(s: State, d: Decision, env: Env)
    requires Invariant(s)
    ensures Decides(s, d, env) <==>
            && DecisionKey(d) !in s.replies && env.authorized && env.proof
            && (if d.approve then d.reason.Some? ==> HasText(d.reason) else HasText(d.reason))
            && d.request < |s.requests| && s.requests[d.request].state == PENDING && d.expectedVersion == 1
            && d.actor != s.requests[d.request].requestedBy
    ensures Decides(s, d, env) ==>
              var t := AfterAct(s, d, env);
              && t.actions == s.actions + [Action(d.request, d.actor, d.approve)]
              && |t.requests| == |s.requests|
              && t.requests[d.request].state == (if d.approve then APPROVED else REJECTED)
              && forall k :: 0 <= k < |s.requests| && k != d.request ==> t.requests[k] == s.requests[k]
  {
    TrimmedIff(d.reason);
    assert d.request < |s.requests| ==> RequestOk(s.requests[d.request], s.days);
    hide Trimmed, HasText, Invariant;
  }

  /** A closed day is reopened exactly under a new key, by an authorized user with a
      step-up proof, on an approval to reopen this version of its latest row for the
      same reason, which he asked for. */
  lemma ReopenableIff(s: State, c: ReopenCommand, env: Env)
    ensures Reopens(s, c, env) <==>
            && ReopenKey(c) !in s.replies && env.authorized && env.proof
            && Trimmed(Some(c.reason)).Some? && |Trimmed(Some(c.reason)).value| <= 500
            && c.box in s.boxes && s.boxes[c.box].active && s.boxes[c.box].custodian.Some?
            && var latest := Latest(s.days, c.box, c.date);
            && latest.Some? && s.days[latest.value].state == CLOSED
            && s.days[latest.value].version == c.expectedVersion
            && c.approval < |s.actions| && s.actions[c.approval].approved
            && s.actions[c.approval].request < |s.requests|
            && var r := s.requests[s.actions[c.approval].request];
            && r.kind == REOPEN && r.requestedBy == c.actor && r.box == c.box && r.date == c.date
            && r.source == latest && r.sourceVersion == c.expectedVersion
            && r.subject == ReopenSubject(c.box, c.date, latest, c.expectedVersion, Trimmed(Some(c.reason)).value)
  {
    hide Trimmed, Latest;
  }
}
