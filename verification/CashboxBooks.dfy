/** What the book of a cashbox contains, and which movements a close does not see. */
module CashboxBooks {
  import opened Common
  import opened Foundation
  import opened Cashbox
  import Decimals
  import opened Sums

  /** The book starts at nothing. A movement of the cashbox in the currency, dated on
      or before the date, adds its amount if it is a credit and takes it off if it is a
      debit; any other movement changes nothing. */
  lemma BookAfter(movements: seq<Movement>, m: Movement, box: nat, currency: Currency, date: int)
    ensures Book([], box, currency, date) == 0
    ensures Book(movements + [m], box, currency, date) - Book(movements, box, currency, date) ==
              if m.endpoint == CASHBOX(box) && m.currency == currency && m.date <= date then
                if m.direction == CREDIT then m.amount else -m.amount
              else 0
  {
    SumPush(movements, m, BookShare(box, currency, date));
  }

  /** Movements of other endpoints or currencies, or of later days, leave the book. */
  lemma {:induction false} OthersLeaveBook(movements: seq<Movement>, more: seq<Movement>, box: nat, currency: Currency,
      date: int)
    requires forall k :: 0 <= k < |more| ==>
               more[k].endpoint != CASHBOX(box) || more[k].currency != currency || more[k].date > date
    ensures Book(movements + more, box, currency, date) == Book(movements, box, currency, date)
  {
    if more == [] {
      assert movements + more == movements;
    } else {
      var n := |more| - 1;
      OthersLeaveBook(movements, more[..n], box, currency, date);
      assert movements + more == movements + more[..n] + [more[n]];
      BookAfter(movements + more[..n], more[n], box, currency, date);
    }
  }

  lemma {:induction false} SameCounts(x: seq<Movement>, y: seq<Movement>, box: nat, date: int,
      currencies: seq<Currency>, body: CloseBody)
    requires forall k :: 0 <= k < |currencies| ==> currencies[k] in body.counts
    requires forall k :: 0 <= k < |currencies| ==>
        Book(x, box, currencies[k], date) == Book(y, box, currencies[k], date)
    ensures CountsOf(x, box, date, currencies, body) == CountsOf(y, box, date, currencies, body)
  {
    hide Book;
    if currencies != [] {
      SameCounts(x, y, box, date, currencies[..|currencies| - 1], body);
    }
  }

  predicate SameBooks(x: seq<Movement>, y: seq<Movement>, box: nat, date: int, currencies: seq<Currency>) {
    forall k :: 0 <= k < |currencies| ==> Book(x, box, currencies[k], date) == Book(y, box, currencies[k], date)
  }

  lemma SamePrecision(x: seq<Movement>, y: seq<Movement>, box: nat, date: int, currencies: seq<Currency>,
      places: map<Currency, nat>)
    requires SameBooks(x, y, box, date, currencies)
    ensures BooksPrecise(places, x, box, currencies, date) <==> BooksPrecise(places, y, box, currencies, date)
  {
    hide Book, Decimals.AmountParts;
  }

  lemma CoveredKeys(body: CloseBody, currencies: seq<Currency>)
    requires CoversBox(body, currencies)
    ensures forall k :: 0 <= k < |currencies| ==> currencies[k] in body.counts
  {
    assert forall k :: 0 <= k < |currencies| ==> currencies[k] in body.counts.Keys;
  }

  lemma SameCounted(s: State, t: State, id: nat, date: int, submitted: seq<Submitted>, body: CloseBody, env: Env,
      e: Error)
    requires id in s.boxes && t == s.(movements := t.movements)
    requires SameBooks(s.movements, t.movements, id, date, s.boxes[id].currencies)
    ensures CountNow(s, id, date, submitted, body, env, e) == CountNow(t, id, date, submitted, body, env, e)
  {
    var currencies := s.boxes[id].currencies;
    hide BooksPrecise, Precise, AllExplained, DistinctCurrencies, CountsOf, CoversBox, Book;
    SamePrecision(s.movements, t.movements, id, date, currencies, env.places);
    if CoversBox(body, currencies) {
      CoveredKeys(body, currencies);
      SameCounts(s.movements, t.movements, id, date, currencies, body);
    }
    hide SameBooks;
  }

  lemma OthersLeaveBooks(movements: seq<Movement>, more: seq<Movement>, box: nat, date: int, currencies: seq<Currency>)
    requires forall k :: 0 <= k < |more| ==>
               more[k].endpoint != CASHBOX(box) || more[k].date > date || more[k].currency !in currencies
    ensures SameBooks(movements, movements + more, box, date, currencies)
  {
    hide Book;
    forall k | 0 <= k < |currencies|
      ensures Book(movements, box, currencies[k], date) == Book(movements + more, box, currencies[k], date)
    {
      assert currencies[k] in currencies;
      OthersLeaveBook(movements, more, box, currencies[k], date);
    }
  }

  lemma SamePrepared(s: State, t: State, c: CloseCommand, env: Env)
    requires t == s.(movements := t.movements)
    requires c.box in s.boxes ==>
               CountNow(s, c.box, c.date, c.counts, NormalizeClose(c.counts, c.observed), env, APPROVAL_REQUIRED)
               == CountNow(t, c.box, c.date, c.counts, NormalizeClose(c.counts, c.observed), env, APPROVAL_REQUIRED)
    ensures PrepareClose(t, c, env) == PrepareClose(s, c, env)
  {
    hide CountNow, NormalizeClose, HasVariance, SnapshotOf, ObservedValid, Latest, Source;
  }

  /** So no close of a date sees a movement that is dated later, is of another
      endpoint, or is in a currency the cashbox does not control. */
  lemma OthersChangeNoClose(s: State, more: seq<Movement>, c: CloseCommand, env: Env)
    requires forall k :: 0 <= k < |more| ==>
               || more[k].endpoint != CASHBOX(c.box) || more[k].date > c.date
               || (c.box in s.boxes && more[k].currency !in s.boxes[c.box].currencies)
    ensures PrepareClose(s.(movements := s.movements + more), c, env) == PrepareClose(s, c, env)
  {
    hide CountNow, NormalizeClose, PrepareClose, SameBooks;
    var t := s.(movements := s.movements + more);
    if c.box in s.boxes {
      OthersLeaveBooks(s.movements, more, c.box, c.date, s.boxes[c.box].currencies);
      SameCounted(s, t, c.box, c.date, c.counts, NormalizeClose(c.counts, c.observed), env, APPROVAL_REQUIRED);
    }
    SamePrepared(s, t, c, env);
  }

  /** What a close posts: for every count that differs, and for no other, one movement of
      the cashbox on its date, named after its currency, a credit of what is too much or
      a debit of what is missing. */
  lemma {:induction false} PostedVariances(day: nat, c: CloseCommand, counts: seq<Count>, m: Movement)
    ensures m in VarianceMovements(day, c, counts) <==>
            exists k :: 0 <= k < |counts| && Posts(day, c, counts[k], m)
  {
    if counts != [] {
      var n := |counts| - 1;
      PostedVariances(day, c, counts[..n], m);
      if k :| 0 <= k < |counts| && Posts(day, c, counts[k], m) && k < n {
        assert counts[..n][k] == counts[k];
      }
      if k :| 0 <= k < n && Posts(day, c, counts[..n][k], m) {
        assert counts[..n][k] == counts[k];
      }
    }
  }

  predicate Posts(day: nat, c: CloseCommand, count: Count, m: Movement) {
    && count.variance != 0
    && m.owner == CASHBOX_AND_CUSTODY && m.source == day && m.endpoint == CASHBOX(c.box) && m.date == c.date
    && m.currency == count.currency && m.effectKey == "CLOSE_VARIANCE:" + count.currency
    && (if count.variance > 0 then m.direction == CREDIT && m.amount == count.variance
        else m.direction == DEBIT && m.amount == -count.variance)
    && m.reversalOf.None? && m.state == MovementState.POSTED
  }
}
