/** The session repository over its rows, and how a request's token is
    authenticated with it. */
module SessionStore {
  import opened Common
  import opened Sessions
  import opened SessionLookup

  /** What authenticating decides about a token that was found. */
  datatype Context = Context(tail: nat, current: bool, rotated: Option<nat>)

  /** When an attempt looks the token up and when it writes, and whether the account
      has been authorized anew since the row it finds. */
  datatype Moment = Moment(lookup: int, write: int, epochStale: bool)

  datatype Attempted = Unknown | Missed | Served(context: Context)

  /** An attempt: the tables it looked at, the pair it found, the tables its write met. */
  datatype Round = Round(before: State, presented: nat, tail: nat, met: State)

  predicate RotationDue(x: Session, now: int, epochStale: bool) { now - x.lastRotatedAt >= IDLE || epochStale }

  ghost predicate Ran(s: State, u: State) { exists steps :: u == Run(s, steps) }

  /** The round found its token, and others ran before its write. */
  ghost predicate Looked(x: Round, token: nat, at: Moment) {
    Found(x.before, token, at.lookup, x.presented, x.tail) && Ran(x.before, x.met)
  }

  /** At the write the token is still accepted, and the tail has not been rotated. */
  ghost predicate Holds(x: Round, token: nat, at: Moment) {
    Accepted(x.met, token, at.write) && !HasSuccessor(x.met.rows, x.tail)
  }

  /** A round that is served rotates a current row when that is due, and otherwise
      touches the tail. */
  predicate Writes(x: Round, token: nat, at: Moment, c: Context, after: State) {
    && x.tail < |x.before.rows| && c.tail == x.tail && (c.current <==> x.presented == x.tail)
    && (if c.current && RotationDue(x.before.rows[x.tail], at.write, at.epochStale) then
          c.rotated == Some(|x.met.rows|) && after == AfterRotate(x.met, x.tail, token, at.write)
        else c.rotated.None? && after == AfterTouch(x.met, x.tail, x.presented, token, at.write))
  }

  lemma RoundWrites(x: Round, token: nat, at: Moment)
    requires Invariant(x.before) && Looked(x, token, at)
    ensures CanTouch(x.met, x.tail, x.presented, token, at.write) <==> Holds(x, token, at)
    ensures x.presented == x.tail ==> (CanRotate(x.met, x.tail, token, at.write) <==> Holds(x, token, at))
  {
    var steps :| x.met == Run(x.before, steps);
    WriteIff(x.before, token, at.lookup, x.presented, x.tail, steps, at.write);
  }

  /** Served with a current token, a round keeps it exactly when its row is younger than
      fifteen minutes and the account has not been authorized anew; otherwise a new row
      with a new token takes over. */
  lemma RotatedWhenDue(x: Round, token: nat, at: Moment, c: Context, after: State)
    requires Invariant(x.met) && Holds(x, token, at) && Looked(x, token, at) && Writes(x, token, at, c, after)
    requires Invariant(x.before)
    ensures c.rotated.None? <==>
              || x.presented != x.tail
              || (at.write < x.before.rows[x.tail].lastRotatedAt + 15 * 60_000 && !at.epochStale)
    ensures c.rotated.Some? ==>
              && |after.rows| == |x.met.rows| + 1 && after.rows[c.rotated.value].parent == Some(x.tail)
              && after.rows[c.rotated.value].state == ACTIVE && after.rows[c.rotated.value].lastRotatedAt == at.write
  {
    RoundWrites(x, token, at);
  }

  class Store {
    var rows: seq<Session>
    var active: set<nat>
    var nextToken: nat
    ghost var clock: int

    ghost function Tables(): State
      reads this
    {
      State(rows, active, nextToken, clock)
    }

    ghost predicate Valid()
      reads this
    {
      Invariant(Tables())
    }

    constructor (ghost now: int)
      ensures Valid() && Tables() == Start(now)
    {
      rows, active, nextToken, clock := [], {}, 0, now;
    }

    method CreateSession(account: nat, now: int) returns (id: nat)
      requires Valid() && now >= clock
      modifies this
      ensures Valid() && id == |old(rows)| && Tables() == AfterCreate(old(Tables()), account, now)
    {
      CreateKeeps(Tables(), account, now);
      id := |rows|;
      rows := rows + [Session(account, id, None, nextToken, nextToken + 1, now, now, now + IDLE, now + ABSOLUTE,
        ACTIVE, None, None, None)];
      nextToken := nextToken + 2;
      clock := now;
    }

    method HasSuccessorRow(id: nat) returns (r: bool)
      ensures r == HasSuccessor(rows, id)
    {
      var k := 0;
      while k < |rows|
        invariant k <= |rows|
        invariant forall j :: 0 <= j < k ==> rows[j].parent != Some(id)
      {
        if rows[k].parent == Some(id) {
          return true;
        }
        k := k + 1;
      }
      r := false;
    }

    /** The row a token presents, then its chain, row by row, to the tail. */
    method FindSession(token: nat, now: int) returns (r: Option<(nat, nat)>)
      requires Valid()
      ensures r.Some? ==> Found(Tables(), token, now, r.value.0, r.value.1)
      ensures r.None? ==> !Accepted(Tables(), token, now)
    {
      var i := 0;
      while i < |rows| && !Presents(rows[i], token, now)
        invariant i <= |rows|
        invariant forall j :: 0 <= j < i ==> !Presents(rows[j], token, now)
      {
        i := i + 1;
      }
      if i == |rows| {
        return None;
      }
      var tail := i;
      var k := i + 1;
      while k < |rows|
        invariant i <= tail < k <= |rows|
        invariant Descends(rows, i, tail)
        invariant forall j :: tail < j < k ==> rows[j].parent != Some(tail)
      {
        if rows[k].parent == Some(tail) {
          tail := k;
        }
        k := k + 1;
      }
      EndOfChain(rows, i, tail);
      var x := rows[tail];
      if x.state == ACTIVE && x.revokedAt.None? && Unexpired(x, now) && x.account in active {
        return Some((i, tail));
      }
      OnlyTailAnswers(Tables(), token, now, i, tail);
      r := None;
    }

    method RotateSession(id: nat, token: nat, now: int) returns (successor: Option<nat>)
      requires Valid() && now >= clock
      modifies this
      ensures Valid() && Tables() == AfterRotate(old(Tables()), id, token, now)
      ensures successor == if CanRotate(old(Tables()), id, token, now) then Some(|old(rows)|) else None
    {
      RotateKeeps(Tables(), id, token, now);
      ghost var before := Tables();
      clock := now;
      if id >= |rows| {
        return None;
      }
      var x := rows[id];
      var taken := HasSuccessorRow(id);
      if x.account !in active || x.token != token || x.state != ACTIVE || x.revokedAt.Some? || !Unexpired(x, now)
        || taken {
        return None;
      }
      var next := Session(x.account, x.logical, Some(id), nextToken, nextToken + 1, x.authenticatedAt, now,
        Min(now + IDLE, x.absoluteUntil), x.absoluteUntil, ACTIVE, None, None, None);
      successor := Some(|rows|);
      rows := rows + [next];
      rows := rows[id := RotatedRow(x, now)];
      nextToken := nextToken + 2;
      assert rows == AfterRotate(before, id, token, now).rows;
    }

    method TouchSession(id: nat, presented: nat, token: nat, now: int) returns (ok: bool)
      requires Valid() && now >= clock
      modifies this
      ensures Valid() && Tables() == AfterTouch(old(Tables()), id, presented, token, now)
      ensures ok == CanTouch(old(Tables()), id, presented, token, now)
    {
      NextKeeps(Tables(), Step(Touch(id, presented, token), now));
      clock := now;
      ok := id < |rows| && presented < |rows| && rows[id].state == ACTIVE && rows[id].revokedAt.None?
        && Unexpired(rows[id], now)
            && rows[id].account in active && rows[presented].logical == rows[id].logical
            && Presents(rows[presented], token, now);
      if ok {
        rows := rows[id := rows[id].(idleUntil := Min(now + IDLE, rows[id].absoluteUntil))];
      }
    }

    /** Updates every row the revocation is about. */
    method RevokeWhere(which: Which, now: int)
      requires Valid() && now >= clock
      modifies this
      ensures Valid() && Tables() == AfterRevoke(old(Tables()), which, now)
    {
      RevokeKeeps(Tables(), which, now);
      clock := now;
      ghost var before := rows;
      var k := 0;
      while k < |rows|
        invariant k <= |rows| == |before|
        invariant nextToken == old(nextToken) && active == old(active) && clock == now
        invariant forall j :: 0 <= j < k ==>
            rows[j] == if Hit(before[j], which, now) then RevokedRow(before[j], now) else before[j]
        invariant forall j :: k <= j < |rows| ==> rows[j] == before[j]
      {
        if Hit(rows[k], which, now) {
          rows := rows[k := RevokedRow(rows[k], now)];
        }
        k := k + 1;
      }
      assert rows == RevokeRows(before, which, now);
    }

    method RevokeSession(logical: nat, account: nat, now: int)
      requires Valid() && now >= clock
      modifies this
      ensures Valid() && Tables() == AfterRevoke(old(Tables()), LOGOUT(logical, account), now)
    {
      RevokeWhere(LOGOUT(logical, account), now);
    }

    method RevokeAllAccountSecrets(account: nat, now: int)
      requires Valid() && now >= clock
      modifies this
      ensures Valid() && Tables() == AfterRevoke(old(Tables()), ACCOUNT(account), now)
    {
      RevokeWhere(ACCOUNT(account), now);
    }

    /** Whatever other transactions do until then. This body lets them do nothing;
        callers know only the contract, which allows any run. */
    method OtherTransactions(until: int)
      requires Valid() && clock <= until
      modifies this
      ensures Valid() && clock <= until && Ran(old(Tables()), Tables())
    {
      assert Tables() == Run(Tables(), []);
    }

    /** One attempt: a lookup, and a write that others may come before. */
    method Attempt(token: nat, at: Moment) returns (r: Attempted, ghost x: Round)
      requires Valid() && clock <= at.lookup <= at.write
      modifies this
      ensures Valid() && clock <= at.write && x.before == old(Tables())
      ensures r.Unknown? ==> !Accepted(x.before, token, at.lookup) && Tables() == x.before
      ensures !r.Unknown? ==> Looked(x, token, at) && (r.Served? <==> Holds(x, token, at))
      ensures r.Served? ==> Writes(x, token, at, r.context, Tables())
      ensures r.Missed? ==> Tables() == x.met.(clock := at.write)
    {
      var found := FindSession(token, at.lookup);
      x := Round(Tables(), 0, 0, Tables());
      if found.None? {
        return Unknown, x;
      }
      var p, tail := found.value.0, found.value.1;
      var due := RotationDue(rows[tail], at.write, at.epochStale);
      OtherTransactions(at.write);
      x := Round(x.before, p, tail, Tables());
      RoundWrites(x, token, at);
      if p == tail && due {
        var successor := RotateSession(tail, token, at.write);
        r := if successor.Some? then Served(Context(tail, true, successor)) else Missed;
      } else {
        var touched := TouchSession(tail, p, token, at.write);
        r := if touched then Served(Context(tail, p == tail, None)) else Missed;
      }
    }

    /** Authentication of a token, with one retry after a write that missed, and with
        other transactions before every step but the first. A token that is accepted
        at every step is refused only when its tail was rotated away both times; with
        nothing in between it is served exactly when it is accepted. */
    method Authenticate(token: nat, first: Moment, second: Moment)
      returns (r: Option<Context>, ghost x: Round, ghost y: Round)
      requires Valid() && clock <= first.lookup <= first.write <= second.lookup <= second.write
      modifies this
      ensures Valid() && x.before == old(Tables())
      ensures !Accepted(x.before, token, first.lookup) ==> r.None? && Tables() == x.before
      ensures Accepted(x.before, token, first.lookup) ==> Looked(x, token, first)
      ensures Looked(x, token, first) && Holds(x, token, first) ==>
                r.Some? && Writes(x, token, first, r.value, Tables())
      ensures Looked(x, token, first) && !Holds(x, token, first) ==>
                && Ran(x.met.(clock := first.write), y.before)
                && (!Accepted(y.before, token, second.lookup) ==> r.None? && Tables() == y.before)
                && (Accepted(y.before, token, second.lookup) ==>
                      && Looked(y, token, second)
                      && (r.Some? <==> Holds(y, token, second))
                      && (r.Some? ==> Writes(y, token, second, r.value, Tables())))
    {
      var attempted;
      attempted, x := Attempt(token, first);
      y := x;
      if attempted.Missed? {
        OtherTransactions(second.lookup);
        attempted, y := Attempt(token, second);
      }
      r := if attempted.Served? then Some(attempted.context) else None;
      if !attempted.Unknown? {
        FoundIsAccepted(x.before, token, first.lookup);
        FoundIsAccepted(y.before, token, second.lookup);
      }
    }
  }

  lemma FoundIsAccepted(s: State, token: nat, now: int)
    ensures forall p: nat, tail: nat :: Found(s, token, now, p, tail) ==> Accepted(s, token, now)
  {
  }

  /** Walking on from a row to the end of the table leaves it without successor. */
  lemma EndOfChain(rows: seq<Session>, i: nat, tail: nat)
    requires AllLinked(rows) && i <= tail < |rows|
    requires forall j :: tail < j < |rows| ==> rows[j].parent != Some(tail)
    ensures !HasSuccessor(rows, tail)
  {
    forall k | 0 <= k < |rows|
      ensures rows[k].parent != Some(tail)
    {
      assert Linked(rows, k);
    }
  }

  lemma OnlyTailAnswers(s: State, token: nat, now: int, i: nat, tail: nat)
    requires Invariant(s) && i < |s.rows| && tail < |s.rows| && Presents(s.rows[i], token, now)
    requires Descends(s.rows, i, tail) && !HasSuccessor(s.rows, tail) && !Found(s, token, now, i, tail)
    ensures !Accepted(s, token, now)
  {
    DescendsIsLogical(s.rows, i, tail);
    forall p: nat, t: nat | Found(s, token, now, p, t)
      ensures false
    {
      DescendsIsLogical(s.rows, p, t);
      if t < tail {
        TailIsLast(s.rows, t, tail);
      } else if tail < t {
        TailIsLast(s.rows, tail, t);
      }
    }
  }
}
