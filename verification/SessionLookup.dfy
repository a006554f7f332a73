/** Looking a token up: which row it presents, which row of its chain answers for
    it, and what revocation and rotation mean for earlier tokens. */
module SessionLookup {
  import opened Common
  import opened Sessions

  // ---- the recursive query ----

  /** `d` is reached from `a` over rotations. */
  predicate Descends(rows: seq<Session>, a: nat, d: nat)
    requires a < |rows| && d < |rows|
    decreases d
  {
    a == d || (rows[d].parent.Some? && rows[d].parent.value < d && Descends(rows, a, rows[d].parent.value))
  }

  /** A pair of rows the query returns: the presented one and the tail of its chain. */
  predicate Found(s: State, token: nat, now: int, presented: nat, tail: nat) {
    && presented < |s.rows| && Presents(s.rows[presented], token, now)
    && tail < |s.rows| && Descends(s.rows, presented, tail) && !HasSuccessor(s.rows, tail)
    && s.rows[tail].state == ACTIVE && s.rows[tail].revokedAt.None? && Unexpired(s.rows[tail], now)
    && s.rows[tail].account in s.active
  }

  ghost predicate Accepted(s: State, token: nat, now: int) {
    exists presented, tail :: Found(s, token, now, presented, tail)
  }

  lemma {:induction false} DescendsIsLogical(rows: seq<Session>, a: nat, d: nat)
    requires AllLinked(rows) && a < |rows| && d < |rows| && Descends(rows, a, d)
    ensures a <= d && rows[a].logical == rows[d].logical
    decreases d
  {
    if a != d {
      assert Linked(rows, d);
      DescendsIsLogical(rows, a, rows[d].parent.value);
    }
  }

  /** A later row of the same logical session descends from every earlier one. */
  lemma {:induction false} LogicalDescends(rows: seq<Session>, a: nat, d: nat)
    requires AllLinked(rows) && Rooted(rows) && a <= d < |rows| && rows[a].logical == rows[d].logical
    ensures Descends(rows, a, d)
    decreases d
  {
    if a < d {
      OnlyLastActive(rows, a, d);
      assert Linked(rows, d);
      LogicalDescends(rows, a, rows[d].parent.value);
    }
  }

  /** The query finds at most one pair, and its tail is the last row of the
      logical session the token belongs to. */
  lemma LookupIsUnique(s: State, token: nat, now: int, p: nat, t: nat, q: nat, u: nat)
    requires Invariant(s) && Found(s, token, now, p, t) && Found(s, token, now, q, u)
    ensures p == q && t == u
    ensures forall k :: t < k < |s.rows| ==> s.rows[k].logical != s.rows[p].logical
  {
    DescendsIsLogical(s.rows, p, t);
    DescendsIsLogical(s.rows, q, u);
    if t < u {
      TailIsLast(s.rows, t, u);
    } else if u < t {
      TailIsLast(s.rows, u, t);
    }
    forall k | t < k < |s.rows|
      ensures s.rows[k].logical != s.rows[p].logical
    {
      TailIsLast(s.rows, t, k);
    }
  }

  /** A token is accepted exactly when it presents a row whose logical session
      still has a usable row. */
  lemma AcceptedIff(s: State, i: nat, now: int)
    requires Invariant(s) && i < |s.rows|
    ensures Accepted(s, s.rows[i].token, now) <==>
            && Presents(s.rows[i], s.rows[i].token, now)
            && exists t :: 0 <= t < |s.rows| && s.rows[t].logical == s.rows[i].logical && s.rows[t].state == ACTIVE
                 && s.rows[t].revokedAt.None? && Unexpired(s.rows[t], now) && s.rows[t].account in s.active
  {
    var token := s.rows[i].token;
    if Accepted(s, token, now) {
      var p, t :| Found(s, token, now, p, t);
      DescendsIsLogical(s.rows, p, t);
    }
    if Presents(s.rows[i], token, now) {
      forall t | 0 <= t < |s.rows| && s.rows[t].logical == s.rows[i].logical && s.rows[t].state == ACTIVE
                 && s.rows[t].revokedAt.None? && Unexpired(s.rows[t], now) && s.rows[t].account in s.active
        ensures Found(s, token, now, i, t)
      {
        ActiveIsTail(s.rows, t);
        if t < i {
          OnlyLastActive(s.rows, t, i);
        }
        LogicalDescends(s.rows, i, t);
      }
    }
  }

  lemma ActiveIsTail(rows: seq<Session>, t: nat)
    requires AllLinked(rows) && t < |rows| && rows[t].state == ACTIVE
    ensures !HasSuccessor(rows, t)
  {
    forall k | 0 <= k < |rows|
      ensures rows[k].parent != Some(t)
    {
      assert Linked(rows, k);
    }
  }

  // ---- rotation ----

  /** Row `i` has been rotated away, at the latest at `at`. */
  predicate RotatedBy(x: Session, at: int) {
    x.state != ACTIVE && (x.state == ROTATED ==> x.rotatedAt.Some? && x.rotatedAt.value <= at)
  }

  /** A step leaves a row that is not active as it is, or revokes it. */
  lemma InactiveRow(s: State, step: Step, i: nat)
    requires i < |s.rows| && s.rows[i].state != ACTIVE
    ensures i < |Next(s, step).rows|
    ensures Next(s, step).rows[i] == s.rows[i] || Next(s, step).rows[i].state == REVOKED
  {
    hide HasSuccessor, Presents, UsableLogicals, Unexpired, Min, SuccessorOf, NewSession;
  }

  lemma RotatedStays(s: State, step: Step, i: nat, at: int)
    requires i < |s.rows| && RotatedBy(s.rows[i], at)
    ensures i < |Next(s, step).rows| && RotatedBy(Next(s, step).rows[i], at)
  {
    InactiveRow(s, step, i);
    hide Next;
  }

  lemma {:induction false} RotatedForever(s: State, steps: seq<Step>, i: nat, at: int)
    requires Invariant(s) && i < |s.rows| && RotatedBy(s.rows[i], at)
    ensures i < |Run(s, steps).rows| && RotatedBy(Run(s, steps).rows[i], at)
  {
    if |steps| > 0 {
      var before := steps[..|steps| - 1];
      RotatedForever(s, before, i, at);
      RunKeeps(s, before);
      RotatedStays(Run(s, before), steps[|steps| - 1], i, at);
    }
  }

  /** After a rotation the old token is accepted for less than thirty seconds, in
      whatever state a run has reached by then. */
  lemma OldTokenExpires(s: State, id: nat, token: nat, now: int, steps: seq<Step>, later: int)
    requires Invariant(s) && CanRotate(s, id, token, now)
    requires Accepted(Run(AfterRotate(s, id, token, now), steps), token, later)
    ensures later < now + GRACE
  {
    var t := AfterRotate(s, id, token, now);
    var u := Run(t, steps);
    RotateKeeps(s, id, token, now);
    RotatedForever(t, steps, id, now);
    RunKeeps(t, steps);
    assert RowKept(t.rows[id], u.rows[id]);
    assert RowOk(u.rows[id], u.nextToken);
    AcceptedIff(u, id, later);
  }

  /** Right after a rotation, and within the grace period, both tokens lead to the
      new row. */
  lemma BothTokensWork(s: State, id: nat, token: nat, now: int, later: int)
    requires Invariant(s) && CanRotate(s, id, token, now) && now <= later < now + GRACE
    requires later < s.rows[id].absoluteUntil
    ensures var t := AfterRotate(s, id, token, now);
            && Found(t, token, later, id, |s.rows|)
            && Found(t, t.rows[|s.rows|].token, later, |s.rows|, |s.rows|)
  {
    var t := AfterRotate(s, id, token, now);
    RotateKeeps(s, id, token, now);
    ActiveIsTail(t.rows, |s.rows|);
    assert Descends(t.rows, id, id);
  }

  /** Whatever runs after a rotation, another one of the same row misses it; and a
      retry that looks the token up again is served exactly while it is accepted:
      it finds the old row with a newer tail, and its touch goes through. */
  lemma LostRotationIsServed(s: State, id: nat, token: nat, now: int, between: seq<Step>, later: int)
    requires Invariant(s) && CanRotate(s, id, token, now)
    ensures var u := Run(AfterRotate(s, id, token, now), between);
            && !CanRotate(u, id, token, later)
            && (Accepted(u, token, later) <==>
                  exists tail :: tail != id && Found(u, token, later, id, tail) && CanTouch(u, tail, id, token, later))
  {
    var t := AfterRotate(s, id, token, now);
    var u := Run(t, between);
    RotateKeeps(s, id, token, now);
    RunKeeps(t, between);
    assert RowKept(t.rows[id], u.rows[id]) && RowKept(t.rows[|s.rows|], u.rows[|s.rows|]);
    hide Run, AfterRotate;
    assert HasSuccessor(u.rows, id);
    if Accepted(u, token, later) {
      ServedByTail(u, id, token, later);
    }
  }

  lemma ServedByTail(u: State, id: nat, token: nat, later: int)
    requires Invariant(u) && id < |u.rows| && u.rows[id].token == token && HasSuccessor(u.rows, id)
    requires Accepted(u, token, later)
    ensures exists tail :: tail != id && Found(u, token, later, id, tail) && CanTouch(u, tail, id, token, later)
  {
    var p: nat, tail: nat :| Found(u, token, later, p, tail);
    assert p == id;
    DescendsIsLogical(u.rows, p, tail);
  }

  /** The write that follows a lookup, whatever ran in between, goes through exactly
      when the token is still accepted and the row found then is still the tail. */
  lemma WriteIff(s: State, token: nat, at: int, p: nat, tail: nat, between: seq<Step>, now: int)
    requires Invariant(s) && Found(s, token, at, p, tail)
    ensures var u := Run(s, between); var holds := Accepted(u, token, now) && !HasSuccessor(u.rows, tail);
            && (CanTouch(u, tail, p, token, now) <==> holds)
            && (p == tail ==> (CanRotate(u, tail, token, now) <==> holds))
  {
    var u := Run(s, between);
    RunKeeps(s, between);
    assert RowKept(s.rows[p], u.rows[p]) && RowKept(s.rows[tail], u.rows[tail]);
    DescendsIsLogical(s.rows, p, tail);
    AcceptedIff(u, p, now);
    hide Run, RowKept, Accepted;
    if u.rows[tail].state == ACTIVE {
      ActiveIsTail(u.rows, tail);
    }
    if Accepted(u, token, now) && !HasSuccessor(u.rows, tail) {
      OnlyUsableRow(u, p, tail, now);
    }
  }

  /** The usable row of a logical session is the one without a successor. */
  lemma OnlyUsableRow(u: State, p: nat, tail: nat, now: int)
    requires Invariant(u) && p < |u.rows| && tail < |u.rows| && u.rows[tail].logical == u.rows[p].logical
    requires !HasSuccessor(u.rows, tail)
    requires exists t :: 0 <= t < |u.rows| && u.rows[t].logical == u.rows[p].logical && u.rows[t].state == ACTIVE
               && u.rows[t].revokedAt.None? && Unexpired(u.rows[t], now) && u.rows[t].account in u.active
    ensures u.rows[tail].state == ACTIVE && u.rows[tail].revokedAt.None? && Unexpired(u.rows[tail], now)
    ensures u.rows[tail].account in u.active
  {
    var t :| 0 <= t < |u.rows| && u.rows[t].logical == u.rows[p].logical && u.rows[t].state == ACTIVE
             && u.rows[t].revokedAt.None? && Unexpired(u.rows[t], now) && u.rows[t].account in u.active;
    ActiveIsTail(u.rows, t);
    if t < tail {
      TailIsLast(u.rows, t, tail);
    } else if tail < t {
      TailIsLast(u.rows, tail, t);
    }
  }

  /** A touch needs a token that presents a row of the same logical session: with any
      other one it changes nothing. */
  lemma TouchNeedsOwnToken(s: State, id: nat, presented: nat, token: nat, now: int)
    requires Invariant(s) && id < |s.rows| && presented < |s.rows|
    requires s.rows[presented].token != token || s.rows[presented].logical != s.rows[id].logical
    ensures AfterTouch(s, id, presented, token, now) == s.(clock := now)
  {
  }

  /** The XSRF token is refreshed exactly for the pair of tokens of a current row, and
      once: afterwards that pair is worth nothing. */
  lemma RefreshedOnce(s: State, id: nat, token: nat, xsrf: nat, now: int, steps: seq<Step>)
    requires Invariant(s) && id < |s.rows|
    ensures CanRefresh(s, id, token, xsrf) <==>
              s.rows[id].token == token && s.rows[id].xsrf == xsrf && s.rows[id].state == ACTIVE
    ensures var t := AfterRefresh(s, id, token, xsrf, now);
            CanRefresh(s, id, token, xsrf) ==> t.rows[id].xsrf != xsrf && !CanRefresh(t, id, token, xsrf)
  {
    if s.rows[id].state == ACTIVE {
      ActiveIsTail(s.rows, id);
    }
    assert RowOk(s.rows[id], s.nextToken);
  }

  // ---- how long a token lasts ----

  /** The token of an active row of an active account is accepted exactly until its
      idle limit or its absolute one. */
  lemma CurrentAcceptedIff(s: State, id: nat, at: int)
    requires Invariant(s) && id < |s.rows| && s.rows[id].state == ACTIVE && s.rows[id].account in s.active
    ensures Accepted(s, s.rows[id].token, at) <==> at < s.rows[id].idleUntil && at < s.rows[id].absoluteUntil
  {
    AcceptedIff(s, id, at);
    assert RowOk(s.rows[id], s.nextToken);
    if Accepted(s, s.rows[id].token, at) {
      var p: nat, tail: nat :| Found(s, s.rows[id].token, at, p, tail);
      assert p == id;
    }
  }

  /** A new session's token is accepted for fifteen minutes. */
  lemma NewSessionLasts(s: State, account: nat, now: int, at: int)
    requires Invariant(s) && account in s.active && at >= now
    ensures var t := AfterCreate(s, account, now);
            && (Accepted(t, t.rows[|s.rows|].token, at) <==> at < now + 15 * 60_000)
            && t.rows[|s.rows|].lastRotatedAt == t.rows[|s.rows|].authenticatedAt == now
  {
    CreateKeeps(s, account, now);
    CurrentAcceptedIff(AfterCreate(s, account, now), |s.rows|, at);
  }

  /** After a touch that goes through the tail's token is accepted for fifteen
      minutes more, up to eight hours after the first authentication. */
  lemma TouchExtends(s: State, id: nat, presented: nat, token: nat, now: int, at: int)
    requires Invariant(s) && CanTouch(s, id, presented, token, now) && at >= now
    ensures Accepted(AfterTouch(s, id, presented, token, now), s.rows[id].token, at) <==>
              at < now + 15 * 60_000 && at < s.rows[id].authenticatedAt + 8 * 60 * 60_000
  {
    var t := AfterTouch(s, id, presented, token, now);
    assert RowOk(s.rows[id], s.nextToken);
    UpdateKeeps(s, id, t.rows[id], t.nextToken);
    CurrentAcceptedIff(t, id, at);
  }

  /** After a rotation the new token lasts as long, and the old one thirty seconds:
      both while the other limits allow. */
  lemma RotationLasts(s: State, id: nat, token: nat, now: int, at: int)
    requires Invariant(s) && CanRotate(s, id, token, now) && at >= now
    ensures var t := AfterRotate(s, id, token, now); var next := t.rows[|s.rows|].token;
            && (forall k :: 0 <= k < |s.rows| ==> s.rows[k].token != next)
            && t.rows[|s.rows|].lastRotatedAt == now && t.rows[|s.rows|].authenticatedAt == s.rows[id].authenticatedAt
            && (Accepted(t, next, at) <==>
                  at < now + 15 * 60_000 && at < s.rows[id].authenticatedAt + 8 * 60 * 60_000)
            && (Accepted(t, token, at) <==>
                  at < now + 30_000 && at < s.rows[id].authenticatedAt + 8 * 60 * 60_000)
  {
    var t := AfterRotate(s, id, token, now);
    RotateKeeps(s, id, token, now);
    assert RowOk(s.rows[id], s.nextToken);
    assert forall k :: 0 <= k < |s.rows| ==> RowOk(s.rows[k], s.nextToken);
    CurrentAcceptedIff(t, |s.rows|, at);
    OldTokenIff(s, id, token, now, at);
  }

  lemma OldTokenIff(s: State, id: nat, token: nat, now: int, at: int)
    requires Invariant(s) && CanRotate(s, id, token, now) && at >= now
    ensures Accepted(AfterRotate(s, id, token, now), token, at) <==>
              at < now + 30_000 && at < s.rows[id].authenticatedAt + 8 * 60 * 60_000
  {
    var t := AfterRotate(s, id, token, now);
    RotateKeeps(s, id, token, now);
    assert RowOk(s.rows[id], s.nextToken);
    AcceptedIff(t, id, at);
    if at < now + 30_000 && at < s.rows[id].absoluteUntil {
      assert t.rows[|s.rows|].logical == t.rows[id].logical;
    }
  }

  /** The row is current and its account active. */
  predicate Current(s: State, id: nat) {
    id < |s.rows| && s.rows[id].state == ACTIVE && s.rows[id].account in s.active
  }

  /** A request with the row's own token. */
  predicate Touches(s: State, step: Step, id: nat) {
    id < |s.rows| && step.action == Touch(id, id, s.rows[id].token)
  }

  /** When the row was last touched in a run that starts just after `since`. */
  function LastTouch(s: State, steps: seq<Step>, id: nat, since: int): int {
    if steps == [] then since
    else
      var before := Run(s, steps[..|steps| - 1]);
      var last := steps[|steps| - 1];
      if Touches(before, last, id) then Now(before, last) else LastTouch(s, steps[..|steps| - 1], id, since)
  }

  /** In every state of the run the row is current, and it is touched before fifteen
      minutes and the eight hours have passed. */
  predicate KeptInUse(s: State, steps: seq<Step>, id: nat, since: int) {
    && Current(s, id)
    && (steps != [] ==>
          var earlier := steps[..|steps| - 1]; var before := Run(s, earlier); var last := steps[|steps| - 1];
          && KeptInUse(s, earlier, id, since) && Current(Run(s, steps), id)
          && (Touches(before, last, id) ==>
                && Now(before, last) < LastTouch(s, earlier, id, since) + 15 * 60_000
                && Now(before, last) < s.rows[id].authenticatedAt + 8 * 60 * 60_000))
  }

  lemma IdleAhead(s: State, step: Step, id: nat, since: int)
    requires Invariant(s) && Current(s, id) && Current(Next(s, step), id) && since <= s.clock
    requires s.rows[id].idleUntil >= Min(since + IDLE, s.rows[id].absoluteUntil)
    requires Touches(s, step, id) ==> Now(s, step) < since + IDLE && Now(s, step) < s.rows[id].absoluteUntil
    ensures var t := Next(s, step); var last := if Touches(s, step, id) then Now(s, step) else since;
            t.rows[id].idleUntil >= Min(last + IDLE, t.rows[id].absoluteUntil) && last <= t.clock
  {
    NextKeeps(s, step);
    assert RowKept(s.rows[id], Next(s, step).rows[id]);
    assert RowOk(s.rows[id], s.nextToken);
    RowStays(s, step, id);
    hide Invariant, Next;
  }

  /** A step that leaves a row active leaves its idle limit, or sets it to fifteen
      minutes from then; a touch of the row in time sets it. */
  lemma RowStays(s: State, step: Step, id: nat)
    requires Invariant(s) && Current(s, id) && Current(Next(s, step), id)
    ensures var x, y, now := s.rows[id], Next(s, step).rows[id], Now(s, step);
            && (y.idleUntil == x.idleUntil || y.idleUntil == Min(now + IDLE, x.absoluteUntil))
            && (Touches(s, step, id) && Unexpired(x, now) ==> y.idleUntil == Min(now + IDLE, x.absoluteUntil))
  {
    assert RowOk(s.rows[id], s.nextToken);
    hide UsableLogicals, AllLinked, DistinctTokens, Rooted;
  }

  lemma LimitsAgree(s: State, x: Session)
    requires RowOk(x, s.nextToken)
    ensures x.absoluteUntil == x.authenticatedAt + 8 * 60 * 60_000
  {
  }

  lemma {:induction false} UseKeepsIdleAhead(s: State, steps: seq<Step>, id: nat, since: int)
    requires Invariant(s) && KeptInUse(s, steps, id, since) && since <= s.clock
    requires s.rows[id].idleUntil >= Min(since + IDLE, s.rows[id].absoluteUntil)
    ensures var u := Run(s, steps); var last := LastTouch(s, steps, id, since);
            && Current(u, id) && last <= u.clock && id < |s.rows| && RowKept(s.rows[id], u.rows[id])
            && u.rows[id].idleUntil >= Min(last + IDLE, u.rows[id].absoluteUntil)
  {
    hide Invariant, Next, Touches, RowOk;
    RunKeeps(s, steps);
    if steps != [] {
      var earlier := steps[..|steps| - 1];
      var before := Run(s, earlier);
      UseKeepsIdleAhead(s, earlier, id, since);
      RunKeeps(s, earlier);
      InvariantRow(before, id);
      LimitsAgree(before, before.rows[id]);
      hide Current, RowKept, Min;
      IdleAhead(before, steps[|steps| - 1], id, LastTouch(s, earlier, id, since));
    }
  }

  lemma InvariantRow(s: State, id: nat)
    requires Invariant(s) && id < |s.rows|
    ensures RowOk(s.rows[id], s.nextToken)
  {
  }

  /** Whatever else runs, a current token whose row is touched at gaps under fifteen
      minutes stays accepted: until fifteen minutes after the last touch, up to the
      eight-hour limit, as long as nobody rotates or revokes it and the account is
      active. */
  lemma KeptInUseIsAccepted(s: State, id: nat, presented: nat, token: nat, now: int, steps: seq<Step>, at: int)
    requires Invariant(s) && CanTouch(s, id, presented, token, now)
    requires var t := AfterTouch(s, id, presented, token, now);
             && KeptInUse(t, steps, id, now)
             && at < LastTouch(t, steps, id, now) + 15 * 60_000 && at < s.rows[id].authenticatedAt + 8 * 60 * 60_000
    ensures Accepted(Run(AfterTouch(s, id, presented, token, now), steps), s.rows[id].token, at)
  {
    hide Invariant, AfterTouch, CanTouch, Run, KeptInUse, LastTouch, Min, Accepted, RowsKept, RowOk;
    var t := AfterTouch(s, id, presented, token, now);
    IsRow(s, id, presented, token, now);
    TouchSets(s, id, presented, token, now);
    UseKeepsIdleAhead(t, steps, id, now);
    RunKeeps(t, steps);
    var u := Run(t, steps);
    InvariantRow(u, id);
    LimitsAgree(u, u.rows[id]);
    SmallerLimit(LastTouch(t, steps, id, now) + IDLE, u.rows[id].absoluteUntil, at);
    CurrentAcceptedIff(u, id, at);
  }

  lemma SmallerLimit(a: int, b: int, at: int)
    requires at < a && at < b
    ensures at < Min(a, b)
  {
  }

  lemma IsRow(s: State, id: nat, presented: nat, token: nat, now: int)
    requires CanTouch(s, id, presented, token, now)
    ensures id < |s.rows|
  {
  }

  lemma TouchSets(s: State, id: nat, presented: nat, token: nat, now: int)
    requires Invariant(s) && CanTouch(s, id, presented, token, now)
    ensures var t := AfterTouch(s, id, presented, token, now);
            && Invariant(t) && t.clock == now && id < |t.rows| && t.rows[id].token == s.rows[id].token
            && t.rows[id].authenticatedAt == s.rows[id].authenticatedAt
            && t.rows[id].idleUntil == Min(now + IDLE, t.rows[id].absoluteUntil)
  {
    var t := AfterTouch(s, id, presented, token, now);
    InvariantRow(s, id);
    UpdateKeeps(s, id, t.rows[id], t.nextToken);
  }

  // ---- revocation ----

  /** No row of the logical session can be presented any more. */
  predicate Dead(s: State, logical: nat) {
    forall k :: 0 <= k < |s.rows| && s.rows[k].logical == logical ==> Spent(s.rows[k], s.clock)
  }

  predicate Spent(x: Session, clock: int) {
    x.state != ACTIVE && (x.state == ROTATED ==> x.graceUntil.Some? && x.graceUntil.value <= clock)
  }

  lemma DeadStays(s: State, step: Step, logical: nat)
    requires Invariant(s) && logical < |s.rows| && Dead(s, logical)
    ensures Dead(Next(s, step), logical)
  {
    var t := Next(s, step);
    NextKeeps(s, step);
    forall k | 0 <= k < |t.rows| && t.rows[k].logical == logical
      ensures Spent(t.rows[k], t.clock)
    {
      if k < |s.rows| {
        assert RowKept(s.rows[k], t.rows[k]) && Spent(s.rows[k], s.clock);
      }
    }
  }

  lemma DeadIsRefused(s: State, i: nat, now: int)
    requires Invariant(s) && i < |s.rows| && Dead(s, s.rows[i].logical) && now >= s.clock
    ensures !Accepted(s, s.rows[i].token, now)
  {
    AcceptedIff(s, i, now);
    assert Spent(s.rows[i], s.clock);
  }

  lemma {:induction false} DeadForever(s: State, steps: seq<Step>, logical: nat)
    requires Invariant(s) && logical < |s.rows| && Dead(s, logical)
    ensures Dead(Run(s, steps), logical)
  {
    if |steps| > 0 {
      var before := steps[..|steps| - 1];
      DeadForever(s, before, logical);
      RunKeeps(s, before);
      DeadStays(Run(s, before), steps[|steps| - 1], logical);
    }
  }

  lemma {:induction false} SameAccount(rows: seq<Session>, j: nat)
    requires AllLinked(rows) && Rooted(rows) && j < |rows|
    ensures rows[j].account == rows[rows[j].logical].account
    decreases j
  {
    assert Linked(rows, j);
    if rows[j].parent.Some? {
      SameAccount(rows, rows[j].parent.value);
    }
  }

  /** Which rows a revocation writes: those of the account, and of the logical sessions
      it names, that are active, if usable is asked for unexpired, or still in their
      grace; no other row changes. */
  lemma RevokesExactly(s: State, which: Which, now: int, k: nat)
    requires Invariant(s) && k < |s.rows|
    ensures var x := s.rows[k]; var t := AfterRevoke(s, which, now);
            && |t.rows| == |s.rows|
            && (t.rows[k] != x <==>
                  && x.account == which.account
                  && (which.LOGOUT? ==> x.logical == which.logical)
                  && (which.USABLE? ==> x.logical in which.logicals)
                  && ((x.state == ACTIVE
                       && (which.USABLE? ==> x.idleUntil > now && x.absoluteUntil > now))
                      || (x.state == ROTATED && x.graceUntil.value > now)))
            && (t.rows[k] != x ==> t.rows[k].state == REVOKED && t.rows[k].revokedAt == Some(now))
  {
    assert RowOk(s.rows[k], s.nextToken);
  }

  /** A logout, or the revocation of an account, leaves the sessions it is about
      dead, whatever state they were in. */
  lemma RevokedAreDead(s: State, which: Which, now: int, i: nat)
    requires Invariant(s) && !which.USABLE? && now >= s.clock && i < |s.rows| && s.rows[i].account == which.account
    requires which.LOGOUT? ==> s.rows[i].logical == which.logical
    ensures Dead(AfterRevoke(s, which, now), s.rows[i].logical)
  {
    var t := AfterRevoke(s, which, now);
    SameAccount(s.rows, i);
    forall k | 0 <= k < |t.rows| && t.rows[k].logical == s.rows[i].logical
      ensures Spent(t.rows[k], t.clock)
    {
      SameAccount(s.rows, k);
      assert RowOk(s.rows[k], s.nextToken);
    }
  }

  /** After a logout or an account-wide revocation no earlier token of the session
      is ever accepted again. */
  lemma NeverAcceptedAgain(s: State, which: Which, now: int, i: nat, steps: seq<Step>, later: int)
    requires Invariant(s) && !which.USABLE? && now >= s.clock && i < |s.rows| && s.rows[i].account == which.account
    requires which.LOGOUT? ==> s.rows[i].logical == which.logical
    requires later >= Run(AfterRevoke(s, which, now), steps).clock
    ensures !Accepted(Run(AfterRevoke(s, which, now), steps), s.rows[i].token, later)
  {
    RevokedAreDead(s, which, now, i);
    RevokeKeeps(s, which, now);
    DeadTokens(AfterRevoke(s, which, now), i, steps, later);
  }

  lemma DeadTokens(s: State, i: nat, steps: seq<Step>, later: int)
    requires Invariant(s) && i < |s.rows| && Dead(s, s.rows[i].logical) && later >= Run(s, steps).clock
    ensures !Accepted(Run(s, steps), s.rows[i].token, later)
  {
    var t := Run(s, steps);
    RunKeeps(s, steps);
    assert RowKept(s.rows[i], t.rows[i]);
    DeadForever(s, steps, s.rows[i].logical);
    DeadIsRefused(t, i, later);
  }

  /** Deactivating an account refuses all its tokens and no other; reactivating it
      gives back those whose rows are still usable. */
  lemma ActivationIff(s: State, account: nat, on: bool, now: int, i: nat, at: int)
    requires Invariant(s) && i < |s.rows|
    ensures var t := Next(s, Step(SetActive(account, on), now)); var token := s.rows[i].token;
            && (s.rows[i].account != account ==> (Accepted(t, token, at) <==> Accepted(s, token, at)))
            && (s.rows[i].account == account ==>
                  (Accepted(t, token, at) <==> on && Accepted(s.(active := s.active + {account}), token, at)))
  {
    var t := Next(s, Step(SetActive(account, on), now));
    AcceptedIff(t, i, at);
    AcceptedIff(s, i, at);
    AcceptedIff(s.(active := s.active + {account}), i, at);
    SameAccount(s.rows, i);
    forall k | 0 <= k < |s.rows| && s.rows[k].logical == s.rows[i].logical
      ensures s.rows[k].account == s.rows[i].account
    {
      SameAccount(s.rows, k);
    }
    hide Invariant, Accepted;
  }

  // ---- revocation by an administrator ----

  /** An administrator's revocation leaves a logical session dead exactly when it
      was selected as usable, or was dead already. A session that has only idled
      out is left as it is. */
  lemma AdminRevocationKills(s: State, account: nat, wanted: Option<set<nat>>, now: int, logical: nat)
    requires Invariant(s) && now >= s.clock && logical < |s.rows| && s.rows[logical].account == account
    ensures var which := Selected(s, account, wanted, now);
            Dead(AfterRevoke(s, which, now), logical) <==> logical in which.logicals || Dead(s.(clock := now), logical)
  {
    var which := Selected(s, account, wanted, now);
    var t := AfterRevoke(s, which, now);
    if logical in which.logicals {
      UsableIsTail(s, account, now, logical);
      forall k | 0 <= k < |t.rows| && t.rows[k].logical == logical
        ensures Spent(t.rows[k], t.clock)
      {
        SameAccount(s.rows, k);
        assert RowOk(s.rows[k], s.nextToken);
        UsableOrOld(s, account, now, logical, k);
      }
    } else {
      assert forall k :: 0 <= k < |s.rows| && s.rows[k].logical == logical ==> t.rows[k] == s.rows[k];
      if Dead(t, logical) {
        assert forall k :: 0 <= k < |s.rows| && s.rows[k].logical == logical ==> Spent(t.rows[k], now);
      }
      if Dead(s.(clock := now), logical) {
        assert forall k :: 0 <= k < |s.rows| && s.rows[k].logical == logical ==> Spent(s.rows[k], now);
      }
    }
  }

  lemma UsableIsTail(s: State, account: nat, now: int, logical: nat)
    requires logical in UsableLogicals(s, account, now)
    ensures exists k ::
              && 0 <= k < |s.rows| && s.rows[k].logical == logical && s.rows[k].state == ACTIVE
              && Unexpired(s.rows[k], now)
  {
  }

  /** In a usable session a row is either the unexpired active one or not active. */
  lemma UsableOrOld(s: State, account: nat, now: int, logical: nat, k: nat)
    requires Invariant(s) && logical in UsableLogicals(s, account, now) && k < |s.rows| && s.rows[k].logical == logical
    ensures s.rows[k].state == ACTIVE ==> Unexpired(s.rows[k], now)
  {
    UsableIsTail(s, account, now, logical);
    var u :| 0 <= u < |s.rows| && s.rows[u].logical == logical && s.rows[u].state == ACTIVE
      && Unexpired(s.rows[u], now);
    if k < u {
      OnlyLastActive(s.rows, k, u);
    } else if u < k {
      OnlyLastActive(s.rows, u, k);
    }
  }

  lemma AdminNeverAcceptedAgain(s: State, account: nat, wanted: Option<set<nat>>, now: int, i: nat, steps: seq<Step>,
      later: int)
    requires Invariant(s) && now >= s.clock && i < |s.rows| && s.rows[i].account == account
    requires s.rows[i].logical in Selected(s, account, wanted, now).logicals
    requires later >= Run(AfterRevoke(s, Selected(s, account, wanted, now), now), steps).clock
    ensures !Accepted(Run(AfterRevoke(s, Selected(s, account, wanted, now), now), steps), s.rows[i].token, later)
  {
    var which := Selected(s, account, wanted, now);
    SameAccount(s.rows, i);
    AdminRevocationKills(s, account, wanted, now, s.rows[i].logical);
    RevokeKeeps(s, which, now);
    DeadTokens(AfterRevoke(s, which, now), i, steps, later);
  }

  /** The refresh of the XSRF token does not look at the idle limit: it makes an
      idled-out current row usable again, up to the eight-hour limit, exactly when
      that limit is ahead and the account is active. */
  lemma RefreshRevivesIdle(s: State, id: nat, token: nat, xsrf: nat, now: int)
    requires Invariant(s) && CanRefresh(s, id, token, xsrf) && s.rows[id].idleUntil <= now
    ensures !Accepted(s, token, now)
    ensures Accepted(AfterRefresh(s, id, token, xsrf, now), token, now) <==>
            now < s.rows[id].absoluteUntil && s.rows[id].account in s.active
  {
    var t := AfterRefresh(s, id, token, xsrf, now);
    AcceptedIff(s, id, now);
    RefreshKeeps(s, id, token, xsrf, now);
    AcceptedIff(t, id, now);
    if Accepted(t, token, now) {
      var k :| 0 <= k < |t.rows| && t.rows[k].logical == t.rows[id].logical && t.rows[k].account in t.active;
      SameAccount(t.rows, k);
      SameAccount(t.rows, id);
    } else {
      assert t.rows[id].logical == t.rows[id].logical;
    }
  }

  lemma RefreshKeeps(s: State, id: nat, token: nat, xsrf: nat, now: int)
    requires Invariant(s) && CanRefresh(s, id, token, xsrf)
    ensures Invariant(AfterRefresh(s, id, token, xsrf, now))
  {
    var t := AfterRefresh(s, id, token, xsrf, now);
    assert RowOk(s.rows[id], s.nextToken);
    UpdateKeeps(s, id, t.rows[id], t.nextToken);
  }
}
