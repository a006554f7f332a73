/** Sessions: one row per token, rows of a logical session chained by rotation.
    Times are milliseconds of one clock; tokens are fresh numbers. */
module Sessions {
  import opened Common

  const IDLE := 15 * 60_000
  const ABSOLUTE := 8 * 60 * 60_000
  const GRACE := 30_000

  datatype SessionState = ACTIVE | ROTATED | REVOKED

  datatype Session = Session(
    account: nat, logical: nat, parent: Option<nat>, token: nat, xsrf: nat, authenticatedAt: int, lastRotatedAt: int,
    idleUntil: int, absoluteUntil: int, state: SessionState,
    rotatedAt: Option<int>, graceUntil: Option<int>, revokedAt: Option<int>)

  /** `active` holds the accounts that are active with an active user. */
  datatype State = State(rows: seq<Session>, active: set<nat>, nextToken: nat, clock: int)

  function Min(a: int, b: int): int { if a < b then a else b }

  predicate HasSuccessor(rows: seq<Session>, id: nat) {
    exists k :: 0 <= k < |rows| && rows[k].parent == Some(id)
  }

  // ---- commands ----

  function NewSession(s: State, account: nat, now: int): Session {
    Session(account, |s.rows|, None, s.nextToken, s.nextToken + 1, now, now, now + IDLE, now + ABSOLUTE, ACTIVE, None,
      None, None)
  }

  function AfterCreate(s: State, account: nat, now: int): State {
    s.(rows := s.rows + [NewSession(s, account, now)], nextToken := s.nextToken + 2, clock := now)
  }

  predicate Unexpired(x: Session, now: int) { x.idleUntil > now && x.absoluteUntil > now }

  predicate CanRotate(s: State, id: nat, token: nat, now: int) {
    && id < |s.rows| && s.rows[id].account in s.active && s.rows[id].token == token
    && s.rows[id].state == ACTIVE && s.rows[id].revokedAt.None? && Unexpired(s.rows[id], now)
    && !HasSuccessor(s.rows, id)
  }

  function SuccessorOf(s: State, id: nat, now: int): Session
    requires id < |s.rows|
  {
    var x := s.rows[id];
    Session(x.account, x.logical, Some(id), s.nextToken, s.nextToken + 1, x.authenticatedAt, now,
      Min(now + IDLE, x.absoluteUntil), x.absoluteUntil, ACTIVE, None, None, None)
  }

  function RotatedRow(x: Session, now: int): Session {
    x.(state := ROTATED, rotatedAt := Some(now), graceUntil := Some(now + GRACE))
  }

  function AfterRotate(s: State, id: nat, token: nat, now: int): State {
    if CanRotate(s, id, token, now) then
      s.(rows := s.rows[id := RotatedRow(s.rows[id], now)] + [SuccessorOf(s, id, now)],
         nextToken := s.nextToken + 2, clock := now)
    else s.(clock := now)
  }

  /** A token presents a row while the row is current, or within its grace. */
  predicate Presents(x: Session, token: nat, now: int) {
    && x.token == token && x.revokedAt.None? && x.absoluteUntil > now
    && ((x.state == ACTIVE && x.idleUntil > now)
       || (x.state == ROTATED && x.graceUntil.Some? && x.graceUntil.value > now))
  }

  predicate CanTouch(s: State, id: nat, presented: nat, token: nat, now: int) {
    && id < |s.rows| && presented < |s.rows| && s.rows[id].state == ACTIVE && s.rows[id].revokedAt.None?
    && Unexpired(s.rows[id], now) && s.rows[id].account in s.active
    && s.rows[presented].logical == s.rows[id].logical && Presents(s.rows[presented], token, now)
  }

  function AfterTouch(s: State, id: nat, presented: nat, token: nat, now: int): State {
    if CanTouch(s, id, presented, token, now) then
      s.(rows := s.rows[id := s.rows[id].(idleUntil := Min(now + IDLE, s.rows[id].absoluteUntil))], clock := now)
    else s.(clock := now)
  }

  predicate CanRefresh(s: State, id: nat, token: nat, xsrf: nat) {
    && id < |s.rows| && s.rows[id].token == token && s.rows[id].xsrf == xsrf
    && s.rows[id].state == ACTIVE && s.rows[id].revokedAt.None? && !HasSuccessor(s.rows, id)
  }

  function AfterRefresh(s: State, id: nat, token: nat, xsrf: nat, now: int): State {
    if CanRefresh(s, id, token, xsrf) then
      s.(rows := s.rows[id := s.rows[id].(xsrf := s.nextToken, idleUntil := Min(now + IDLE, s.rows[id].absoluteUntil))],
         nextToken := s.nextToken + 1, clock := now)
    else s.(clock := now)
  }

  /** Which rows a revocation is about: a logout, a whole account, or the rows of
      usable logical sessions that are themselves usable. */
  datatype Which = LOGOUT(logical: nat, account: nat) | ACCOUNT(account: nat) | USABLE(account: nat, logicals: set<nat>)

  predicate Hit(x: Session, which: Which, now: int) {
    && x.account == which.account && x.revokedAt.None?
    && (which.LOGOUT? ==> x.logical == which.logical)
    && (which.USABLE? ==> x.logical in which.logicals)
    && ((x.state == ACTIVE && (which.USABLE? ==> Unexpired(x, now)))
        || (x.state == ROTATED && x.graceUntil.Some? && x.graceUntil.value > now))
  }

  function RevokedRow(x: Session, now: int): Session {
    x.(state := REVOKED, revokedAt := Some(now), rotatedAt := None, graceUntil := None)
  }

  function RevokeRows(rows: seq<Session>, which: Which, now: int): (r: seq<Session>)
    ensures |r| == |rows|
    ensures forall k :: 0 <= k < |rows| ==>
        r[k] == if Hit(rows[k], which, now) then RevokedRow(rows[k], now) else rows[k]
  {
    if |rows| == 0 then []
    else
      var n := |rows| - 1;
      RevokeRows(rows[..n], which, now) + [if Hit(rows[n], which, now) then RevokedRow(rows[n], now) else rows[n]]
  }

  /** Logical sessions of an account whose last row is active and unexpired. */
  function UsableLogicals(s: State, account: nat, now: int): set<nat> {
    set k | 0 <= k < |s.rows| && s.rows[k].account == account && s.rows[k].state == ACTIVE && s.rows[k].revokedAt.None?
            && Unexpired(s.rows[k], now) && !HasSuccessor(s.rows, k) :: s.rows[k].logical
  }

  /** An administrator revokes the wanted usable sessions, or all of them. */
  function Selected(s: State, account: nat, wanted: Option<set<nat>>, now: int): Which {
    var usable := UsableLogicals(s, account, now);
    USABLE(account, if wanted.Some? then wanted.value * usable else usable)
  }

  function AfterRevoke(s: State, which: Which, now: int): State {
    s.(rows := RevokeRows(s.rows, which, now), clock := now)
  }

  // ---- runs ----

  datatype Action =
    | Create(account: nat)
    | Rotate(id: nat, token: nat)
    | Touch(id: nat, presented: nat, token: nat)
    | Refresh(id: nat, token: nat, xsrf: nat)
    | Logout(logical: nat, account: nat)
    | RevokeAccount(account: nat)
    | AdminRevoke(account: nat, wanted: Option<set<nat>>)
    | SetActive(account: nat, on: bool)

  datatype Step = Step(action: Action, now: int)

  function Now(s: State, step: Step): int { if step.now < s.clock then s.clock else step.now }

  function Next(s: State, step: Step): State {
    var now := Now(s, step);
    match step.action
    case Create(account) => AfterCreate(s, account, now)
    case Rotate(id, token) => AfterRotate(s, id, token, now)
    case Touch(id, presented, token) => AfterTouch(s, id, presented, token, now)
    case Refresh(id, token, xsrf) => AfterRefresh(s, id, token, xsrf, now)
    case Logout(logical, account) => AfterRevoke(s, LOGOUT(logical, account), now)
    case RevokeAccount(account) => AfterRevoke(s, ACCOUNT(account), now)
    case AdminRevoke(account, wanted) => AfterRevoke(s, Selected(s, account, wanted, now), now)
    case SetActive(account, on) => s.(active := if on then s.active + {account} else s.active - {account}, clock := now)
  }

  function Run(s: State, steps: seq<Step>): State {
    if |steps| == 0 then s else Next(Run(s, steps[..|steps| - 1]), steps[|steps| - 1])
  }

  function Start(clock: int): State { State([], {}, 0, clock) }

  // ---- the invariant ----

  /** A first row names itself; any other row continues, directly, the row of its
      logical session before it, which is no longer active. */
  predicate Linked(rows: seq<Session>, j: nat)
    requires j < |rows|
  {
    var x := rows[j];
    match x.parent
    case None => x.logical == j
    case Some(p) =>
      && p < j && rows[p].logical == x.logical && rows[p].account == x.account
      && rows[p].authenticatedAt == x.authenticatedAt && rows[p].absoluteUntil == x.absoluteUntil
      && rows[p].state != ACTIVE
      && forall k :: p < k < j ==> rows[k].logical != x.logical
  }

  predicate RowOk(x: Session, nextToken: nat) {
    && x.token < nextToken && x.xsrf < nextToken
    && x.absoluteUntil == x.authenticatedAt + ABSOLUTE && x.idleUntil <= x.absoluteUntil
    && (x.state == REVOKED <==> x.revokedAt.Some?)
    && (x.state == ROTATED <==> x.graceUntil.Some?) && (x.state == ROTATED <==> x.rotatedAt.Some?)
    && (x.state == ROTATED ==> x.graceUntil.value == x.rotatedAt.value + GRACE)
  }

  predicate DistinctTokens(rows: seq<Session>) {
    forall j, k :: 0 <= j < k < |rows| ==> rows[j].token != rows[k].token
  }

  predicate AllLinked(rows: seq<Session>) { forall j :: 0 <= j < |rows| ==> Linked(rows, j) }

  predicate RowsOk(rows: seq<Session>, nextToken: nat) { forall j :: 0 <= j < |rows| ==> RowOk(rows[j], nextToken) }

  /** A row's logical session is named by its first row. */
  predicate Rooted(rows: seq<Session>) {
    forall j :: 0 <= j < |rows| ==> rows[j].logical <= j && rows[rows[j].logical].logical == rows[j].logical
  }

  predicate Invariant(s: State) {
    AllLinked(s.rows) && RowsOk(s.rows, s.nextToken) && DistinctTokens(s.rows) && Rooted(s.rows)
  }

  /** Only the last row of a logical session can be active. */
  lemma {:induction false} OnlyLastActive(rows: seq<Session>, i: nat, j: nat)
    requires AllLinked(rows) && i < j < |rows| && rows[i].logical == rows[j].logical && Rooted(rows)
    ensures rows[i].state != ACTIVE && rows[j].parent.Some? && i <= rows[j].parent.value
    decreases j
  {
    assert Linked(rows, j);
    if i < rows[j].parent.value {
      OnlyLastActive(rows, i, rows[j].parent.value);
    }
  }

  lemma OneSuccessor(rows: seq<Session>, j: nat, k: nat)
    requires AllLinked(rows) && j < |rows| && k < |rows| && rows[j].parent.Some? && rows[j].parent == rows[k].parent
    ensures j == k
  {
    assert Linked(rows, j) && Linked(rows, k);
  }

  /** Rows keep what the chain is made of; a row that is not active never becomes
      active again. */
  predicate RowKept(x: Session, y: Session) {
    && y.account == x.account && y.logical == x.logical && y.parent == x.parent && y.token == x.token
    && y.authenticatedAt == x.authenticatedAt && y.absoluteUntil == x.absoluteUntil
    && (x.state != ACTIVE ==> y.state != ACTIVE)
  }

  predicate RowsKept(x: seq<Session>, y: seq<Session>) {
    |x| <= |y| && forall k :: 0 <= k < |x| ==> RowKept(x[k], y[k])
  }

  lemma SameRowsLinked(x: seq<Session>, y: seq<Session>)
    requires AllLinked(x) && Rooted(x) && DistinctTokens(x) && RowsKept(x, y) && |y| == |x|
    ensures AllLinked(y) && Rooted(y) && DistinctTokens(y)
  {
    forall j | 0 <= j < |y|
      ensures Linked(y, j)
    {
      assert Linked(x, j) && RowKept(x[j], y[j]);
      if x[j].parent.Some? {
        assert RowKept(x[x[j].parent.value], y[x[j].parent.value]);
      }
    }
  }

  lemma RowAppended(rows: seq<Session>, x: Session)
    requires AllLinked(rows) && Rooted(rows) && DistinctTokens(rows) && Linked(rows + [x], |rows|)
    requires forall k :: 0 <= k < |rows| ==> rows[k].token != x.token
    requires x.parent.Some? ==> x.parent.value < |rows| && rows[x.parent.value].logical == x.logical
    ensures AllLinked(rows + [x]) && Rooted(rows + [x]) && DistinctTokens(rows + [x])
  {
    var after := rows + [x];
    forall j | 0 <= j < |after|
      ensures Linked(after, j)
    {
      assert j < |rows| ==> Linked(rows, j);
    }
  }

  lemma CreateKeeps(s: State, account: nat, now: int)
    requires Invariant(s)
    ensures Invariant(AfterCreate(s, account, now)) && RowsKept(s.rows, AfterCreate(s, account, now).rows)
  {
    RowAppended(s.rows, NewSession(s, account, now));
  }

  /** A row without a successor is the last of its logical session. */
  lemma {:induction false} TailIsLast(rows: seq<Session>, id: nat, k: nat)
    requires AllLinked(rows) && Rooted(rows) && id < |rows| && !HasSuccessor(rows, id) && id < k < |rows|
    ensures rows[k].logical != rows[id].logical
    decreases k
  {
    if rows[k].logical == rows[id].logical {
      assert Linked(rows, k);
      OnlyLastActive(rows, id, k);
      var p := rows[k].parent.value;
      assert p != id;
      TailIsLast(rows, id, p);
    }
  }

  lemma RotateKeeps(s: State, id: nat, token: nat, now: int)
    requires Invariant(s)
    ensures Invariant(AfterRotate(s, id, token, now)) && RowsKept(s.rows, AfterRotate(s, id, token, now).rows)
  {
    if CanRotate(s, id, token, now) {
      var before := s.rows[id := RotatedRow(s.rows[id], now)];
      var x := SuccessorOf(s, id, now);
      assert RowOk(s.rows[id], s.nextToken);
      SameRowsLinked(s.rows, before);
      forall k | id < k < |before|
        ensures before[k].logical != x.logical
      {
        TailIsLast(s.rows, id, k);
      }
      assert Linked(before + [x], |before|);
      RowAppended(before, x);
    }
  }

  lemma RevokeKeeps(s: State, which: Which, now: int)
    requires Invariant(s)
    ensures Invariant(AfterRevoke(s, which, now)) && RowsKept(s.rows, AfterRevoke(s, which, now).rows)
  {
    SameRowsLinked(s.rows, RevokeRows(s.rows, which, now));
    assert forall k :: 0 <= k < |s.rows| ==> RowOk(s.rows[k], s.nextToken);
  }

  lemma UpdateKeeps(s: State, id: nat, x: Session, nextToken: nat)
    requires Invariant(s) && id < |s.rows| && RowKept(s.rows[id], x) && RowOk(x, nextToken) && nextToken >= s.nextToken
    ensures Invariant(s.(rows := s.rows[id := x], nextToken := nextToken)) && RowsKept(s.rows, s.rows[id := x])
  {
    SameRowsLinked(s.rows, s.rows[id := x]);
    assert forall k :: 0 <= k < |s.rows| ==> RowOk(s.rows[k], s.nextToken);
  }

  lemma NextKeeps(s: State, step: Step)
    requires Invariant(s)
    ensures Invariant(Next(s, step)) && RowsKept(s.rows, Next(s, step).rows) && Next(s, step).clock == Now(s, step)
  {
    var now := Now(s, step);
    match step.action {
      case Create(account) => CreateKeeps(s, account, now);
      case Rotate(id, token) => RotateKeeps(s, id, token, now);
      case Touch(id, presented, token) =>
        if CanTouch(s, id, presented, token, now) {
          assert RowOk(s.rows[id], s.nextToken);
          UpdateKeeps(s, id, Next(s, step).rows[id], Next(s, step).nextToken);
        }
      case Refresh(id, token, xsrf) =>
        if CanRefresh(s, id, token, xsrf) {
          assert RowOk(s.rows[id], s.nextToken);
          UpdateKeeps(s, id, Next(s, step).rows[id], Next(s, step).nextToken);
        }
      case Logout(logical, account) => RevokeKeeps(s, LOGOUT(logical, account), now);
      case RevokeAccount(account) => RevokeKeeps(s, ACCOUNT(account), now);
      case AdminRevoke(account, wanted) => RevokeKeeps(s, Selected(s, account, wanted, now), now);
      case SetActive(account, on) =>
    }
  }

  lemma {:induction false} RunKeeps(s: State, steps: seq<Step>)
    requires Invariant(s)
    ensures Invariant(Run(s, steps)) && RowsKept(s.rows, Run(s, steps).rows) && Run(s, steps).clock >= s.clock
  {
    if |steps| > 0 {
      var before := Run(s, steps[..|steps| - 1]);
      RunKeeps(s, steps[..|steps| - 1]);
      NextKeeps(before, steps[|steps| - 1]);
      hide Invariant, Next;
      forall k | 0 <= k < |s.rows|
        ensures RowKept(s.rows[k], Run(s, steps).rows[k])
      {
        assert RowKept(s.rows[k], before.rows[k]) && RowKept(before.rows[k], Run(s, steps).rows[k]);
      }
    }
  }

  /** In every run a logical session is a linear chain of rotations of which only
      the last row can be active, and no row outlives the eight hours that start
      at the first authentication. */
  lemma ReachableChains(clock: int, steps: seq<Step>, i: nat, j: nat)
    requires var rows := Run(Start(clock), steps).rows; i < j < |rows| && rows[i].logical == rows[j].logical
    ensures var rows := Run(Start(clock), steps).rows;
            && rows[i].state != ACTIVE
            && rows[j].parent.Some? && i <= rows[j].parent.value < j
            && (forall k :: rows[j].parent.value < k < j ==> rows[k].logical != rows[j].logical)
            && rows[j].logical <= i
            && rows[j].authenticatedAt == rows[rows[j].logical].authenticatedAt
            && rows[j].idleUntil <= rows[j].absoluteUntil == rows[rows[j].logical].authenticatedAt + ABSOLUTE
  {
    RunKeeps(Start(clock), steps);
    var rows := Run(Start(clock), steps).rows;
    OnlyLastActive(rows, i, j);
    assert Linked(rows, j);
    assert RowOk(rows[j], Run(Start(clock), steps).nextToken);
    SameStart(rows, j);
  }

  lemma {:induction false} SameStart(rows: seq<Session>, j: nat)
    requires AllLinked(rows) && j < |rows| && Rooted(rows)
    ensures rows[j].authenticatedAt == rows[rows[j].logical].authenticatedAt
    decreases j
  {
    assert Linked(rows, j);
    if rows[j].parent.Some? {
      SameStart(rows, rows[j].parent.value);
    }
  }
}
