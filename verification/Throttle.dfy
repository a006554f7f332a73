/** The password throttle of one bucket: a row of failures, a generation, a delay
    and a lock, and the leases of attempts in progress. Times are milliseconds;
    every transaction holds the bucket's lock and sees one clock. */
module Throttle {
  import opened Common

  const LEASE := 2 * 60_000
  const LOCK := 15 * 60_000
  const LIMIT: nat := 10

  datatype Row = Row(failures: nat, generation: nat, delayUntil: Option<int>, lockedUntil: Option<int>)

  datatype Lease = Lease(generation: nat, expiresAt: int)

  /** `leases` is keyed by attempt id; `nextId` stands for fresh random ids. */
  datatype State = State(row: Option<Row>, leases: map<nat, Lease>, nextId: nat, clock: int)

  /** A throttled attempt is told how many seconds to wait. */
  datatype Reserved = Granted(id: nat, generation: nat) | Throttled(seconds: nat)

  function Failures(s: State): nat { if s.row.Some? then s.row.value.failures else 0 }

  function Generation(s: State): nat { if s.row.Some? then s.row.value.generation else 0 }

  /** A lock hides a delay: only when there is none does the delay count. */
  function ActiveUntil(row: Option<Row>): Option<int> {
    if row.None? then None else if row.value.lockedUntil.Some? then row.value.lockedUntil else row.value.delayUntil
  }

  predicate Live(l: Lease, generation: nat, now: int) { l.generation == generation && l.expiresAt > now }

  function LiveIds(leases: map<nat, Lease>, generation: nat, now: int): set<nat> {
    set id | id in leases && Live(leases[id], generation, now)
  }

  function DiscardStale(leases: map<nat, Lease>, generation: nat, now: int): map<nat, Lease> {
    map id | id in leases && Live(leases[id], generation, now) :: leases[id]
  }

  // ---- reserving an attempt ----

  predicate LockExpired(row: Option<Row>, now: int) {
    row.Some? && row.value.lockedUntil.Some? && row.value.lockedUntil.value <= now
  }

  /** The row as reserving leaves it: an expired lock starts a new generation. */
  function RowOnReserve(row: Option<Row>, now: int): Row {
    if LockExpired(row, now) then Row(0, row.value.generation + 1, row.value.delayUntil, None)
    else if row.Some? then row.value
    else Row(0, 0, None, None)
  }

  /** Milliseconds as seconds, rounded up. */
  function Seconds(milliseconds: int): (r: nat)
    requires milliseconds > 0
    ensures 1000 * (r - 1) < milliseconds <= 1000 * r && r >= 1
  {
    (milliseconds + 999) / 1000
  }

  /** When the first of some leases runs out. */
  ghost function Earliest(leases: map<nat, Lease>, ids: set<nat>): (t: int)
    requires ids != {} && ids <= leases.Keys
    ensures exists id :: id in ids && leases[id].expiresAt == t
    ensures forall id :: id in ids ==> t <= leases[id].expiresAt
  {
    var id :| id in ids;
    if ids == {id} then leases[id].expiresAt
    else
      assert ids - {id} == {} ==> ids == {id};
      var t := Earliest(leases, ids - {id});
      assert forall other :: other in ids ==> other == id || other in ids - {id};
      if leases[id].expiresAt < t then leases[id].expiresAt else t
  }

  ghost function ReserveOutcome(s: State, now: int): Reserved {
    var until := ActiveUntil(s.row);
    if until.Some? && until.value > now then Throttled(Seconds(until.value - now))
    else
      var row := RowOnReserve(s.row, now);
      var live := LiveIds(s.leases, row.generation, now);
      if row.failures + |live| < LIMIT then Granted(s.nextId, row.generation)
      else if live == {} then Throttled(1)
      else Throttled(Seconds(Earliest(s.leases, live) - now))
  }

  ghost function AfterReserve(s: State, now: int): State {
    if ReserveOutcome(s, now).Granted? then
      var row := RowOnReserve(s.row, now);
      State(Some(row), DiscardStale(s.leases, row.generation, now)[s.nextId := Lease(row.generation, now + LEASE)],
        s.nextId + 1, now)
    else s.(clock := now)
  }

  // ---- failing, releasing, clearing ----

  function Pow2(n: nat): nat { if n == 0 then 1 else 2 * Pow2(n - 1) }

  /** The row after one more failure, and the seconds to wait. */
  function NextThrottle(previous: nat, generation: nat, now: int): (r: (Row, nat))
    ensures r.0.failures <= LIMIT && r.0.generation == generation
    ensures r.0.failures == LIMIT <==> previous + 1 >= LIMIT
    ensures r.0.lockedUntil.Some? <==> r.0.failures == LIMIT
    ensures r.0.failures < LIMIT ==> r.0.failures == previous + 1
    ensures r.0.lockedUntil == if r.1 == 900 then Some(now + LOCK) else None
    ensures r.0.delayUntil == if 0 < r.1 < 900 then Some(now + 1000 * r.1) else None
    ensures r.1 == match r.0.failures
                   case 5 => 1 case 6 => 2 case 7 => 4 case 8 => 8 case 9 => 16 case 10 => 900 case _ => 0
  {
    var failures := previous + 1;
    if failures >= LIMIT then (Row(LIMIT, generation, None, Some(now + LOCK)), 900)
    else if failures >= 5 then
      var wait := Pow2(failures - 5);
      assert Pow2(0) == 1 && Pow2(1) == 2 && Pow2(2) == 4 && Pow2(3) == 8 && Pow2(4) == 16;
      (Row(failures, generation, Some(now + wait * 1000), None), wait)
    else (Row(failures, generation, None, None), 0)
  }

  /** The attempt still holds its lease in the generation it was granted in. */
  predicate Owned(s: State, id: nat, generation: nat, now: int) {
    id in s.leases && Live(s.leases[id], generation, now)
  }

  function Without(leases: map<nat, Lease>, id: nat, generation: nat): map<nat, Lease> {
    if id in leases && leases[id].generation == generation then leases - {id} else leases
  }

  predicate Counts(s: State, id: nat, generation: nat, now: int) {
    Owned(s, id, generation, now) && s.row.Some? && s.row.value.generation == generation
  }

  function FailWait(s: State, id: nat, generation: nat, now: int): nat {
    if Counts(s, id, generation, now) then NextThrottle(s.row.value.failures, generation, now).1 else 0
  }

  function AfterFail(s: State, id: nat, generation: nat, now: int): State {
    s.(row := if Counts(s, id, generation, now) then Some(NextThrottle(s.row.value.failures, generation, now).0)
      else s.row,
       leases := Without(s.leases, id, generation), clock := now)
  }

  function AfterRelease(s: State, id: nat, generation: nat, now: int): State {
    s.(leases := Without(s.leases, id, generation), clock := now)
  }

  function AfterClear(s: State, now: int): State {
    s.(row := Some(if s.row.None? then Row(0, 1, None, None) else Row(0, s.row.value.generation + 1, None, None)),
       leases := map[], clock := now)
  }

  // ---- runs ----

  datatype Action = Reserve | Fail(id: nat, generation: nat) | Release(id: nat, generation: nat) | Clear

  /** One transaction at time `now`; the clock never goes back. */
  datatype Step = Step(action: Action, now: int)

  ghost function Next(s: State, step: Step): State {
    var now := if step.now < s.clock then s.clock else step.now;
    match step.action
    case Reserve => AfterReserve(s, now)
    case Fail(id, generation) => AfterFail(s, id, generation, now)
    case Release(id, generation) => AfterRelease(s, id, generation, now)
    case Clear => AfterClear(s, now)
  }

  ghost function Run(s: State, steps: seq<Step>): State {
    if |steps| == 0 then s else Next(Run(s, steps[..|steps| - 1]), steps[|steps| - 1])
  }

  function Start(clock: int): State { State(None, map[], 0, clock) }

  // ---- the invariant ----

  /** Failures plus live leases of the current generation never exceed the limit. */
  predicate WithinLimit(s: State) {
    Failures(s) + |LiveIds(s.leases, Generation(s), s.clock)| <= LIMIT
  }

  predicate Invariant(s: State) {
    && WithinLimit(s)
    && (forall id :: id in s.leases ==> id < s.nextId && s.leases[id].generation <= Generation(s))
    && (s.row.None? ==> s.leases == map[])
    && (s.row.Some? ==>
          && s.row.value.failures <= LIMIT
          && (s.row.value.lockedUntil.Some? <==> s.row.value.failures == LIMIT)
          && (s.row.value.lockedUntil.Some? ==> s.row.value.delayUntil.None?))
  }

  lemma SmallerSet(a: set<nat>, b: set<nat>)
    requires a <= b
    ensures |a| <= |b|
  {
    assert b == a + (b - a);
  }

  /** As time passes leases only expire. */
  lemma LiveShrinks(leases: map<nat, Lease>, fewer: map<nat, Lease>, generation: nat, now: int, later: int)
    requires now <= later
    requires forall id :: id in fewer ==> id in leases && fewer[id] == leases[id]
    ensures LiveIds(fewer, generation, later) <= LiveIds(leases, generation, now)
    ensures |LiveIds(fewer, generation, later)| <= |LiveIds(leases, generation, now)|
  {
    SmallerSet(LiveIds(fewer, generation, later), LiveIds(leases, generation, now));
  }

  lemma ReserveKeeps(s: State, now: int)
    requires Invariant(s) && now >= s.clock
    ensures Invariant(AfterReserve(s, now))
  {
    if ReserveOutcome(s, now).Granted? {
      var t := AfterReserve(s, now);
      var g := RowOnReserve(s.row, now).generation;
      assert LiveIds(t.leases, g, now) == LiveIds(s.leases, g, now) + {s.nextId};
    } else {
      LiveShrinks(s.leases, s.leases, Generation(s), s.clock, now);
    }
  }

  lemma FailKeeps(s: State, id: nat, generation: nat, now: int)
    requires Invariant(s) && now >= s.clock
    ensures Invariant(AfterFail(s, id, generation, now))
  {
    var t := AfterFail(s, id, generation, now);
    var before, after := LiveIds(s.leases, Generation(s), now), LiveIds(t.leases, Generation(t), now);
    LiveShrinks(s.leases, s.leases, Generation(s), s.clock, now);
    LiveShrinks(s.leases, t.leases, Generation(s), s.clock, now);
    if Counts(s, id, generation, now) {
      assert id in before && after == before - {id};
    }
  }

  lemma NextKeeps(s: State, step: Step)
    requires Invariant(s)
    ensures Invariant(Next(s, step))
    ensures Next(s, step).clock == if step.now < s.clock then s.clock else step.now
  {
    var now := if step.now < s.clock then s.clock else step.now;
    match step.action {
      case Reserve => ReserveKeeps(s, now);
      case Fail(id, generation) => FailKeeps(s, id, generation, now);
      case Release(id, generation) => LiveShrinks(s.leases, Without(s.leases, id, generation), Generation(s), s.clock,
        now);
      case Clear => assert LiveIds(map[], Generation(AfterClear(s, now)), now) == {};
    }
  }

  /** In every interleaving of reserving, failing, releasing, clearing and lease
      expiry. */
  lemma {:induction false} RunKeeps(s: State, steps: seq<Step>)
    requires Invariant(s)
    ensures Invariant(Run(s, steps)) && Run(s, steps).clock >= s.clock
  {
    if |steps| > 0 {
      RunKeeps(s, steps[..|steps| - 1]);
      NextKeeps(Run(s, steps[..|steps| - 1]), steps[|steps| - 1]);
    }
  }

  lemma ReachableWithinLimit(clock: int, steps: seq<Step>)
    ensures WithinLimit(Run(Start(clock), steps))
  {
    assert LiveIds(Start(clock).leases, 0, clock) == {};
    RunKeeps(Start(clock), steps);
  }

  // ---- old attempts ----

  /** A failure of an older generation, or after its lease has run out, changes
      neither the row nor the leases of other attempts. */
  lemma OldFailureChangesNothing(s: State, id: nat, generation: nat, now: int)
    requires Invariant(s) && (generation != Generation(s) || !(id in s.leases && s.leases[id].expiresAt > now))
    ensures AfterFail(s, id, generation, now).row == s.row && FailWait(s, id, generation, now) == 0
    ensures forall other :: other != id && other in s.leases ==>
              other in AfterFail(s, id, generation, now).leases
                && AfterFail(s, id, generation, now).leases[other] == s.leases[other]
  {
  }

  /** Attempt `id` was granted once and has since been settled. */
  predicate Settled(s: State, id: nat) { id < s.nextId && id !in s.leases }

  /** A settled attempt never counts again, in any later state. */
  lemma {:induction false} SettledNeverCounts(s: State, id: nat, steps: seq<Step>, generation: nat, now: int)
    requires Invariant(s) && Settled(s, id)
    ensures Settled(Run(s, steps), id)
    ensures AfterFail(Run(s, steps), id, generation, now).row == Run(s, steps).row
  {
    if |steps| > 0 {
      SettledNeverCounts(s, id, steps[..|steps| - 1], generation, now);
    }
  }

  /** A failure settles its attempt and is counted exactly once. */
  lemma FailureCountsOnce(s: State, id: nat, generation: nat, now: int, steps: seq<Step>, later: int)
    requires Invariant(s) && Owned(s, id, generation, now) && generation == Generation(s) && now >= s.clock
    ensures var t := AfterFail(s, id, generation, now);
            && Failures(t) == Failures(s) + 1 && Settled(t, id)
            && AfterFail(Run(t, steps), id, generation, later).row == Run(t, steps).row
  {
    var t := AfterFail(s, id, generation, now);
    FailKeeps(s, id, generation, now);
    assert id in LiveIds(s.leases, generation, now);
    LiveShrinks(s.leases, s.leases, generation, s.clock, now);
    SettledNeverCounts(t, id, steps, generation, later);
  }

  // ---- the lock ----

  predicate Locked(s: State, until: int) {
    s.row.Some? && s.row.value.failures == LIMIT && s.row.value.lockedUntil == Some(until)
  }

  /** The failure that reaches the limit locks the bucket, and by then no attempt
      of the generation is in progress. */
  lemma ReachingLimitLocks(s: State, id: nat, generation: nat, now: int)
    requires Invariant(s) && now >= s.clock && Failures(s) < LIMIT
    requires Failures(AfterFail(s, id, generation, now)) == LIMIT
    ensures var t := AfterFail(s, id, generation, now);
            Locked(t, now + LOCK) && LiveIds(t.leases, Generation(t), now) == {}
              && FailWait(s, id, generation, now) == 900
  {
    FailKeeps(s, id, generation, now);
    var t := AfterFail(s, id, generation, now);
    assert |LiveIds(t.leases, Generation(t), now)| == 0;
  }

  predicate NeverCleared(steps: seq<Step>) {
    forall k :: 0 <= k < |steps| ==> steps[k].action != Clear
  }

  lemma LockedHasNoLease(s: State, until: int)
    requires Invariant(s) && Locked(s, until)
    ensures LiveIds(s.leases, Generation(s), s.clock) == {}
  {
    assert |LiveIds(s.leases, Generation(s), s.clock)| == 0;
  }

  lemma LockStepHolds(s: State, until: int, step: Step)
    requires Invariant(s) && Locked(s, until) && step.action != Clear && Next(s, step).clock < until
    ensures Next(s, step).row == s.row
  {
    LockedHasNoLease(s, until);
    if step.action.Fail? {
      var now := if step.now < s.clock then s.clock else step.now;
      LiveShrinks(s.leases, s.leases, Generation(s), s.clock, now);
      assert step.action.id !in LiveIds(s.leases, Generation(s), now);
    }
  }

  /** Until the lock ends nothing but clearing the bucket lets an attempt in: in
      every run the bucket stays locked and no lease is live. */
  lemma {:induction false} LockHolds(s: State, until: int, steps: seq<Step>)
    requires Invariant(s) && Locked(s, until) && NeverCleared(steps)
    requires Run(s, steps).clock < until
    ensures var t := Run(s, steps);
            && Locked(t, until) && t.row == s.row && Invariant(t)
            && LiveIds(t.leases, Generation(t), t.clock) == {}
            && forall now :: t.clock <= now < until ==> ReserveOutcome(t, now).Throttled?
  {
    RunKeeps(s, steps);
    if |steps| > 0 {
      var before := steps[..|steps| - 1];
      RunKeeps(s, before);
      NextKeeps(Run(s, before), steps[|steps| - 1]);
      assert forall k :: 0 <= k < |before| ==> before[k] == steps[k];
      LockHolds(s, until, before);
      LockStepHolds(Run(s, before), until, steps[|steps| - 1]);
    }
    LockedHasNoLease(Run(s, steps), until);
  }

  /** Once the lock has ended the next attempt is granted, in a new generation
      with no failures. */
  lemma LockEnds(s: State, until: int, now: int)
    requires Invariant(s) && Locked(s, until) && now >= until && now >= s.clock
    ensures ReserveOutcome(s, now) == Granted(s.nextId, Generation(s) + 1)
    ensures Failures(AfterReserve(s, now)) == 0 && Generation(AfterReserve(s, now)) == Generation(s) + 1
  {
    assert LiveIds(s.leases, Generation(s) + 1, now) == {};
  }

  // ---- how long to wait ----

  /** Throttled by a delay, not by a lock or by attempts in progress. */
  predicate Delayed(s: State, now: int) {
    s.row.Some? && s.row.value.lockedUntil.None? && s.row.value.delayUntil.Some? && s.row.value.delayUntil.value > now
  }

  /** Throttled for its attempts in progress, a generation has one. */
  lemma SomeLeaseIsLive(s: State, now: int)
    requires Invariant(s)
        && RowOnReserve(s.row, now).failures + |LiveIds(s.leases, RowOnReserve(s.row, now).generation, now)| >= LIMIT
    requires !(ActiveUntil(s.row).Some? && ActiveUntil(s.row).value > now)
    ensures !LockExpired(s.row, now) && Failures(s) < LIMIT
    ensures LiveIds(s.leases, Generation(s), now) != {}
  {
    assert LiveIds(s.leases, Generation(s) + 1, now) == {};
    assert LiveIds(s.leases, Generation(s), now) == {} ==> |LiveIds(s.leases, Generation(s), now)| == 0;
  }

  /** The wait a throttled attempt is told is right: until a second before its end
      the bucket, left alone, refuses every attempt; at its end it grants one, unless
      after a delay the attempts in progress fill it. */
  lemma WaitIsRight(s: State, now: int, at: int)
    requires Invariant(s) && now >= s.clock && ReserveOutcome(s, now).Throttled?
    ensures var seconds := ReserveOutcome(s, now).seconds; var t := AfterReserve(s, now);
            && (now <= at <= now + 1000 * (seconds - 1) ==> ReserveOutcome(t, at).Throttled?)
            && (at == now + 1000 * seconds ==>
                  (ReserveOutcome(t, at).Granted? <==>
                     !Delayed(s, now) || Failures(s) + |LiveIds(s.leases, Generation(s), at)| < LIMIT))
  {
    var seconds := ReserveOutcome(s, now).seconds;
    var until := ActiveUntil(s.row);
    if until.Some? && until.value > now {
      if at == now + 1000 * seconds && !Delayed(s, now) {
        LockEnds(s, until.value, at);
      }
    } else {
      SomeLeaseIsLive(s, now);
      var live := LiveIds(s.leases, Generation(s), now);
      var first := Earliest(s.leases, live);
      if now <= at <= now + 1000 * (seconds - 1) {
        assert LiveIds(s.leases, Generation(s), at) == live;
      } else if at == now + 1000 * seconds {
        FirstRunsOut(s, now, at);
      }
    }
  }

  lemma FirstRunsOut(s: State, now: int, at: int)
    requires Invariant(s) && now >= s.clock && LiveIds(s.leases, Generation(s), now) != {}
    requires at >= Earliest(s.leases, LiveIds(s.leases, Generation(s), now))
    requires Earliest(s.leases, LiveIds(s.leases, Generation(s), now)) > now
    ensures Failures(s) + |LiveIds(s.leases, Generation(s), at)| < LIMIT
  {
    var live := LiveIds(s.leases, Generation(s), now);
    var id :| id in live && s.leases[id].expiresAt == Earliest(s.leases, live);
    LiveShrinks(s.leases, s.leases, Generation(s), s.clock, now);
    SmallerSet(LiveIds(s.leases, Generation(s), at), live - {id});
  }

  // ---- granting, failing and clearing, on the rows ----

  /** An attempt is granted exactly when no lock and no delay is running and, unless
      a lock has just ended, the failures and the attempts in progress leave room for
      one of ten. */
  lemma GrantedIff(s: State, now: int)
    requires Invariant(s) && now >= s.clock
    ensures ReserveOutcome(s, now).Granted? <==>
            || s.row.None?
            || (s.row.value.lockedUntil.Some? && s.row.value.lockedUntil.value <= now)
            || (s.row.value.lockedUntil.None?
                && (s.row.value.delayUntil.None? || s.row.value.delayUntil.value <= now)
                && s.row.value.failures
                   + |set id | id in s.leases && s.leases[id].generation == s.row.value.generation
                               && s.leases[id].expiresAt > now| < 10)
  {
    if s.row.Some? {
      var g := s.row.value.generation;
      assert LiveIds(s.leases, g + 1, now) == {};
      assert LiveIds(s.leases, g, now)
          == set id | id in s.leases && s.leases[id].generation == g && s.leases[id].expiresAt > now;
    } else {
      assert LiveIds(s.leases, 0, now) == {};
    }
  }

  /** A granted attempt counts as a failure for two minutes and no longer. */
  lemma GrantLasts(s: State, now: int, at: int)
    requires Invariant(s) && now >= s.clock && ReserveOutcome(s, now).Granted?
    ensures var t := AfterReserve(s, now); var granted := ReserveOutcome(s, now);
            && granted.id == s.nextId && s.nextId !in s.leases && granted.generation == Generation(t)
            && Failures(t) <= Failures(s)
            && Failures(AfterFail(t, granted.id, granted.generation, at))
               == Failures(t) + (if at < now + 120_000 then 1 else 0)
  {
    ReserveKeeps(s, now);
    var t := AfterReserve(s, now);
    var g := Generation(t);
    assert s.nextId in LiveIds(t.leases, g, now);
    FailuresBelow(t, s.nextId);
  }

  lemma FailuresBelow(t: State, id: nat)
    requires WithinLimit(t) && id in LiveIds(t.leases, Generation(t), t.clock)
    ensures Failures(t) < LIMIT
  {
  }

  /** The seconds a failure tells are right: until then every attempt is refused, and
      from then on one is granted, unless after a delay others in progress fill the
      bucket. */
  lemma FailWaitIsRight(s: State, id: nat, generation: nat, now: int, at: int)
    requires Invariant(s) && now >= s.clock && Counts(s, id, generation, now) && at >= now
    ensures var wait := FailWait(s, id, generation, now); var t := AfterFail(s, id, generation, now);
            && (at < now + 1000 * wait ==> ReserveOutcome(t, at).Throttled?)
            && (at >= now + 1000 * wait ==>
                  (ReserveOutcome(t, at).Granted? <==>
                     Failures(t) == 10 || Failures(t) + |LiveIds(t.leases, Generation(t), at)| < 10))
  {
    var t := AfterFail(s, id, generation, now);
    FailKeeps(s, id, generation, now);
    GrantedIff(t, at);
    assert LiveIds(t.leases, Generation(t), at)
        == set i | i in t.leases && t.leases[i].generation == Generation(t) && t.leases[i].expiresAt > at;
  }

  /** Releasing settles the attempt and nothing else: the row and the other leases
      stay, so a bucket that was full has room for one more. */
  lemma ReleaseMakesRoom(s: State, id: nat, generation: nat, now: int)
    requires Invariant(s) && now >= s.clock && Counts(s, id, generation, now)
    ensures var t := AfterRelease(s, id, generation, now);
            && t.row == s.row && id !in t.leases
            && t.leases.Keys == s.leases.Keys - {id}
            && (forall other :: other in t.leases ==> t.leases[other] == s.leases[other])
            && |LiveIds(t.leases, Generation(t), now)| == |LiveIds(s.leases, Generation(s), now)| - 1
            && (s.row.value.delayUntil.None? || s.row.value.delayUntil.value <= now ==>
                  ReserveOutcome(t, now).Granted?)
  {
    var t := AfterRelease(s, id, generation, now);
    var before, after := LiveIds(s.leases, generation, now), LiveIds(t.leases, generation, now);
    assert id in before && after == before - {id};
    LiveShrinks(s.leases, s.leases, generation, s.clock, now);
    if s.row.value.lockedUntil.Some? {
      LockedIsEmpty(s, now);
    }
  }

  lemma LockedIsEmpty(s: State, now: int)
    requires Invariant(s) && now >= s.clock && s.row.Some? && s.row.value.lockedUntil.Some?
    ensures LiveIds(s.leases, Generation(s), now) == {}
  {
    LockedHasNoLease(s, s.row.value.lockedUntil.value);
    LiveShrinks(s.leases, s.leases, Generation(s), s.clock, now);
  }

  /** A clear forgives: no failure, no lease, no delay and no lock is left, in a new
      generation, and the next attempt is granted at any time. */
  lemma ClearForgives(s: State, now: int, at: int)
    requires Invariant(s) && now >= s.clock && at >= now
    ensures var t := AfterClear(s, now);
            && t.row == Some(Row(0, if s.row.None? then 1 else s.row.value.generation + 1, None, None))
            && t.leases == map[] && t.nextId == s.nextId
            && ReserveOutcome(t, at) == Granted(s.nextId, t.row.value.generation)
  {
    var t := AfterClear(s, now);
    assert LiveIds(t.leases, Generation(t), at) == {};
  }

  /** In every run after a clear no attempt granted before it changes the row. */
  lemma ClearSettles(s: State, now: int, steps: seq<Step>, id: nat, generation: nat, later: int)
    requires Invariant(s) && now >= s.clock && id < s.nextId
    ensures var u := Run(AfterClear(s, now), steps);
            AfterFail(u, id, generation, later).row == u.row && FailWait(u, id, generation, later) == 0
  {
    NextKeeps(s, Step(Clear, now));
    SettledNeverCounts(AfterClear(s, now), id, steps, generation, later);
  }

  /** So the first failure after a clear counts one and delays nothing. */
  lemma FirstFailureAfterClear(s: State, now: int, at: int, failed: int)
    requires Invariant(s) && now >= s.clock && now <= at <= failed < at + 120_000
    ensures var t := AfterReserve(AfterClear(s, now), at); var u := AfterFail(t, s.nextId, Generation(t), failed);
            && Failures(u) == 1 && FailWait(t, s.nextId, Generation(t), failed) == 0
            && u.row.value.delayUntil.None? && u.row.value.lockedUntil.None?
  {
    var c := AfterClear(s, now);
    NextKeeps(s, Step(Clear, now));
    ClearForgives(s, now, at);
    GrantLasts(c, at, failed);
  }

  // ---- the service over its rows ----

  class Bucket {
    var row: Option<Row>
    var leases: map<nat, Lease>
    var nextId: nat
    ghost var clock: int

    ghost function Contents(): State
      reads this
    {
      State(row, leases, nextId, clock)
    }

    ghost predicate Valid()
      reads this
    {
      Invariant(Contents())
    }

    constructor (ghost now: int)
      ensures Valid() && Contents() == Start(now)
    {
      row, leases, nextId, clock := None, map[], 0, now;
      new;
      assert LiveIds(leases, 0, now) == {};
    }

    method SetThrottle(failures: nat, generation: nat, delayUntil: Option<int>, lockedUntil: Option<int>)
      modifies this`row
      ensures row == Some(Row(failures, generation, delayUntil, lockedUntil))
    {
      row := Some(Row(failures, generation, delayUntil, lockedUntil));
    }

    /** A throttled attempt rolls everything back. */
    method ReserveAttempt(now: int) returns (r: Reserved)
      requires Valid() && now >= clock
      modifies this
      ensures Valid()
      ensures r == ReserveOutcome(old(Contents()), now) && Contents() == AfterReserve(old(Contents()), now)
    {
      ReserveKeeps(Contents(), now);
      clock := now;
      var until := ActiveUntil(row);
      if until.Some? && until.value > now {
        return Throttled(Seconds(until.value - now));
      }
      var savedRow, savedLeases := row, leases;
      var expiredLock := row.Some? && row.value.lockedUntil.Some? && row.value.lockedUntil.value <= now;
      var failures := if expiredLock || row.None? then 0 else row.value.failures;
      var generation := (if row.Some? then row.value.generation else 0) + (if expiredLock then 1 else 0);
      SetThrottle(failures, generation, if row.Some? then row.value.delayUntil else None,
        if expiredLock || row.None? then None else row.value.lockedUntil);
      leases := DiscardStale(leases, generation, now);
      var active := LiveIds(leases, generation, now);
      assert active == LiveIds(savedLeases, generation, now);
      if failures + |active| >= LIMIT {
        row, leases := savedRow, savedLeases;
        var seconds: nat := 1;
        if active != {} {
          var first := EarliestExpiry(active);
          seconds := Seconds(first - now);
        }
        return Throttled(seconds);
      }
      var id := nextId;
      nextId := nextId + 1;
      leases := leases[id := Lease(generation, now + LEASE)];
      return Granted(id, generation);
    }

    /** The minimum of the expiry times. */
    method EarliestExpiry(ids: set<nat>) returns (t: int)
      requires ids != {} && ids <= leases.Keys
      ensures t == Earliest(leases, ids)
    {
      var id :| id in ids;
      t := leases[id].expiresAt;
      var rest := ids - {id};
      while rest != {}
        invariant rest <= ids
        invariant exists j :: j in ids && leases[j].expiresAt == t
        invariant forall j :: j in ids - rest ==> t <= leases[j].expiresAt
        decreases |rest|
      {
        var next :| next in rest;
        if leases[next].expiresAt < t {
          t := leases[next].expiresAt;
        }
        rest := rest - {next};
      }
    }

    /** Deletes the lease if it is live; whether it was. */
    method ConsumeActive(id: nat, generation: nat, now: int) returns (owned: bool)
      modifies this`leases
      ensures owned == (id in old(leases) && Live(old(leases)[id], generation, now))
      ensures leases == if owned then old(leases) - {id} else old(leases)
    {
      owned := id in leases && Live(leases[id], generation, now);
      if owned {
        leases := leases - {id};
      }
    }

    method Delete(id: nat, generation: nat)
      modifies this`leases
      ensures leases == Without(old(leases), id, generation)
    {
      leases := Without(leases, id, generation);
    }

    method FinalizeFailure(id: nat, generation: nat, now: int) returns (wait: nat)
      requires Valid() && now >= clock
      modifies this
      ensures Valid()
      ensures wait == FailWait(old(Contents()), id, generation, now)
      ensures Contents() == AfterFail(old(Contents()), id, generation, now)
    {
      FailKeeps(Contents(), id, generation, now);
      clock := now;
      var owned := ConsumeActive(id, generation, now);
      if !owned {
        Delete(id, generation);
        return 0;
      }
      if row.None? || row.value.generation != generation {
        return 0;
      }
      var next := NextThrottle(row.value.failures, generation, now);
      SetThrottle(next.0.failures, generation, next.0.delayUntil, next.0.lockedUntil);
      return next.1;
    }

    method ReleaseAttempt(id: nat, generation: nat, now: int)
      requires Valid() && now >= clock
      modifies this
      ensures Valid()
      ensures Contents() == AfterRelease(old(Contents()), id, generation, now)
    {
      LiveShrinks(leases, Without(leases, id, generation), Generation(Contents()), clock, now);
      clock := now;
      Delete(id, generation);
    }

    method ClearThrottle(now: int)
      requires Valid() && now >= clock
      modifies this
      ensures Valid()
      ensures Contents() == AfterClear(old(Contents()), now)
    {
      clock := now;
      row := Some(if row.None? then Row(0, 1, None, None) else Row(0, row.value.generation + 1, None, None));
      leases := map[];
      assert LiveIds(leases, row.value.generation, now) == {};
    }
  }
}
