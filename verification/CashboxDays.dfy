/** The rows of one cashbox date: cycles 1, 2, ..., each linked to the one before,
    all but the last closed, and a closed row never written again. */
module CashboxDays {
  import opened Common
  import opened Cashbox

  predicate SameKey(x: Day, y: Day) { x.box == y.box && x.date == y.date }

  /** Row `i` continues the last row before it of the same cashbox and date. */
  predicate Linked(days: seq<Day>, i: nat)
    requires i < |days|
  {
    var p := Latest(days[..i], days[i].box, days[i].date);
    if p.None? then days[i].prior.None? && days[i].cycle == 1
    else
      && days[i].prior == p && days[i].cycle == days[p.value].cycle + 1
      && days[p.value].state == CLOSED
  }

  /** A row is born reopened (with a prior row) at version 1, or closed as the
      first one at version 1; closing a reopened row makes it version 2. */
  predicate RowOk(d: Day) {
    match d.state
    case REOPENED => d.prior.Some? && d.version == 1 && d.number.None? && d.closedBy.None? && d.approval.Some?
    case CLOSED => d.number.Some? && d.closedBy.Some? && d.version == (if d.prior.Some? then 2 else 1)
  }

  predicate DaysOk(days: seq<Day>) {
    forall i :: 0 <= i < |days| ==> Linked(days, i) && RowOk(days[i])
  }

  /** What may happen to a row: nothing, or its one close. */
  predicate DayProgress(x: Day, y: Day) {
    && SameKey(x, y) && x.cycle == y.cycle && x.prior == y.prior
    && (x == y || (x.state == REOPENED && y.state == CLOSED && y.version == x.version + 1))
  }

  predicate DaysExtend(x: seq<Day>, y: seq<Day>) {
    |x| <= |y| && forall i :: 0 <= i < |x| ==> DayProgress(x[i], y[i])
  }

  // ---- the latest row ----

  lemma {:induction false} LatestOfSame(x: seq<Day>, y: seq<Day>, box: nat, date: int)
    requires |x| == |y| && forall i :: 0 <= i < |x| ==> SameKey(x[i], y[i]) && x[i].cycle == y[i].cycle
    ensures Latest(x, box, date) == Latest(y, box, date)
  {
    if |x| > 0 {
      var n := |x| - 1;
      assert SameKey(x[n], y[n]);
      LatestOfSame(x[..n], y[..n], box, date);
    }
  }

  predicate IsLast(days: seq<Day>, r: Option<nat>, box: nat, date: int) {
    && (r.None? ==> forall k :: 0 <= k < |days| ==> !(days[k].box == box && days[k].date == date))
    && (r.Some? ==>
          && r.value < |days| && days[r.value].box == box && days[r.value].date == date
          && forall k :: r.value < k < |days| ==> !(days[k].box == box && days[k].date == date))
  }

  /** In linked rows the row of the highest cycle is the last one of its key. */
  lemma {:induction false} LatestIsLast(days: seq<Day>, box: nat, date: int)
    requires forall i :: 0 <= i < |days| ==> Linked(days, i)
    ensures IsLast(days, Latest(days, box, date), box, date)
  {
    if |days| > 0 {
      var n := |days| - 1;
      PrefixLinked(days, n);
      LatestIsLast(days[..n], box, date);
      assert Linked(days, n);
      var best := Latest(days[..n], box, date);
      assert forall k :: 0 <= k < n ==> days[..n][k] == days[k];
    }
  }

  lemma LatestExists(days: seq<Day>, k: nat)
    requires DaysOk(days) && k < |days|
    ensures Latest(days, days[k].box, days[k].date).Some?
  {
    LatestIsLast(days, days[k].box, days[k].date);
  }

  lemma PrefixLinked(days: seq<Day>, n: nat)
    requires n <= |days| && forall i :: 0 <= i < |days| ==> Linked(days, i)
    ensures forall i :: 0 <= i < n ==> Linked(days[..n], i)
  {
    forall i | 0 <= i < n
      ensures Linked(days[..n], i)
    {
      assert Linked(days, i);
      assert days[..n][..i] == days[..i];
    }
  }

  // ---- the two writes ----

  lemma DaysAfterUpdate(days: seq<Day>, at: nat, row: Day)
    requires DaysOk(days) && at < |days| && DayProgress(days[at], row) && RowOk(row)
    ensures DaysOk(days[at := row]) && DaysExtend(days, days[at := row])
  {
    var after := days[at := row];
    forall i | 0 <= i < |after|
      ensures Linked(after, i) && RowOk(after[i])
    {
      assert Linked(days, i) && RowOk(days[i]);
      LatestOfSame(days[..i], after[..i], days[i].box, days[i].date);
    }
  }

  lemma DaysAfterInsert(days: seq<Day>, row: Day)
    requires DaysOk(days) && RowOk(row)
    requires var latest := Latest(days, row.box, row.date);
             row.prior == latest && if latest.None? then row.cycle == 1
             else row.cycle == days[latest.value].cycle + 1 && days[latest.value].state == CLOSED
    ensures DaysOk(days + [row]) && DaysExtend(days, days + [row])
  {
    var after := days + [row];
    forall i | 0 <= i < |after|
      ensures Linked(after, i) && RowOk(after[i])
    {
      assert i < |days| ==> Linked(days, i) && RowOk(days[i]);
      assert after[..i] == days[..i];
      assert days[..|days|] == days;
    }
  }

  lemma DaysExtendTransitive(x: seq<Day>, y: seq<Day>, z: seq<Day>)
    requires DaysExtend(x, y) && DaysExtend(y, z)
    ensures DaysExtend(x, z)
  {
    forall i | 0 <= i < |x|
      ensures DayProgress(x[i], z[i])
    {
      assert DayProgress(x[i], y[i]) && DayProgress(y[i], z[i]);
    }
  }

  // ---- the chain of one cashbox date ----

  /** The row ids of a cashbox date, oldest first. */
  function Chain(days: seq<Day>, box: nat, date: int): (r: seq<nat>)
    ensures forall k :: 0 <= k < |r| ==> r[k] < |days| && days[r[k]].box == box && days[r[k]].date == date
    ensures forall j, k :: 0 <= j < k < |r| ==> r[j] < r[k]
  {
    if |days| == 0 then []
    else
      var n := |days| - 1;
      var before := Chain(days[..n], box, date);
      if days[n].box == box && days[n].date == date then before + [n] else before
  }

  lemma {:induction false} LatestEndsChain(days: seq<Day>, box: nat, date: int)
    requires forall i :: 0 <= i < |days| ==> Linked(days, i)
    ensures var c := Chain(days, box, date);
            Latest(days, box, date) == if |c| == 0 then None else Some(c[|c| - 1])
  {
    if |days| > 0 {
      var n := |days| - 1;
      PrefixLinked(days, n);
      LatestEndsChain(days[..n], box, date);
      assert Linked(days, n);
    }
  }

  predicate AllLinked(days: seq<Day>) {
    forall i :: 0 <= i < |days| ==> Linked(days, i)
  }

  /** Row k is cycle k + 1, linked to row k - 1, and closed unless it is the last. */
  predicate ChainRow(days: seq<Day>, c: seq<nat>, k: nat)
    requires k < |c| && forall j :: 0 <= j < |c| ==> c[j] < |days|
  {
    var d := days[c[k]];
    && d.cycle == k + 1
    && d.prior == (if k == 0 then None else Some(c[k - 1]))
    && (k < |c| - 1 ==> d.state == CLOSED)
  }

  /** The last row of the table continues the chain of the rows before it. */
  lemma LastContinues(days: seq<Day>, box: nat, date: int)
    requires AllLinked(days) && days != []
    ensures var n := |days| - 1; var b := Chain(days[..n], box, date);
            && AllLinked(days[..n])
            && (if days[n].box == box && days[n].date == date then
                  && Chain(days, box, date) == b + [n]
                  && days[n].prior == (if b == [] then None else Some(b[|b| - 1]))
                  && days[n].cycle == (if b == [] then 1 else days[b[|b| - 1]].cycle + 1)
                  && (b != [] ==> days[b[|b| - 1]].state == CLOSED)
                else Chain(days, box, date) == b)
  {
    var n := |days| - 1;
    PrefixLinked(days, n);
    LatestEndsChain(days[..n], box, date);
    assert Linked(days, n);
    hide Latest;
  }

  lemma {:induction false} ChainIsCycles(days: seq<Day>, box: nat, date: int, k: nat)
    requires AllLinked(days) && k < |Chain(days, box, date)|
    ensures ChainRow(days, Chain(days, box, date), k)
  {
    assert days != [];
    LastContinues(days, box, date);
    hide AllLinked, Latest, Chain;
    var before := days[..|days| - 1];
    var b := Chain(before, box, date);
    if k < |b| {
      ChainIsCycles(before, box, date, k);
      assert before[b[k]] == days[b[k]];
    } else if |b| > 0 {
      ChainIsCycles(before, box, date, |b| - 1);
      assert before[b[|b| - 1]] == days[b[|b| - 1]];
    }
  }

  /** Every row of the key is in the chain. */
  lemma {:induction false} ChainIsComplete(days: seq<Day>, box: nat, date: int, i: nat)
    requires i < |days| && days[i].box == box && days[i].date == date
    ensures i in Chain(days, box, date)
  {
    var n := |days| - 1;
    if i < n {
      ChainIsComplete(days[..n], box, date, i);
    }
  }
}
