/** What confirming and reversing do to the balances of collection items. The
    service reads all items once, before its loop, and writes absolute balances
    from that snapshot; `Consume` and `Release` read what the loop wrote before. */
module SettlementBalances {
  import opened Settlement
  import opened Sums
  import opened Foundation

  function LineShare(i: nat): Line -> int { (l: Line) => if l.item == i then l.amount else 0 }

  /** What the lines take from item `i`. */
  function Share(lines: seq<Line>, i: nat): int { SumBy(lines, LineShare(i)) }

  predicate AmountsPositive(lines: seq<Line>) {
    forall k :: 0 <= k < |lines| ==> lines[k].amount > 0
  }

  /** The confirmation loop as written: balances from the locked snapshot, the
      version counted up in the row. */
  function SnapshotConsume(locked: seq<Item>, lines: seq<Line>): (r: seq<Item>)
    requires LinesFound(locked, lines)
    ensures |r| == |locked|
  {
    if |lines| == 0 then locked
    else
      var n := |lines| - 1;
      var before := SnapshotConsume(locked, lines[..n]);
      var i := lines[n].item;
      before[i := Consumed(locked[i], lines[n].amount, before[i].version)]
  }

  /** The reversal loop as written. */
  function SnapshotRelease(locked: seq<Item>, lines: seq<Line>): (r: seq<Item>)
    requires LinesFound(locked, lines)
    ensures |r| == |locked|
  {
    if |lines| == 0 then locked
    else
      var n := |lines| - 1;
      var before := SnapshotRelease(locked, lines[..n]);
      var i := lines[n].item;
      before[i := Released(locked[i], lines[n].amount, before[i].version)]
  }

  // ---- one item, one line ----

  predicate Untouched(lines: seq<Line>, i: nat) {
    forall k :: 0 <= k < |lines| ==> lines[k].item != i
  }

  lemma {:induction false} ConsumeUntouched(items: seq<Item>, lines: seq<Line>, i: nat)
    requires LinesFound(items, lines) && i < |items| && Untouched(lines, i)
    ensures Consume(items, lines)[i] == SnapshotConsume(items, lines)[i] == items[i]
    ensures Release(items, lines)[i] == SnapshotRelease(items, lines)[i] == items[i]
    ensures Share(lines, i) == 0
  {
    if |lines| > 0 {
      ConsumeUntouched(items, lines[..|lines| - 1], i);
    }
  }

  /** With pairwise distinct items every item is written once, from its own row. */
  lemma {:induction false} ConsumeLine(items: seq<Item>, lines: seq<Line>, k: nat)
    requires LinesFound(items, lines) && DistinctItems(lines) && k < |lines|
    ensures var i := lines[k].item; var item, amount := items[i], lines[k].amount;
            && Consume(items, lines)[i] == SnapshotConsume(items, lines)[i] == Consumed(item, amount, item.version)
            && Release(items, lines)[i] == SnapshotRelease(items, lines)[i] == Released(item, amount, item.version)
            && Share(lines, i) == amount
  {
    var n := |lines| - 1;
    if k < n {
      ConsumeLine(items, lines[..n], k);
    } else {
      ConsumeUntouched(items, lines[..n], lines[n].item);
    }
  }

  predicate Touched(lines: seq<Line>, i: nat) {
    exists k :: 0 <= k < |lines| && lines[k].item == i
  }

  /** Exactness of the snapshot loops on distinct items. */
  lemma SnapshotExact(items: seq<Item>, lines: seq<Line>)
    requires LinesFound(items, lines) && DistinctItems(lines)
    ensures SnapshotConsume(items, lines) == Consume(items, lines)
    ensures SnapshotRelease(items, lines) == Release(items, lines)
  {
    forall i | 0 <= i < |items|
      ensures SnapshotConsume(items, lines)[i] == Consume(items, lines)[i]
      ensures SnapshotRelease(items, lines)[i] == Release(items, lines)[i]
    {
      if Touched(lines, i) {
        var k :| 0 <= k < |lines| && lines[k].item == i;
        ConsumeLine(items, lines, k);
      } else {
        ConsumeUntouched(items, lines, i);
      }
    }
  }

  lemma {:induction false} SharePositive(lines: seq<Line>, i: nat)
    requires AmountsPositive(lines)
    ensures Share(lines, i) >= 0 && (Touched(lines, i) <==> Share(lines, i) > 0)
  {
    if |lines| > 0 {
      var n := |lines| - 1;
      SharePositive(lines[..n], i);
      if Touched(lines[..n], i) {
        var k :| 0 <= k < n && lines[..n][k].item == i;
        assert lines[k].item == i;
      }
      if lines[n].item != i && Touched(lines, i) {
        var k :| 0 <= k < |lines| && lines[k].item == i;
        assert lines[..n][k].item == i;
      }
    }
  }

  /** The snapshot loop never takes more than the lines' share from an item, and
      takes less as soon as two lines name the item. */
  lemma {:induction false} SnapshotLoses(items: seq<Item>, lines: seq<Line>, i: nat)
    requires LinesFound(items, lines) && AmountsPositive(lines) && i < |items|
    ensures var got := SnapshotConsume(items, lines)[i].allocatedAmount;
            && got <= items[i].allocatedAmount + Share(lines, i)
            && (got == items[i].allocatedAmount + Share(lines, i) <==>
                forall j, k :: 0 <= j < k < |lines| && lines[j].item == i ==> lines[k].item != i)
  {
    if |lines| > 0 {
      var n := |lines| - 1;
      var before := lines[..n];
      SnapshotLoses(items, before, i);
      SharePositive(before, i);
      if lines[n].item == i {
        if Touched(before, i) {
          var j :| 0 <= j < n && before[j].item == i;
          assert lines[j].item == i;
        }
      } else {
        assert forall j, k :: 0 <= j < k < n ==> before[j] == lines[j] && before[k] == lines[k];
      }
    }
  }

  /** The snapshot loop gives every item its share exactly when no item has two
      lines. */
  lemma SnapshotExactIffDistinct(items: seq<Item>, lines: seq<Line>)
    requires LinesFound(items, lines) && AmountsPositive(lines)
    ensures DistinctItems(lines) <==>
            forall i :: 0 <= i < |items| ==>
              SnapshotConsume(items, lines)[i].allocatedAmount == items[i].allocatedAmount + Share(lines, i)
  {
    forall i | 0 <= i < |items|
      ensures SnapshotConsume(items, lines)[i].allocatedAmount == items[i].allocatedAmount + Share(lines, i) <==>
              forall j, k :: 0 <= j < k < |lines| && lines[j].item == i ==> lines[k].item != i
    {
      SnapshotLoses(items, lines, i);
    }
    if j, k :| 0 <= j < k < |lines| && lines[j].item == lines[k].item {
      var i := lines[j].item;
      assert SnapshotConsume(items, lines)[i].allocatedAmount != items[i].allocatedAmount + Share(lines, i);
    }
  }

  // ---- the length check ----

  lemma LockedItemsStep(items: seq<Item>, lines: seq<Line>)
    requires LinesFound(items, lines) && |lines| > 0
    ensures LockedItems(items, lines) == LockedItems(items, lines[..|lines| - 1]) + {lines[|lines| - 1].item}
  {
    var n := |lines| - 1;
    forall i | i in LockedItems(items, lines)
      ensures i in LockedItems(items, lines[..n]) + {lines[n].item}
    {
      var k :| 0 <= k < |lines| && lines[k].item == i;
      assert k < n ==> lines[..n][k].item == i;
    }
    forall i | i in LockedItems(items, lines[..n]) + {lines[n].item}
      ensures i in LockedItems(items, lines)
    {
      if i != lines[n].item {
        var k :| 0 <= k < n && lines[..n][k].item == i;
        assert lines[k].item == i;
      }
    }
  }

  lemma DistinctStep(lines: seq<Line>)
    requires |lines| > 0
    ensures var n := |lines| - 1;
            DistinctItems(lines) <==> DistinctItems(lines[..n]) && Untouched(lines[..n], lines[n].item)
  {
    var n := |lines| - 1;
    if DistinctItems(lines[..n]) && Untouched(lines[..n], lines[n].item) {
      forall j, k | 0 <= j < k < |lines|
        ensures lines[j].item != lines[k].item
      {
        assert lines[..n][j].item != lines[n].item;
        assert k < n ==> lines[..n][k] == lines[k];
      }
    }
    if DistinctItems(lines) {
      forall j | 0 <= j < n
        ensures lines[..n][j].item != lines[n].item
      {
        assert lines[j].item != lines[n].item;
      }
    }
  }

  /** As many locked items as lines means: no item has two lines. */
  lemma {:induction false} LengthCheckForcesDistinct(items: seq<Item>, lines: seq<Line>)
    requires LinesFound(items, lines)
    ensures |LockedItems(items, lines)| <= |lines|
    ensures |LockedItems(items, lines)| == |lines| <==> DistinctItems(lines)
  {
    if |lines| == 0 {
      assert LockedItems(items, lines) == {};
    } else {
      var n := |lines| - 1;
      var before := LockedItems(items, lines[..n]);
      LengthCheckForcesDistinct(items, lines[..n]);
      LockedItemsStep(items, lines);
      DistinctStep(lines);
      if lines[n].item in before {
        assert LockedItems(items, lines) == before;
      } else {
        assert Untouched(lines[..n], lines[n].item);
      }
    }
  }

  // ---- totals ----

  function LineAmount(): Line -> int { (l: Line) => l.amount }

  /** An item's part in what one account holds settled in one currency. */
  function Settled(account: nat, currency: Currency): Item -> int {
    (i: Item) => if i.payload.account == account && i.payload.currency == currency then i.allocatedAmount else 0
  }

  predicate OneAccount(items: seq<Item>, lines: seq<Line>, account: nat, currency: Currency)
    requires LinesFound(items, lines)
  {
    forall k :: 0 <= k < |lines| ==>
      items[lines[k].item].payload.account == account && items[lines[k].item].payload.currency == currency
  }

  lemma {:induction false} PayloadsKept(items: seq<Item>, lines: seq<Line>, i: nat)
    requires LinesFound(items, lines) && i < |items|
    ensures Consume(items, lines)[i].payload == Release(items, lines)[i].payload == items[i].payload
    ensures Consume(items, lines)[i].source == Release(items, lines)[i].source == items[i].source
    ensures Consume(items, lines)[i].version >= items[i].version && Release(items, lines)[i].version >= items[i].version
  {
    if |lines| > 0 {
      PayloadsKept(items, lines[..|lines| - 1], i);
      PayloadsKept(items, lines[..|lines| - 1], lines[|lines| - 1].item);
    }
  }

  lemma {:induction false} TotalMoved(items: seq<Item>, lines: seq<Line>, account: nat, currency: Currency, a: nat,
      c: Currency)
    requires LinesFound(items, lines) && OneAccount(items, lines, account, currency)
    ensures var moved := if a == account && c == currency then SumBy(lines, LineAmount()) else 0;
            && SumBy(Consume(items, lines), Settled(a, c)) == SumBy(items, Settled(a, c)) + moved
            && SumBy(Release(items, lines), Settled(a, c)) == SumBy(items, Settled(a, c)) - moved
  {
    if |lines| > 0 {
      var n := |lines| - 1;
      var before, l := lines[..n], lines[n];
      TotalMoved(items, before, account, currency, a, c);
      PayloadsKept(items, before, l.item);
      var consumed, released := Consume(items, before), Release(items, before);
      SumUpdate(consumed, l.item, Consumed(consumed[l.item], l.amount, consumed[l.item].version), Settled(a, c));
      SumUpdate(released, l.item, Released(released[l.item], l.amount, released[l.item].version), Settled(a, c));
    }
  }
}
