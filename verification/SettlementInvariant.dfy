/** What holds of the settlement tables after every run: the balances of items,
    the life of batches, and the effects recorded for them. */
module SettlementInvariant {
  import opened Common
  import opened Foundation
  import opened Settlement
  import opened SettlementBalances
  import opened Sums

  // ---- items ----

  function ConfirmedLine(i: nat): Line -> int {
    (l: Line) => if l.item == i && l.state == LineState.CONFIRMED then l.amount else 0
  }

  function ConfirmedIn(i: nat): Batch -> int { (b: Batch) => SumBy(b.lines, ConfirmedLine(i)) }

  /** The sum of the confirmed allocations of item `i` over all batches. */
  function ConfirmedShares(batches: seq<Batch>, i: nat): int { SumBy(batches, ConfirmedIn(i)) }

  /** The state the balances and the history of an item dictate. */
  function DictatedState(item: Item): ItemState {
    if item.remainingAmount == 0 then SETTLED
    else if item.allocatedAmount > 0 then PARTIALLY_ALLOCATED
    else if item.version == 0 then ItemState.OPEN
    else REOPENED_AFTER_REVERSAL
  }

  predicate ItemOk(s: State, i: nat)
    requires i < |s.items|
  {
    var item := s.items[i];
    && item.payload.gross > 0
    && item.allocatedAmount >= 0 && item.remainingAmount >= 0
    && item.allocatedAmount + item.remainingAmount == item.payload.gross
    && item.allocatedAmount == ConfirmedShares(s.batches, i)
    && item.state == DictatedState(item)
  }

  // ---- batches ----

  predicate LinesFit(items: seq<Item>, batch: Batch) {
    && LinesFound(items, batch.lines) && DistinctItems(batch.lines) && AmountsPositive(batch.lines)
    && OneAccount(items, batch.lines, batch.account, batch.currency)
    && forall k :: 0 <= k < |batch.lines| ==>
         && batch.lines[k].currency == batch.currency
         && batch.lines[k].itemVersion <= items[batch.lines[k].item].version
  }

  predicate FiguresFit(batch: Batch) {
    && batch.gross > 0 && batch.fee >= 0 && batch.deduction >= 0 && batch.expectedNet > 0 && batch.actualNet > 0
    && batch.gross - batch.fee - batch.deduction == batch.expectedNet
    && batch.actualNet - batch.expectedNet == batch.discrepancy
    && (batch.discrepancy == 0 <==> batch.disposition == Disposition.NONE)
    && (batch.discrepancy == 0 <==> batch.reason.None?)
  }

  predicate AllLines(batch: Batch, state: LineState) {
    forall k :: 0 <= k < |batch.lines| ==> batch.lines[k].state == state
  }

  /** The effects written when the batch was confirmed. */
  function WrittenEffects(batch: Batch, movement: nat): seq<Effect> {
    SettlementEffects(batch.(version := 0), movement)
  }

  predicate HasSettlementEffects(movements: seq<Movement>, b: nat, batch: Batch) {
    && |batch.effects| > 0 && batch.effects[0].movement.Some?
    && var m := batch.effects[0].movement.value;
    && m < |movements| && movements[m] == CreditMovement(b, batch)
    && batch.effects == WrittenEffects(batch, m)
  }

  predicate Approved(batch: Batch) {
    batch.discrepancy == 0 || batch.disposition == APPROVED_DIFFERENCE
  }

  predicate ConfirmedBySomeoneElse(batch: Batch) {
    batch.confirmedBy.Some? && batch.confirmedBy.value != batch.creator
  }

  predicate ReversedBySomeoneElse(batch: Batch) {
    && batch.reversedBy.Some? && batch.reversedBy.value != batch.creator
    && batch.reversedBy != batch.confirmedBy
  }

  predicate ProposalOk(batch: Batch) {
    && (batch.state == MATCHED <==> batch.discrepancy == 0)
    && batch.version == 0 && batch.confirmedBy.None? && batch.reversedBy.None?
    && batch.effects == [] && AllLines(batch, LineState.PROPOSED)
  }

  predicate ConfirmedOk(movements: seq<Movement>, b: nat, batch: Batch) {
    && batch.version == 1 && Approved(batch) && ConfirmedBySomeoneElse(batch) && batch.reversedBy.None?
    && AllLines(batch, LineState.CONFIRMED) && HasSettlementEffects(movements, b, batch)
  }

  predicate ReversedOk(movements: seq<Movement>, b: nat, batch: Batch) {
    && batch.version == 2 && Approved(batch) && ConfirmedBySomeoneElse(batch) && ReversedBySomeoneElse(batch)
    && AllLines(batch, LineState.REVERSED) && HasSettlementEffects(movements, b, batch)
  }

  /** A reversal copies the figures of its original and mirrors its effects. */
  predicate ReversalOk(s: State, r: nat)
    requires r < |s.batches|
  {
    var batch := s.batches[r];
    && batch.lines == [] && batch.version == 0 && batch.confirmedBy.None? && batch.reversedBy.None?
    && batch.replacementFor.None?
    && batch.reversalOf.Some? && batch.reversalOf.value < r
    && var o := batch.reversalOf.value; var original := s.batches[o];
    && original.state == BatchState.REVERSED
    && batch.account == original.account && batch.currency == original.currency
    && batch.gross == original.gross && batch.fee == original.fee && batch.deduction == original.deduction
    && batch.expectedNet == original.expectedNet && batch.actualNet == original.actualNet
    && batch.discrepancy == original.discrepancy && Some(batch.creator) == original.reversedBy
    && |batch.effects| > 0 && batch.effects[0].movement.Some? && |original.effects| > 0
    && var m := batch.effects[0].movement.value;
    && m < |s.movements| && s.movements[m] == DebitMovement(r, batch.account, original.effects[0], batch.date)
    && batch.effects == MirrorEffects(o, original.effects, batch.date, m)
  }

  predicate OriginalOk(s: State, b: nat)
    requires b < |s.batches|
  {
    var batch := s.batches[b];
    && |batch.lines| > 0 && SumBy(batch.lines, LineAmount()) == batch.gross && batch.reversalOf.None?
    && (batch.state == BatchState.CONFIRMED ==> ConfirmedOk(s.movements, b, batch))
    && (batch.state == BatchState.REVERSED ==> ReversedOk(s.movements, b, batch))
    && (Proposed(batch) ==> ProposalOk(batch))
  }

  predicate Proposed(batch: Batch) { batch.state == MATCHED || batch.state == DISCREPANCY }

  predicate BatchOk(s: State, b: nat)
    requires b < |s.batches|
  {
    var batch := s.batches[b];
    && LinesFit(s.items, batch) && FiguresFit(batch)
    && if batch.state == BatchState.REVERSAL then ReversalOk(s, b) else OriginalOk(s, b)
  }

  // ---- across batches ----

  /** Once confirmed, a line has used up the version of its item it was proposed for. */
  predicate Spent(batch: Batch) { batch.state == BatchState.CONFIRMED || batch.state == BatchState.REVERSED }

  predicate SpentBelow(items: seq<Item>, batch: Batch) {
    Spent(batch) ==> forall k :: 0 <= k < |batch.lines| ==>
      batch.lines[k].item < |items| && batch.lines[k].itemVersion < items[batch.lines[k].item].version
  }

  predicate SpentApart(x: Batch, y: Batch) {
    Spent(x) && Spent(y) ==> forall j, k :: 0 <= j < |x.lines| && 0 <= k < |y.lines| ==>
      !(x.lines[j].item == y.lines[k].item && x.lines[j].itemVersion == y.lines[k].itemVersion)
  }

  /** No two confirmed proposals were made against the same version of an item. */
  predicate SpentOnce(s: State) {
    && (forall b :: 0 <= b < |s.batches| ==> SpentBelow(s.items, s.batches[b]))
    && forall a, b :: 0 <= a < b < |s.batches| ==> SpentApart(s.batches[a], s.batches[b])
  }

  /** Every reversed batch has exactly one reversal; a batch is replaced at most once. */
  predicate OneReversalEach(s: State) {
    && (forall a, b :: 0 <= a < b < |s.batches| && s.batches[a].reversalOf.Some? ==>
          s.batches[a].reversalOf != s.batches[b].reversalOf)
    && forall o :: 0 <= o < |s.batches| && s.batches[o].state == BatchState.REVERSED ==> HasReversal(s, o)
  }

  predicate HasReversal(s: State, o: nat) {
    exists r :: 0 <= r < |s.batches| && s.batches[r].reversalOf == Some(o)
  }

  predicate OneReplacementEach(s: State) {
    forall a, b :: 0 <= a < b < |s.batches| && s.batches[a].replacementFor.Some? ==>
      s.batches[a].replacementFor != s.batches[b].replacementFor
  }

  /** One item per source, one per provider reference. */
  predicate OneItemEach(s: State) {
    forall i, j :: 0 <= i < j < |s.items| ==>
      s.items[i].source != s.items[j].source && !SameProviderIdentity(s.items[i].payload, s.items[j].payload)
  }

  predicate Invariant(s: State) {
    && (forall i :: 0 <= i < |s.items| ==> ItemOk(s, i))
    && (forall b :: 0 <= b < |s.batches| ==> BatchOk(s, b))
    && SpentOnce(s) && OneReversalEach(s) && OneReplacementEach(s) && OneItemEach(s)
  }

  // ---- history ----

  predicate SameLine(x: Line, y: Line) { x.(state := y.state) == y }

  predicate SameTerms(x: Batch, y: Batch) {
    && x.(state := y.state, confirmedBy := y.confirmedBy, reversedBy := y.reversedBy, version := y.version,
          lines := y.lines, effects := y.effects) == y
    && |x.lines| == |y.lines|
    && forall k :: 0 <= k < |x.lines| ==> SameLine(x.lines[k], y.lines[k])
  }

  /** A row only moves on with a higher version; its terms never change and its
      effects are written once. */
  predicate Progress(x: Batch, y: Batch) {
    && SameTerms(x, y) && x.version <= y.version && (x.version == y.version ==> x == y)
    && (x.effects != [] ==> y.effects == x.effects)
  }

  predicate ItemProgress(x: Item, y: Item) {
    x.source == y.source && x.payload == y.payload && x.version <= y.version && (x.version == y.version ==> x == y)
  }

  predicate Extends(s: State, t: State) {
    && |s.items| <= |t.items| && (forall i :: 0 <= i < |s.items| ==> ItemProgress(s.items[i], t.items[i]))
    && |s.batches| <= |t.batches| && (forall b :: 0 <= b < |s.batches| ==> Progress(s.batches[b], t.batches[b]))
    && s.movements <= t.movements
  }

  lemma ExtendsTransitive(s: State, t: State, u: State)
    requires Extends(s, t) && Extends(t, u)
    ensures Extends(s, u)
  {
    forall b | 0 <= b < |s.batches|
      ensures Progress(s.batches[b], u.batches[b])
    {
      var x, y, z := s.batches[b], t.batches[b], u.batches[b];
      forall k | 0 <= k < |x.lines|
        ensures SameLine(x.lines[k], z.lines[k])
      {
        assert SameLine(x.lines[k], y.lines[k]) && SameLine(y.lines[k], z.lines[k]);
      }
    }
  }

  /** A finished or untouched batch row stays in order when the tables grow. */
  lemma BatchKept(s: State, t: State, b: nat)
    requires b < |s.batches| && BatchOk(s, b) && Extends(s, t) && t.batches[b] == s.batches[b]
    requires forall a :: 0 <= a < |s.batches| && s.batches[a].state == BatchState.REVERSED ==>
        t.batches[a] == s.batches[a]
    ensures BatchOk(t, b)
  {
    var batch := s.batches[b];
    forall k | 0 <= k < |batch.lines|
      ensures t.items[batch.lines[k].item].payload == s.items[batch.lines[k].item].payload
      ensures batch.lines[k].itemVersion <= t.items[batch.lines[k].item].version
    {
      assert ItemProgress(s.items[batch.lines[k].item], t.items[batch.lines[k].item]);
    }
    assert LinesFit(t.items, batch);
    if batch.state == BatchState.REVERSAL {
      var m := batch.effects[0].movement.value;
      assert t.movements[m] == s.movements[m];
    } else if Spent(batch) {
      var m := batch.effects[0].movement.value;
      assert t.movements[m] == s.movements[m];
    }
  }
}
