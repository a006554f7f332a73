/** Every command keeps the invariant and only extends the history. */
module SettlementSteps {
  import opened Common
  import opened Settlement
  import opened SettlementBalances
  import opened SettlementInvariant
  import opened Sums

  // ---- confirmed shares ----

  lemma {:induction false} SharesOfMarked(lines: seq<Line>, i: nat)
    ensures SumBy(Marked(lines, LineState.CONFIRMED), ConfirmedLine(i)) == Share(lines, i)
    ensures SumBy(Marked(lines, LineState.REVERSED), ConfirmedLine(i)) == 0
  {
    if |lines| > 0 {
      var n := |lines| - 1;
      SharesOfMarked(lines[..n], i);
      assert Marked(lines, LineState.CONFIRMED)[..n] == Marked(lines[..n], LineState.CONFIRMED);
      assert Marked(lines, LineState.REVERSED)[..n] == Marked(lines[..n], LineState.REVERSED);
    }
  }

  lemma {:induction false} SharesByState(lines: seq<Line>, i: nat)
    ensures (forall k :: 0 <= k < |lines| ==> lines[k].state == LineState.CONFIRMED) ==>
        SumBy(lines, ConfirmedLine(i)) == Share(lines, i)
    ensures (forall k :: 0 <= k < |lines| ==> lines[k].state != LineState.CONFIRMED) ==>
        SumBy(lines, ConfirmedLine(i)) == 0
  {
    if |lines| > 0 {
      SharesByState(lines[..|lines| - 1], i);
    }
  }

  /** What a confirmation that goes through has been checked for. */
  lemma ConfirmFacts(s: State, c: Command, e: Evidence)
    requires Invariant(s) && ConfirmOutcome(s, c, e).Done?
    ensures c.batch < |s.batches| && BatchOk(s, c.batch) && Proposed(s.batches[c.batch])
    ensures LinesConfirmable(s.items, s.batches[c.batch]) && OriginalOk(s, c.batch)
    ensures Approved(s.batches[c.batch]) && s.batches[c.batch].creator != c.actor
  {
  }

  lemma ReverseFacts(s: State, c: Command, r: Reversal)
    requires Invariant(s) && ReverseOutcome(s, c, r).Done?
    ensures c.batch < |s.batches| && BatchOk(s, c.batch) && s.batches[c.batch].state == BatchState.CONFIRMED
    ensures s.batches[c.batch].creator != c.actor && s.batches[c.batch].confirmedBy != Some(c.actor)
    ensures ConfirmedOk(s.movements, c.batch, s.batches[c.batch])
  {
  }

  lemma SharesAfterConfirm(s: State, c: Command, e: Evidence, i: nat)
    requires Invariant(s) && ConfirmOutcome(s, c, e).Done?
    ensures ConfirmedShares(AfterConfirm(s, c, e).batches, i)
            == ConfirmedShares(s.batches, i) + Share(s.batches[c.batch].lines, i)
  {
    ConfirmFacts(s, c, e);
    hide Invariant, Consume, SettlementEffects, ConfirmOutcome, BatchOk, LinesConfirmable;
    var batch := s.batches[c.batch];
    SumUpdate(s.batches, c.batch, ConfirmedBatch(batch, c.actor, |s.movements|), ConfirmedIn(i));
    SharesOfMarked(batch.lines, i);
    SharesByState(batch.lines, i);
  }

  lemma SharesAfterReverse(s: State, c: Command, r: Reversal, i: nat)
    requires Invariant(s) && ReverseOutcome(s, c, r).Done?
    ensures ConfirmedShares(AfterReverse(s, c, r).batches, i)
            == ConfirmedShares(s.batches, i) - Share(s.batches[c.batch].lines, i)
  {
    ReverseFacts(s, c, r);
    hide Invariant, Release, MirrorEffects, MirrorMovements, ReverseOutcome, BatchOk, HasSettlementEffects;
    var batch := s.batches[c.batch];
    var updated := s.batches[c.batch := ReversedBatch(batch, c.actor)];
    var effects := MirrorEffects(c.batch, batch.effects, r.date, |s.movements|);
    SumUpdate(s.batches, c.batch, ReversedBatch(batch, c.actor), ConfirmedIn(i));
    SumPush(updated, ReversalBatch(c.batch, batch, c.actor, r, effects), ConfirmedIn(i));
    SharesOfMarked(batch.lines, i);
    SharesByState(batch.lines, i);
  }

  // ---- items ----

  lemma ConfirmKeepsItem(s: State, c: Command, e: Evidence, i: nat)
    requires Invariant(s) && ConfirmOutcome(s, c, e).Done? && i < |s.items|
    ensures ItemOk(AfterConfirm(s, c, e), i)
    ensures ItemProgress(s.items[i], AfterConfirm(s, c, e).items[i])
  {
    ConfirmFacts(s, c, e);
    SharesAfterConfirm(s, c, e, i);
    assert ItemOk(s, i);
    hide Invariant, Consume, SettlementEffects, ConfirmOutcome, ConfirmedShares;
    var lines := s.batches[c.batch].lines;
    if Touched(lines, i) {
      var k :| 0 <= k < |lines| && lines[k].item == i;
      ConsumeLine(s.items, lines, k);
      assert lines[k].amount <= s.items[i].remainingAmount;
    } else {
      ConsumeUntouched(s.items, lines, i);
    }
  }

  /** A confirmed batch's share is part of what its items have allocated. */
  lemma ShareIsAllocated(s: State, b: nat, i: nat)
    requires Invariant(s) && b < |s.batches| && s.batches[b].state == BatchState.CONFIRMED && i < |s.items|
    ensures Share(s.batches[b].lines, i) <= s.items[i].allocatedAmount
  {
    forall a | 0 <= a < |s.batches|
      ensures ConfirmedIn(i)(s.batches[a]) >= 0
    {
      assert BatchOk(s, a);
      ConfirmedNonNegative(s.batches[a].lines, i);
    }
    SumNonNegative(s.batches, ConfirmedIn(i), b);
    assert BatchOk(s, b);
    SharesByState(s.batches[b].lines, i);
    assert ItemOk(s, i);
  }

  lemma {:induction false} ConfirmedNonNegative(lines: seq<Line>, i: nat)
    requires AmountsPositive(lines)
    ensures SumBy(lines, ConfirmedLine(i)) >= 0
  {
    if |lines| > 0 {
      ConfirmedNonNegative(lines[..|lines| - 1], i);
    }
  }

  lemma ReverseKeepsItem(s: State, c: Command, r: Reversal, i: nat)
    requires Invariant(s) && ReverseOutcome(s, c, r).Done? && i < |s.items|
    ensures ItemOk(AfterReverse(s, c, r), i)
    ensures ItemProgress(s.items[i], AfterReverse(s, c, r).items[i])
  {
    ReverseFacts(s, c, r);
    SharesAfterReverse(s, c, r, i);
    ShareIsAllocated(s, c.batch, i);
    assert ItemOk(s, i);
    hide Invariant, Release, MirrorEffects, MirrorMovements, ReverseOutcome, ConfirmedShares, HasSettlementEffects;
    var lines := s.batches[c.batch].lines;
    if Touched(lines, i) {
      var k :| 0 <= k < |lines| && lines[k].item == i;
      ConsumeLine(s.items, lines, k);
    } else {
      ConsumeUntouched(s.items, lines, i);
    }
  }

  // ---- effects ----

  /** The effects written at confirmation are those the confirmed row describes. */
  lemma EffectsOfConfirmed(batch: Batch, actor: nat, movement: nat)
    requires batch.version == 0 && batch.effects == []
    ensures ConfirmedBatch(batch, actor, movement).effects
        == WrittenEffects(ConfirmedBatch(batch, actor, movement), movement)
  {
    var after := ConfirmedBatch(batch, actor, movement).(version := 0);
    assert AllocationEffects(batch, |batch.lines|) == AllocationEffects(after, |after.lines|);
    assert batch.effects + SettlementEffects(batch, movement) == SettlementEffects(batch, movement);
  }

  lemma EffectsOfReversed(batch: Batch, actor: nat, movement: nat)
    ensures WrittenEffects(ReversedBatch(batch, actor), movement) == WrittenEffects(batch, movement)
  {
    var before, after := batch.(version := 0), ReversedBatch(batch, actor).(version := 0);
    assert AllocationEffects(before, |before.lines|) == AllocationEffects(after, |after.lines|);
  }

  lemma {:induction false} MirrorMovementCount(id: nat, account: nat, effects: seq<Effect>, date: int)
    ensures |MirrorMovements(id, account, effects, date)| == BankCredits(effects)
  {
    if |effects| > 0 {
      MirrorMovementCount(id, account, effects[..|effects| - 1], date);
    }
  }

  /** Reversing effect number k, in full. */
  lemma {:induction false} MirrorAt(of: nat, effects: seq<Effect>, date: int, base: nat, k: nat)
    requires k < |effects|
    ensures MirrorEffects(of, effects, date, base)[k]
            == MirrorEffect(effects[k], EffectId(of, k), date, base + BankCredits(effects[..k]))
  {
    var n := |effects| - 1;
    if k < n {
      MirrorAt(of, effects[..n], date, base, k);
      assert effects[..n][..k] == effects[..k];
    }
  }

  lemma {:induction false} OnlyFirstIsBankCredit(effects: seq<Effect>)
    requires |effects| > 0 && effects[0].key == BankCredit
    requires forall k :: 1 <= k < |effects| ==> effects[k].key != BankCredit
    ensures BankCredits(effects) == 1
  {
    if |effects| > 1 {
      OnlyFirstIsBankCredit(effects[..|effects| - 1]);
    } else {
      assert effects[..0] == [];
    }
  }

  lemma {:induction false} OnlyFirstIsMirrored(id: nat, account: nat, effects: seq<Effect>, date: int)
    requires |effects| > 0 && effects[0].key == BankCredit
    requires forall k :: 1 <= k < |effects| ==> effects[k].key != BankCredit
    ensures MirrorMovements(id, account, effects, date) == [DebitMovement(id, account, effects[0], date)]
  {
    if |effects| > 1 {
      OnlyFirstIsMirrored(id, account, effects[..|effects| - 1], date);
    } else {
      assert effects[..0] == [];
    }
  }

  lemma EffectKeys(batch: Batch, movement: nat)
    ensures var effects := SettlementEffects(batch, movement);
            && |effects| > 0 && effects[0] == BankCreditEffect(batch, movement)
            && forall k :: 1 <= k < |effects| ==> effects[k].key != BankCredit
  {
    var head := [BankCreditEffect(batch, movement)] + AllocationEffects(batch, |batch.lines|);
    assert forall k :: 1 <= k < |head| ==> head[k].key != BankCredit;
  }

  // ---- batches ----

  lemma ConfirmExtends(s: State, c: Command, e: Evidence)
    requires Invariant(s)
    ensures Extends(s, AfterConfirm(s, c, e))
  {
    if ConfirmOutcome(s, c, e).Done? {
      var t := AfterConfirm(s, c, e);
      assert BatchOk(s, c.batch);
      forall i | 0 <= i < |s.items|
        ensures ItemProgress(s.items[i], t.items[i])
      {
        ConfirmKeepsItem(s, c, e, i);
      }
      assert Progress(s.batches[c.batch], t.batches[c.batch]);
    }
  }

  lemma ReverseExtends(s: State, c: Command, r: Reversal)
    requires Invariant(s)
    ensures Extends(s, AfterReverse(s, c, r))
  {
    if ReverseOutcome(s, c, r).Done? {
      var t := AfterReverse(s, c, r);
      assert BatchOk(s, c.batch);
      forall i | 0 <= i < |s.items|
        ensures ItemProgress(s.items[i], t.items[i])
      {
        ReverseKeepsItem(s, c, r, i);
      }
      assert Progress(s.batches[c.batch], t.batches[c.batch]);
    }
  }

  lemma ConfirmKeepsOther(s: State, c: Command, e: Evidence, b: nat)
    requires Invariant(s) && ConfirmOutcome(s, c, e).Done? && b < |s.batches| && b != c.batch
    ensures BatchOk(AfterConfirm(s, c, e), b)
  {
    ConfirmFacts(s, c, e);
    ConfirmExtends(s, c, e);
    hide Consume, BatchOk, SettlementEffects, ConfirmOutcome, LinesConfirmable;
    BatchKept(s, AfterConfirm(s, c, e), b);
  }

  lemma ConfirmedHasEffects(s: State, c: Command, e: Evidence)
    requires Invariant(s) && ConfirmOutcome(s, c, e).Done?
    ensures var t := AfterConfirm(s, c, e); HasSettlementEffects(t.movements, c.batch, t.batches[c.batch])
  {
    ConfirmFacts(s, c, e);
    hide Invariant, Consume, ConfirmOutcome, BatchOk, LinesConfirmable;
    var t := AfterConfirm(s, c, e);
    var batch := s.batches[c.batch];
    var m := |s.movements|;
    EffectsOfConfirmed(batch, c.actor, m);
    EffectKeys(t.batches[c.batch].(version := 0), m);
    assert t.movements[m] == CreditMovement(c.batch, batch);
  }

  lemma ConfirmedIsOk(s: State, c: Command, e: Evidence)
    requires Invariant(s) && ConfirmOutcome(s, c, e).Done?
    ensures BatchOk(AfterConfirm(s, c, e), c.batch)
  {
    ConfirmFacts(s, c, e);
    ConfirmedHasEffects(s, c, e);
    ConfirmedLinesFit(s, c, e);
    hide Invariant, Consume, SettlementEffects, HasSettlementEffects, ConfirmOutcome, LinesConfirmable, LinesFit;
    SumOfMarked(s.batches[c.batch].lines, LineState.CONFIRMED);
  }

  lemma {:induction false} SumOfMarked(lines: seq<Line>, state: LineState)
    ensures SumBy(Marked(lines, state), LineAmount()) == SumBy(lines, LineAmount())
  {
    if |lines| > 0 {
      var n := |lines| - 1;
      SumOfMarked(lines[..n], state);
      assert Marked(lines, state)[..n] == Marked(lines[..n], state);
    }
  }

  lemma LinesFitKept(s: State, t: State, b: nat, state: LineState)
    requires b < |s.batches| && LinesFit(s.items, s.batches[b]) && Extends(s, t)
    requires t.batches[b].lines == Marked(s.batches[b].lines, state)
    ensures LinesFit(t.items, t.batches[b])
  {
    var lines := s.batches[b].lines;
    assert Progress(s.batches[b], t.batches[b]);
    forall k | 0 <= k < |lines|
      ensures t.items[lines[k].item].payload == s.items[lines[k].item].payload
      ensures lines[k].itemVersion <= t.items[lines[k].item].version
    {
      assert ItemProgress(s.items[lines[k].item], t.items[lines[k].item]);
    }
  }

  lemma ConfirmedLinesFit(s: State, c: Command, e: Evidence)
    requires Invariant(s) && ConfirmOutcome(s, c, e).Done?
    ensures LinesFit(AfterConfirm(s, c, e).items, AfterConfirm(s, c, e).batches[c.batch])
  {
    ConfirmFacts(s, c, e);
    ConfirmExtends(s, c, e);
    hide Invariant, Consume, SettlementEffects, ConfirmOutcome, LinesConfirmable, Extends, LinesFit;
    LinesFitKept(s, AfterConfirm(s, c, e), c.batch, LineState.CONFIRMED);
  }

  lemma ReverseKeepsOther(s: State, c: Command, r: Reversal, b: nat)
    requires Invariant(s) && ReverseOutcome(s, c, r).Done? && b < |s.batches| && b != c.batch
    ensures BatchOk(AfterReverse(s, c, r), b)
  {
    ReverseFacts(s, c, r);
    ReverseExtends(s, c, r);
    hide Release, MirrorEffects, MirrorMovements, SettlementEffects, ReverseOutcome, BatchOk, ConfirmedOk;
    BatchKept(s, AfterReverse(s, c, r), b);
  }

  lemma ReversedHasEffects(s: State, c: Command, r: Reversal)
    requires Invariant(s) && ReverseOutcome(s, c, r).Done?
    ensures var t := AfterReverse(s, c, r); HasSettlementEffects(t.movements, c.batch, t.batches[c.batch])
  {
    ReverseFacts(s, c, r);
    hide Invariant, Release, MirrorEffects, MirrorMovements, SettlementEffects, ReverseOutcome, BatchOk;
    var t := AfterReverse(s, c, r);
    var batch := s.batches[c.batch];
    var m := batch.effects[0].movement.value;
    EffectsOfReversed(batch, c.actor, m);
    assert t.movements[m] == s.movements[m];
  }

  lemma ReversedIsOk(s: State, c: Command, r: Reversal)
    requires Invariant(s) && ReverseOutcome(s, c, r).Done?
    ensures BatchOk(AfterReverse(s, c, r), c.batch)
  {
    ReverseFacts(s, c, r);
    ReversedHasEffects(s, c, r);
    ReverseExtends(s, c, r);
    hide Invariant, Release, MirrorEffects, MirrorMovements, SettlementEffects, HasSettlementEffects, ReverseOutcome,
      LinesFit, Extends;
    LinesFitKept(s, AfterReverse(s, c, r), c.batch, LineState.REVERSED);
    SumOfMarked(s.batches[c.batch].lines, LineState.REVERSED);
  }

  lemma ReversalHasEffects(s: State, c: Command, r: Reversal)
    requires Invariant(s) && ReverseOutcome(s, c, r).Done?
    ensures var t := AfterReverse(s, c, r); var original := s.batches[c.batch];
            var effects := t.batches[|s.batches|].effects; var m := |s.movements|;
            && |original.effects| > 0 && |effects| > 0 && effects[0].movement == Some(m)
            && effects == MirrorEffects(c.batch, original.effects, r.date, m)
            && t.movements == s.movements + [DebitMovement(|s.batches|, original.account, original.effects[0], r.date)]
  {
    ReverseFacts(s, c, r);
    hide Invariant, Release, ReverseOutcome, BatchOk;
    var batch := s.batches[c.batch];
    EffectKeys(batch.(version := 0), batch.effects[0].movement.value);
    OnlyFirstIsMirrored(|s.batches|, batch.account, batch.effects, r.date);
    MirrorAt(c.batch, batch.effects, r.date, |s.movements|, 0);
    assert batch.effects[..0] == [];
  }

  lemma ReversalIsOk(s: State, c: Command, r: Reversal)
    requires Invariant(s) && ReverseOutcome(s, c, r).Done?
    ensures BatchOk(AfterReverse(s, c, r), |s.batches|)
  {
    ReverseFacts(s, c, r);
    ReversalHasEffects(s, c, r);
    hide Invariant, Release, MirrorEffects, MirrorMovements, SettlementEffects, ReverseOutcome, HasSettlementEffects;
  }
}
