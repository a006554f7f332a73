/** The constraint triggers of the settlement tables, checked when a transaction
    commits: none of them can reject what the service has written. */
module SettlementChecks {
  import opened Common
  import opened Foundation
  import opened Settlement
  import opened SettlementInvariant
  import opened SettlementReversal
  import opened SettlementSteps
  import opened Sums

  datatype EffectType = BANK_CREDIT | ALLOCATION_CONSUMPTION | FEE_EVIDENCE | DEDUCTION_EVIDENCE
    | APPROVED_DISCREPANCY_EVIDENCE

  function TypeOf(key: EffectKey): EffectType {
    match key
    case BankCredit => BANK_CREDIT
    case Allocation(_) => ALLOCATION_CONSUMPTION
    case Fee => FEE_EVIDENCE
    case Deduction => DEDUCTION_EVIDENCE
    case ApprovedDiscrepancy => APPROVED_DISCREPANCY_EVIDENCE
  }

  function OfType(t: EffectType): Effect -> int {
    (e: Effect) => if TypeOf(e.key) == t && e.direction == SETTLEMENT then 1 else 0
  }

  function Counted(effects: seq<Effect>, t: EffectType): int { SumBy(effects, OfType(t)) }

  /** One evidence effect of the given amount, or none when the amount is zero. */
  predicate EvidenceComplete(batch: Batch, t: EffectType, amount: int) {
    && Counted(batch.effects, t) == (if amount != 0 then 1 else 0)
    && forall k :: 0 <= k < |batch.effects| && TypeOf(batch.effects[k].key) == t ==>
         batch.effects[k].amount == amount && batch.effects[k].currency == batch.currency
  }

  predicate LineHasEffect(batch: Batch, l: Line) {
    exists k :: 0 <= k < |batch.effects|
      && TypeOf(batch.effects[k].key) == ALLOCATION_CONSUMPTION && batch.effects[k].direction == SETTLEMENT
      && batch.effects[k].item == Some(l.item)
      && batch.effects[k].amount == l.amount && batch.effects[k].currency == l.currency
  }

  /** The effect set of a confirmed batch. */
  predicate ConfirmedSetComplete(batch: Batch) {
    && EvidenceComplete(batch, BANK_CREDIT, batch.actualNet)
    && (forall k :: 0 <= k < |batch.lines| ==>
          batch.lines[k].state == LineState.CONFIRMED && LineHasEffect(batch, batch.lines[k]))
    && Counted(batch.effects, ALLOCATION_CONSUMPTION) == |batch.lines|
    && EvidenceComplete(batch, FEE_EVIDENCE, batch.fee)
    && EvidenceComplete(batch, DEDUCTION_EVIDENCE, batch.deduction)
    && EvidenceComplete(batch, APPROVED_DISCREPANCY_EVIDENCE, batch.discrepancy)
  }

  predicate HasInverse(s: State, o: nat, k: nat)
    requires o < |s.batches| && k < |s.batches[o].effects|
  {
    exists r, l :: 0 <= r < |s.batches| && 0 <= l < |s.batches[r].effects|
      && s.batches[r].state == BatchState.REVERSAL && s.batches[r].reversalOf == Some(o)
      && s.batches[r].effects[l].direction == EffectDirection.REVERSAL
      && s.batches[r].effects[l].reversalOf == Some(EffectId(o, k))
      && s.batches[r].effects[l].key == s.batches[o].effects[k].key
  }

  /** A reversed batch has its reversal, no line left confirmed and one inverse
      for every effect. */
  predicate ReversedSetComplete(s: State, o: nat)
    requires o < |s.batches|
  {
    && HasReversal(s, o) && AllLines(s.batches[o], LineState.REVERSED)
    && forall k :: 0 <= k < |s.batches[o].effects| ==> HasInverse(s, o, k)
  }

  /** A reversal belongs to a reversed batch, covers its effects and holds no others. */
  predicate ReversalSetComplete(s: State, r: nat)
    requires r < |s.batches|
  {
    var batch := s.batches[r];
    && batch.reversalOf.Some? && batch.reversalOf.value < |s.batches|
    && s.batches[batch.reversalOf.value].state == BatchState.REVERSED
    && (forall k :: 0 <= k < |batch.effects| ==> batch.effects[k].direction == EffectDirection.REVERSAL)
    && forall k :: 0 <= k < |s.batches[batch.reversalOf.value].effects| ==>
         exists l :: 0 <= l < |batch.effects|
           && batch.effects[l].reversalOf == Some(EffectId(batch.reversalOf.value, k))
  }

  /** The effect a reversing effect names: one of the reversed batch, with the same
      key, type, currency, amount and item. */
  predicate NamesOriginal(s: State, b: nat, effect: Effect)
    requires b < |s.batches|
  {
    && effect.reversalOf.Some? && s.batches[b].reversalOf == Some(effect.reversalOf.value.batch)
    && EffectExists(s, effect.reversalOf.value)
    && var original := EffectAt(s, effect.reversalOf.value);
    && original.direction == SETTLEMENT
    && original.key == effect.key && TypeOf(original.key) == TypeOf(effect.key)
    && original.currency == effect.currency && original.amount == effect.amount && original.item == effect.item
  }

  predicate EffectExists(s: State, id: EffectId) {
    id.batch < |s.batches| && id.position < |s.batches[id.batch].effects|
  }

  function EffectAt(s: State, id: EffectId): Effect
    requires EffectExists(s, id)
  {
    s.batches[id.batch].effects[id.position]
  }

  /** The movement a bank credit, or its reversal, names. */
  predicate MovementFits(s: State, b: nat, effect: Effect)
    requires b < |s.batches|
  {
    && effect.movement.Some? && effect.movement.value < |s.movements|
    && var fact := s.movements[effect.movement.value];
    && fact.owner == COLLECTION_AND_SETTLEMENT && fact.source == b && fact.effectKey == KeyText(effect.key)
    && fact.endpoint == BANK_ACCOUNT(s.batches[b].account)
    && fact.direction == (if effect.direction == SETTLEMENT then CREDIT else DEBIT)
    && fact.amount == effect.amount && fact.currency == effect.currency && fact.date == effect.date
    && (effect.direction == SETTLEMENT ==> effect.amount == s.batches[b].actualNet)
    && (effect.direction == EffectDirection.REVERSAL ==>
          && effect.reversalOf.Some? && EffectExists(s, effect.reversalOf.value)
          && fact.reversalOf == EffectAt(s, effect.reversalOf.value).movement)
  }

  /** What is checked of every effect when it is inserted. */
  predicate EffectEvidence(s: State, b: nat, effect: Effect)
    requires b < |s.batches|
  {
    var batch := s.batches[b];
    && effect.currency == batch.currency && effect.date == batch.date && effect.sourceVersion == batch.version
    && (effect.direction == SETTLEMENT ==> Spent(batch))
    && (effect.direction == EffectDirection.REVERSAL ==>
       batch.state == BatchState.REVERSAL && NamesOriginal(s, b, effect))
    && (TypeOf(effect.key) == BANK_CREDIT ==> MovementFits(s, b, effect))
  }

  // ---- confirmed batches ----

  lemma {:induction false} CountAllocations(batch: Batch, n: nat, t: EffectType)
    requires n <= |batch.lines|
    ensures Counted(AllocationEffects(batch, n), t) == if t == ALLOCATION_CONSUMPTION then n else 0
  {
    if n > 0 {
      CountAllocations(batch, n - 1, t);
      assert AllocationEffects(batch, n)[..n - 1] == AllocationEffects(batch, n - 1);
    }
  }

  lemma CountEvidence(batch: Batch, key: EffectKey, amount: int, t: EffectType)
    ensures Counted(EvidenceEffect(batch, key, amount), t) == if amount != 0 && TypeOf(key) == t then 1 else 0
  {
    if amount != 0 {
      SumOfOne(EvidenceEffect(batch, key, amount)[0], OfType(t));
    }
  }

  lemma CountCredit(batch: Batch, movement: nat, t: EffectType)
    ensures Counted([BankCreditEffect(batch, movement)], t) == if t == BANK_CREDIT then 1 else 0
  {
    SumOfOne(BankCreditEffect(batch, movement), OfType(t));
  }

  lemma CountWritten(batch: Batch, movement: nat, t: EffectType)
    ensures Counted(SettlementEffects(batch, movement), t) == match t
              case BANK_CREDIT => 1
              case ALLOCATION_CONSUMPTION => |batch.lines|
              case FEE_EVIDENCE => if batch.fee != 0 then 1 else 0
              case DEDUCTION_EVIDENCE => if batch.deduction != 0 then 1 else 0
              case APPROVED_DISCREPANCY_EVIDENCE => if batch.discrepancy != 0 then 1 else 0
  {
    hide SumBy, EvidenceEffect, AllocationEffects, OfType;
    SumOfParts([BankCreditEffect(batch, movement)], AllocationEffects(batch, |batch.lines|),
      EvidenceEffect(batch, Fee, batch.fee), EvidenceEffect(batch, Deduction, batch.deduction),
      EvidenceEffect(batch, ApprovedDiscrepancy, batch.discrepancy), OfType(t));
    CountCredit(batch, movement, t);
    CountAllocations(batch, |batch.lines|, t);
    CountEvidence(batch, Fee, batch.fee, t);
    CountEvidence(batch, Deduction, batch.deduction, t);
    CountEvidence(batch, ApprovedDiscrepancy, batch.discrepancy, t);
  }

  lemma SumOfParts(a: seq<Effect>, b: seq<Effect>, c: seq<Effect>, d: seq<Effect>, e: seq<Effect>, f: Effect -> int)
    ensures SumBy(a + b + c + d + e, f) == SumBy(a, f) + SumBy(b, f) + SumBy(c, f) + SumBy(d, f) + SumBy(e, f)
  {
    SumAppend(a + b + c + d, e, f);
    SumAppend(a + b + c, d, f);
    SumAppend(a + b, c, f);
    SumAppend(a, b, f);
  }

  /** Amount, currency, date and version of a written effect, by its type. */
  predicate WrittenFor(batch: Batch, e: Effect) {
    && e.direction == SETTLEMENT && e.date == batch.date && e.sourceVersion == batch.version + 1
    && match e.key
       case BankCredit => e.amount == batch.actualNet && e.currency == batch.currency
       case Allocation(k) => k < |batch.lines| && e.amount == batch.lines[k].amount
         && e.currency == batch.lines[k].currency
       case Fee => e.amount == batch.fee && e.currency == batch.currency
       case Deduction => e.amount == batch.deduction && e.currency == batch.currency
       case ApprovedDiscrepancy => e.amount == batch.discrepancy && e.currency == batch.currency
  }

  lemma WrittenEffectsFit(batch: Batch, movement: nat)
    ensures forall k :: 0 <= k < |SettlementEffects(batch, movement)| ==>
        WrittenFor(batch, SettlementEffects(batch, movement)[k])
  {
  }

  lemma AllocationsWritten(batch: Batch, movement: nat, k: nat)
    requires k < |batch.lines|
    ensures k + 1 < |SettlementEffects(batch, movement)|
            && SettlementEffects(batch, movement)[k + 1] == AllocationEffect(batch, k)
  {
    var head := [BankCreditEffect(batch, movement)] + AllocationEffects(batch, |batch.lines|);
    assert head[k + 1] == AllocationEffect(batch, k);
  }

  lemma EvidenceFits(batch: Batch, written: Batch, movement: nat, t: EffectType, amount: int)
    requires batch.effects == SettlementEffects(written, movement) && batch.currency == written.currency
    requires match t
             case BANK_CREDIT => amount == written.actualNet && amount != 0
             case ALLOCATION_CONSUMPTION => false
             case FEE_EVIDENCE => amount == written.fee
             case DEDUCTION_EVIDENCE => amount == written.deduction
             case APPROVED_DISCREPANCY_EVIDENCE => amount == written.discrepancy
    ensures EvidenceComplete(batch, t, amount)
  {
    WrittenEffectsFit(written, movement);
    CountWritten(written, movement, t);
    hide SettlementEffects;
  }

  lemma LinesHaveEffects(batch: Batch, written: Batch, movement: nat)
    requires batch.effects == SettlementEffects(written, movement) && batch.lines == written.lines
    ensures forall k :: 0 <= k < |batch.lines| ==> LineHasEffect(batch, batch.lines[k])
  {
    forall k | 0 <= k < |batch.lines|
      ensures LineHasEffect(batch, batch.lines[k])
    {
      AllocationsWritten(written, movement, k);
      hide SettlementEffects;
      assert batch.effects[k + 1] == AllocationEffect(written, k);
    }
  }

  /** The deferred check on confirmed batches passes in every reachable state. */
  lemma ConfirmedCheckPasses(s: State, b: nat)
    requires Invariant(s) && b < |s.batches| && s.batches[b].state == BatchState.CONFIRMED
    ensures ConfirmedSetComplete(s.batches[b])
  {
    assert BatchOk(s, b);
    var batch := s.batches[b];
    var m := batch.effects[0].movement.value;
    var written := batch.(version := 0);
    hide Invariant, SettlementEffects, EvidenceComplete, LineHasEffect, LinesFit;
    LinesHaveEffects(batch, written, m);
    CountWritten(written, m, ALLOCATION_CONSUMPTION);
    EvidenceFits(batch, written, m, BANK_CREDIT, batch.actualNet);
    EvidenceFits(batch, written, m, FEE_EVIDENCE, batch.fee);
    EvidenceFits(batch, written, m, DEDUCTION_EVIDENCE, batch.deduction);
    EvidenceFits(batch, written, m, APPROVED_DISCREPANCY_EVIDENCE, batch.discrepancy);
  }

  // ---- reversed batches and reversals ----

  lemma ReversedCheckPasses(s: State, o: nat)
    requires Invariant(s) && o < |s.batches| && s.batches[o].state == BatchState.REVERSED
    ensures ReversedSetComplete(s, o)
  {
    assert BatchOk(s, o);
    forall k | 0 <= k < |s.batches[o].effects|
      ensures HasInverse(s, o, k)
    {
      var r := ReversedCompletely(s, o, k);
      assert BatchOk(s, r);
    }
  }

  lemma ReversalCheckPasses(s: State, r: nat)
    requires Invariant(s) && r < |s.batches| && s.batches[r].state == BatchState.REVERSAL
    ensures ReversalSetComplete(s, r)
  {
    ReversalFacts(s, r);
    var o := s.batches[r].reversalOf.value;
    forall k | 0 <= k < |s.batches[r].effects|
      ensures Undoes(s, s.batches[r].effects[k], EffectId(o, k))
    {
      ReversalMirrors(s, r, k);
    }
  }

  // ---- effects when inserted ----

  /** Effects are inserted for the batch being confirmed and for a new reversal. */
  lemma InsertedEffectsPass(s: State, b: nat, k: nat)
    requires Invariant(s) && b < |s.batches| && k < |s.batches[b].effects|
    requires s.batches[b].state == BatchState.CONFIRMED || s.batches[b].state == BatchState.REVERSAL
    ensures EffectEvidence(s, b, s.batches[b].effects[k])
  {
    assert BatchOk(s, b);
    if s.batches[b].state == BatchState.CONFIRMED {
      SettlementEffectPasses(s.movements, s, b, k);
    } else {
      ReversalEffectPasses(s, b, k);
    }
  }

  lemma SettlementEffectPasses(movements: seq<Movement>, s: State, b: nat, k: nat)
    requires b < |s.batches| && k < |s.batches[b].effects| && s.movements == movements
    requires ConfirmedOk(movements, b, s.batches[b]) && s.batches[b].state == BatchState.CONFIRMED
    requires LinesFit(s.items, s.batches[b])
    ensures EffectEvidence(s, b, s.batches[b].effects[k])
  {
    var batch := s.batches[b];
    var m := batch.effects[0].movement.value;
    var written := batch.(version := 0);
    WrittenEffectsFit(written, m);
    EffectKeys(written, m);
    hide SettlementEffects;
  }

  /** The reversal's effects, and the debit its first one points to. */
  lemma ReversalEffects(s: State, r: nat, k: nat)
    requires r < |s.batches| && ReversalOk(s, r) && k < |s.batches[r].effects|
    ensures var batch := s.batches[r]; var o := batch.reversalOf.value; var original := s.batches[o];
            && k < |original.effects|
            && batch.effects[k].(movement := None)
               == MirrorEffect(original.effects[k], EffectId(o, k), batch.date, 0).(movement := None)
            && (k == 0 ==>
                  && batch.effects[k].movement.Some? && batch.effects[k].movement.value < |s.movements|
                  && s.movements[batch.effects[k].movement.value]
                     == DebitMovement(r, batch.account, original.effects[0], batch.date))
  {
    var batch := s.batches[r];
    MirrorAt(batch.reversalOf.value, s.batches[batch.reversalOf.value].effects, batch.date,
      batch.effects[0].movement.value, k);
  }

  lemma ReversalEffectPasses(s: State, r: nat, k: nat)
    requires Invariant(s) && r < |s.batches| && k < |s.batches[r].effects| && s.batches[r].state == BatchState.REVERSAL
    ensures EffectEvidence(s, r, s.batches[r].effects[k])
  {
    ReversalFacts(s, r);
    ReversalEffects(s, r, k);
    OriginalEffectsFit(s, s.batches[r].reversalOf.value, k);
    ReversalMirrors(s, r, k);
    hide Invariant, HasSettlementEffects, MirrorEffects, KeyText;
  }

  lemma OriginalEffectsFit(s: State, o: nat, k: nat)
    requires Invariant(s) && o < |s.batches| && s.batches[o].state == BatchState.REVERSED && k < |s.batches[o].effects|
    ensures var original := s.batches[o]; var e := original.effects[k];
            && e.currency == original.currency
            && (e.key == BankCredit <==> k == 0)
            && (k == 0 ==> e.amount == original.actualNet)
  {
    assert BatchOk(s, o);
    var written := s.batches[o].(version := 0);
    var m := s.batches[o].effects[0].movement.value;
    hide Invariant;
    WrittenEffectsFit(written, m);
    EffectKeys(written, m);
    hide SettlementEffects;
    assert WrittenFor(written, s.batches[o].effects[k]);
  }
}
