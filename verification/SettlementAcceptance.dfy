/** Exactly when items are collected, batches proposed and confirmed, on the fields
    of the request, of what the service reads, and of the rows; and what a proposal
    comes to in the bank. */
module SettlementAcceptance {
  import opened Common
  import opened Foundation
  import opened Settlement
  import opened SettlementBalances
  import opened SettlementInvariant
  import opened SettlementReversal
  import opened SettlementRuns
  import opened SettlementSteps
  import opened Sums

  // ---- collecting ----

  /** An item is written exactly for a positive amount, from a source without one,
      whose provider reference, if it has text, no other item of the channel has, or
      without a channel no other item of the bank account. */
  lemma CollectableIff(s: State, c: CollectCommand)
    ensures CollectOutcome(s, c) == Done(|s.items|) <==>
            && c.payload.gross > 0
            && (forall k :: 0 <= k < |s.items| ==> s.items[k].source != c.source)
            && (HasText(c.payload.providerReference) ==>
                  forall k :: 0 <= k < |s.items| ==>
                    || s.items[k].payload.providerReference != Trimmed(c.payload.providerReference)
                    || s.items[k].payload.channelType != c.payload.channelType
                    || s.items[k].payload.channel != c.payload.channel
                    || (c.payload.channel.None? && s.items[k].payload.account != c.payload.account))
  {
    TrimmedIff(c.payload.providerReference);
    var p := NormalizedPayload(c.payload);
    hide Trimmed, HasText;
    if ProviderReferenceTaken(s.items, p) {
      var k :| 0 <= k < |s.items| && SameProviderIdentity(s.items[k].payload, p);
    }
    forall k | 0 <= k < |s.items| && !ProviderReferenceTaken(s.items, p)
      ensures !SameProviderIdentity(s.items[k].payload, p)
    {
    }
  }

  /** The row a collected item gets: the payload of the command with its reference
      trimmed, all of the amount left, nothing allocated. */
  lemma CollectionIsRecorded(s: State, c: CollectCommand)
    requires CollectOutcome(s, c) == Done(|s.items|)
    ensures var t := AfterCollect(s, c);
            && |t.items| == |s.items| + 1 && t.items[..|s.items|] == s.items
            && t.batches == s.batches && t.movements == s.movements
            && var item := t.items[|s.items|];
            && item.source == c.source && item.version == 0 && item.state == ItemState.OPEN
            && item.allocatedAmount == 0 && item.remainingAmount == c.payload.gross
            && item.payload == c.payload.(providerReference := Trimmed(c.payload.providerReference))
  {
    hide Trimmed, CollectOutcome;
  }

  // ---- proposing ----

  function AllocatedTotal(allocations: seq<Allocated>): int {
    if allocations == [] then 0
    else AllocatedTotal(allocations[..|allocations| - 1]) + allocations[|allocations| - 1].money.amount
  }

  lemma {:induction false} TotalIsSum(allocations: seq<Allocated>)
    ensures SumBy(allocations, AllocationAmount()) == AllocatedTotal(allocations)
  {
    if allocations != [] {
      TotalIsSum(allocations[..|allocations| - 1]);
    }
  }

  /** The request names distinct items and attachments, texts are of allowed length,
      all amounts are in one currency and positive where they have to be, and they
      add up. */
  predicate FiguresBalance(dto: Proposal) {
    && |dto.allocations| > 0
    && (forall j, k :: 0 <= j < k < |dto.allocations| ==> dto.allocations[j].item != dto.allocations[k].item)
    && (forall k :: 0 <= k < |dto.allocations| ==>
          dto.allocations[k].money.amount > 0 && dto.allocations[k].money.currency == dto.gross.currency)
    && dto.fee.currency == dto.gross.currency && dto.deduction.currency == dto.gross.currency
    && dto.expectedNet.currency == dto.gross.currency && dto.actualNet.currency == dto.gross.currency
    && dto.discrepancy.currency == dto.gross.currency
    && dto.gross.amount > 0 && dto.fee.amount >= 0 && dto.deduction.amount >= 0
    && dto.expectedNet.amount > 0 && dto.actualNet.amount > 0
    && AllocatedTotal(dto.allocations) == dto.gross.amount
    && dto.expectedNet.amount == dto.gross.amount - dto.fee.amount - dto.deduction.amount
    && dto.discrepancy.amount == dto.actualNet.amount - dto.expectedNet.amount
  }

  predicate LengthOk(text: Option<string>, limit: nat) { text.None? || 1 <= |text.value| <= limit }

  /** The texts of a request: a rule for a deterministic match, a reason for a manual
      one, and a reason for a difference, which has a disposition if and only if it is
      not zero. */
  predicate TextsFit(dto: Proposal) {
    && LengthOk(dto.provenance.ruleId, 128) && LengthOk(dto.provenance.ruleVersion, 64)
    && LengthOk(dto.provenance.reason, 500) && LengthOk(dto.reason, 500)
    && (if dto.provenance.DETERMINISTIC? then
          HasText(dto.provenance.ruleId) && HasText(dto.provenance.ruleVersion) && dto.provenance.reason.None?
        else HasText(dto.provenance.reason) && dto.provenance.ruleId.None? && dto.provenance.ruleVersion.None?)
    && (if dto.discrepancy.amount == 0 then dto.disposition == Disposition.NONE && dto.reason.None?
        else dto.disposition != Disposition.NONE && HasText(dto.reason))
  }

  lemma ShapeIff(dto: Proposal)
    ensures CreateError(dto).None? && ReasonRowOk(dto) <==>
            && FiguresBalance(dto) && TextsFit(dto) && dto.statementLine.None?
            && |dto.attachments| > 0
            && forall j, k :: 0 <= j < k < |dto.attachments| ==> dto.attachments[j] != dto.attachments[k]
  {
    TotalIsSum(dto.allocations);
    TrimmedIff(dto.reason);
    TrimmedIff(dto.provenance.ruleId);
    TrimmedIff(dto.provenance.ruleVersion);
    TrimmedIff(dto.provenance.reason);
    assert !HasText(None);
    hide Trimmed, HasText, SumBy, AllocatedTotal;
  }

  lemma FactsIff(s: State, dto: Proposal, facts: Facts)
    ensures FactsError(s, dto, facts).None? <==>
            && facts.organization && facts.actor == Some(true)
            && facts.account.Some? && facts.account.value.active && facts.account.value.canReceive
            && facts.account.value.currency == dto.gross.currency
            && (forall k :: 0 <= k < |dto.attachments| ==> dto.attachments[k] in facts.evidence)
            && ItemsCanGive(s.items, dto)
            && (dto.replacementFor.Some? ==>
                  && dto.replacementFor.value < |s.batches|
                  && s.batches[dto.replacementFor.value].state == BatchState.REVERSED
                  && s.batches[dto.replacementFor.value].account == dto.account
                  && s.batches[dto.replacementFor.value].currency == dto.gross.currency)
  {
    ItemsCanGiveIff(s.items, dto);
    hide ItemsCanGive, AllCanAllocate, AllFound;
  }

  /** Every named item exists, is not settled, is at its version and of the account
      and currency, and has enough left. */
  predicate ItemsCanGive(items: seq<Item>, dto: Proposal) {
    forall k :: 0 <= k < |dto.allocations| ==>
      var a := dto.allocations[k];
      && a.item < |items| && items[a.item].state != SETTLED && items[a.item].version == a.itemVersion
      && items[a.item].payload.account == dto.account && items[a.item].payload.currency == dto.gross.currency
      && items[a.item].remainingAmount >= a.money.amount
  }

  lemma ItemsCanGiveIff(items: seq<Item>, dto: Proposal)
    ensures ItemsCanGive(items, dto) <==> AllFound(items, dto.allocations) && AllCanAllocate(items, dto)
  {
    if AllCanAllocate(items, dto) {
      forall k | 0 <= k < |dto.allocations|
        ensures CanAllocate(items, dto.allocations[k].item, dto.allocations[k].itemVersion, dto.account,
                  dto.gross.currency, dto.allocations[k].money.amount)
      {
      }
    }
  }

  /** A proposal is accepted exactly when the actor is authorized and active, the
      account can take the money, the figures balance and the texts fit, every
      attachment is found, every item can give its part, and a batch it replaces is
      reversed, of the same account and currency, and not replaced yet. */
  lemma CreatableIff(s: State, actor: nat, dto: Proposal, facts: Facts)
    ensures CreateOutcome(s, actor, dto, facts).Done? <==>
            && facts.authorized && facts.organization && facts.actor == Some(true)
            && facts.account.Some? && facts.account.value.active && facts.account.value.canReceive
            && facts.account.value.currency == dto.gross.currency
            && FiguresBalance(dto) && TextsFit(dto) && dto.statementLine.None?
            && |dto.attachments| > 0
            && (forall j, k :: 0 <= j < k < |dto.attachments| ==> dto.attachments[j] != dto.attachments[k])
            && (forall k :: 0 <= k < |dto.attachments| ==> dto.attachments[k] in facts.evidence)
            && ItemsCanGive(s.items, dto)
            && (dto.replacementFor.Some? ==>
                  && dto.replacementFor.value < |s.batches|
                  && s.batches[dto.replacementFor.value].state == BatchState.REVERSED
                  && s.batches[dto.replacementFor.value].account == dto.account
                  && s.batches[dto.replacementFor.value].currency == dto.gross.currency
                  && forall b :: 0 <= b < |s.batches| ==> s.batches[b].replacementFor != dto.replacementFor)
  {
    ShapeIff(dto);
    FactsIff(s, dto, facts);
    hide CreateError, FactsError, ReasonRowOk, FiguresBalance, TextsFit, ItemsCanGive;
  }

  /** The row an accepted proposal gets: its terms as they were asked for. */
  lemma ProposalIsRecorded(s: State, actor: nat, dto: Proposal, facts: Facts)
    requires CreateOutcome(s, actor, dto, facts).Done?
    ensures var t := AfterCreate(s, actor, dto, facts);
            && |t.batches| == |s.batches| + 1 && t.batches[..|s.batches|] == s.batches
            && CreateOutcome(s, actor, dto, facts) == Done(|s.batches|)
            && var row := t.batches[|s.batches|];
            && row.account == dto.account && row.currency == dto.gross.currency && row.date == dto.date
            && row.gross == dto.gross.amount && row.fee == dto.fee.amount && row.deduction == dto.deduction.amount
            && row.expectedNet == dto.expectedNet.amount && row.actualNet == dto.actualNet.amount
            && row.discrepancy == dto.discrepancy.amount && row.disposition == dto.disposition
            && row.creator == actor && row.replacementFor == dto.replacementFor && row.reason == Trimmed(dto.reason)
            && |row.lines| == |dto.allocations|
            && forall k :: 0 <= k < |row.lines| ==>
                 && row.lines[k].item == dto.allocations[k].item
                 && row.lines[k].itemVersion == dto.allocations[k].itemVersion
                 && row.lines[k].amount == dto.allocations[k].money.amount
  {
    hide CreateError, FactsError, ReasonRowOk, Trimmed;
  }

  // ---- confirming ----

  /** A proposal can be confirmed, whatever has run since it was made, exactly when an
      authorized other user asks with its version, its difference is approved, the
      account can still take the money, every attachment is still as it was linked,
      and none of its items has moved on. */
  lemma ConfirmableOnFields(s: State, actor: nat, dto: Proposal, facts: Facts, between: seq<Step>, c: Command,
      e: Evidence)
    requires Invariant(s) && CreateOutcome(s, actor, dto, facts).Done? && c.batch == |s.batches|
    requires var u := Run(AfterCreate(s, actor, dto, facts), between);
        c.batch < |u.batches| && Proposed(u.batches[c.batch])
    ensures var u := Run(AfterCreate(s, actor, dto, facts), between);
            ConfirmOutcome(u, c, e).Done? <==>
              && c.authorized && c.expectedVersion == 0 && c.actor != actor
              && (dto.discrepancy.amount == 0 || dto.disposition == APPROVED_DIFFERENCE)
              && e.account.Some? && e.account.value.active && e.account.value.canReceive
              && e.account.value.currency == dto.gross.currency
              && |e.attachments| > 0 && (forall k :: 0 <= k < |e.attachments| ==> e.attachments[k])
              && forall k :: 0 <= k < |dto.allocations| ==>
                   dto.allocations[k].item < |u.items|
                   && u.items[dto.allocations[k].item].version == dto.allocations[k].itemVersion
  {
    ConfirmableIff(s, actor, dto, facts, between, c, e);
    hide Invariant, CreateOutcome, AfterCreate, Run, ConfirmOutcome;
  }

  /** What was proposed is what the bank account gets: whatever runs in between, the
      confirmation appends one movement, the credit of the actual net to the proposed
      account on the proposed date, and takes from every item the amount proposed for
      it. */
  lemma ConfirmationPaysProposal(s: State, actor: nat, dto: Proposal, facts: Facts, between: seq<Step>, c: Command,
      e: Evidence, k: nat)
    requires Invariant(s) && CreateOutcome(s, actor, dto, facts).Done? && c.batch == |s.batches|
    requires ConfirmOutcome(Run(AfterCreate(s, actor, dto, facts), between), c, e).Done? && k < |dto.allocations|
    ensures var u := Run(AfterCreate(s, actor, dto, facts), between); var v := AfterConfirm(u, c, e);
            var i := dto.allocations[k].item;
            && |v.movements| == |u.movements| + 1 && v.movements[..|u.movements|] == u.movements
            && var credit := v.movements[|u.movements|];
            && credit.endpoint == BANK_ACCOUNT(dto.account) && credit.direction == CREDIT
            && credit.amount == dto.actualNet.amount && credit.currency == dto.gross.currency && credit.date == dto.date
            && credit.owner == COLLECTION_AND_SETTLEMENT && credit.source == c.batch
            && credit.effectKey == "bank-credit"
            && i < |u.items| && i < |v.items|
            && v.items[i].remainingAmount == u.items[i].remainingAmount - dto.allocations[k].money.amount
            && v.items[i].allocatedAmount == u.items[i].allocatedAmount + dto.allocations[k].money.amount
  {
    var t := AfterCreate(s, actor, dto, facts);
    var u := Run(t, between);
    CreateKeeps(s, actor, dto, facts);
    RunKeeps(t, between);
    assert |t.batches| == |s.batches| + 1 <= |u.batches|;
    assert Proposed(u.batches[c.batch]);
    StillAsProposed(s, actor, dto, facts, u);
    assert BatchOk(u, c.batch);
    hide Invariant, CreateOutcome, AfterCreate, Run, BatchOk;
    ConsumeLine(u.items, u.batches[c.batch].lines, k);
  }

  /** A reversal takes from the bank account what the confirmation gave it: one debit
      of the actual net on the date of the reversal, which names the credit. */
  lemma ReversalRepays(s: State, c: Command, r: Reversal)
    requires Invariant(s) && ReverseOutcome(s, c, r).Done?
    ensures var t := AfterReverse(s, c, r); var batch := s.batches[c.batch];
            && |t.movements| == |s.movements| + 1 && t.movements[..|s.movements|] == s.movements
            && var debit := t.movements[|s.movements|];
            && debit.endpoint == BANK_ACCOUNT(batch.account) && debit.direction == DEBIT
            && debit.amount == batch.actualNet && debit.currency == batch.currency && debit.date == r.date
            && debit.state == MovementState.REVERSED && debit.owner == COLLECTION_AND_SETTLEMENT
            && debit.source == |s.batches| && debit.effectKey == "bank-credit"
            && debit.reversalOf.Some? && debit.reversalOf.value < |s.movements|
            && s.movements[debit.reversalOf.value].source == c.batch
            && s.movements[debit.reversalOf.value].endpoint == BANK_ACCOUNT(batch.account)
            && |t.batches| == |s.batches| + 1
            && t.batches[|s.batches|].reversalOf == Some(c.batch) && t.batches[|s.batches|].creator == c.actor
            && t.batches[|s.batches|].date == r.date && t.batches[c.batch].reversedBy == Some(c.actor)
  {
    ReverseFacts(s, c, r);
    ReversalHasEffects(s, c, r);
    assert BatchOk(s, c.batch);
    assert ConfirmedOk(s.movements, c.batch, s.batches[c.batch]);
    var m := s.batches[c.batch].effects[0].movement.value;
    EffectKeys(s.batches[c.batch].(version := 0), m);
    hide Invariant, ReverseOutcome, Release, MirrorEffects, MirrorMovements, SettlementEffects, BatchOk;
  }
}
