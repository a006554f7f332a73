/** The settlement service over its tables, step by step as it is written: every
    command runs its guards in order, loops over the locked rows, and leaves the
    tables as it found them when it fails. */
module SettlementStore {
  import opened Common
  import opened Foundation
  import opened Settlement
  import opened SettlementBalances
  import opened SettlementInvariant
  import opened SettlementReplies
  import opened SettlementRuns
  import opened SettlementSteps

  /** The lines of a batch after the first `k` have been updated. */
  ghost function PartlyMarked(lines: seq<Line>, k: nat, state: LineState): (r: seq<Line>)
    requires k <= |lines|
    ensures |r| == |lines|
  {
    Marked(lines[..k], state) + lines[k..]
  }

  lemma PartlyMarkedEnds(lines: seq<Line>, state: LineState)
    ensures PartlyMarked(lines, 0, state) == lines && PartlyMarked(lines, |lines|, state) == Marked(lines, state)
  {
    assert lines[..|lines|] == lines;
  }

  lemma PartlyMarkedStep(lines: seq<Line>, k: nat, state: LineState)
    requires k < |lines|
    ensures PartlyMarked(lines, k, state)[k] == lines[k]
    ensures PartlyMarked(lines, k, state)[k := lines[k].(state := state)] == PartlyMarked(lines, k + 1, state)
  {
  }

  lemma LinesDistinct(s: State)
    requires Invariant(s)
    ensures forall b :: 0 <= b < |s.batches| ==> DistinctItems(s.batches[b].lines)
  {
    forall b | 0 <= b < |s.batches|
      ensures DistinctItems(s.batches[b].lines)
    {
      assert BatchOk(s, b);
    }
  }

  class Store {
    var items: seq<Item>
    var batches: seq<Batch>
    var movements: seq<Movement>
    var replies: map<Key, Reply>

    function Tables(): State
      reads this
    {
      State(items, batches, movements)
    }

    function Now(): Desk
      reads this
    {
      Desk(Tables(), replies)
    }

    ghost predicate Valid()
      reads this
    {
      Invariant(Tables())
    }

    constructor ()
      ensures Valid() && Now() == OPENED
    {
      items, batches, movements, replies := [], [], [], map[];
    }

    // ---- repository ----

    method InsertItem(item: Item) returns (id: nat)
      modifies this`items
      ensures id == |old(items)| && items == old(items) + [item]
    {
      id := |items|;
      items := items + [item];
    }

    method AppendMovement(command: MovementCommand) returns (id: nat)
      modifies this`movements
      ensures id == |old(movements)| && movements == old(movements) + [Recorded(command)]
    {
      id := |movements|;
      movements := movements + [Recorded(command)];
    }

    /** Inserts the row unless a check on it or the unique index on replacements
        refuses it. */
    method InsertProposal(dto: Proposal, actor: nat) returns (r: Outcome)
      modifies this`batches
      ensures r == if !ReasonRowOk(dto) then Refused(REVERSAL_CONFLICT)
                   else if ReplacementTaken(old(Tables()), dto) then Refused(STATE_CONFLICT)
                   else Done(|old(batches)|)
      ensures batches == if r.Done? then old(batches) + [ProposedBatch(dto, actor)] else old(batches)
    {
      if !ReasonRowOk(dto) {
        return Refused(REVERSAL_CONFLICT);
      }
      if ReplacementTaken(Tables(), dto) {
        return Refused(STATE_CONFLICT);
      }
      r := Done(|batches|);
      batches := batches + [ProposedBatch(dto, actor)];
    }

    method ConfirmBatch(b: nat, actor: nat)
      requires b < |batches|
      modifies this`batches
      ensures batches == old(batches)[b := old(batches[b]).(
                state := BatchState.CONFIRMED, confirmedBy := Some(actor), version := old(batches[b]).version + 1)]
    {
      batches := batches[b := batches[b].(
        state := BatchState.CONFIRMED, confirmedBy := Some(actor), version := batches[b].version + 1)];
    }

    method ReverseBatch(b: nat, actor: nat)
      requires b < |batches|
      modifies this`batches
      ensures batches == old(batches)[b := old(batches[b]).(
                state := BatchState.REVERSED, reversedBy := Some(actor), version := old(batches[b]).version + 1)]
    {
      batches := batches[b := batches[b].(
        state := BatchState.REVERSED, reversedBy := Some(actor), version := batches[b].version + 1)];
    }

    method AllocationState(b: nat, k: nat, state: LineState)
      requires b < |batches| && k < |batches[b].lines|
      modifies this`batches
      ensures batches == old(batches)[b := old(batches[b]).(
                lines := old(batches[b]).lines[k := old(batches[b]).lines[k].(state := state)])]
    {
      var lines := batches[b].lines;
      batches := batches[b := batches[b].(lines := lines[k := lines[k].(state := state)])];
    }

    method CollectionBalance(i: nat, allocatedAmount: int, remainingAmount: int, state: ItemState)
      requires i < |items|
      modifies this`items
      ensures items == old(items)[i := old(items[i]).(
                allocatedAmount := allocatedAmount, remainingAmount := remainingAmount, state := state,
                version := old(items[i]).version + 1)]
    {
      items := items[i := items[i].(
        allocatedAmount := allocatedAmount, remainingAmount := remainingAmount, state := state,
        version := items[i].version + 1)];
    }

    method AppendEffect(b: nat, effect: Effect)
      requires b < |batches|
      modifies this`batches
      ensures batches == old(batches)[b := old(batches[b]).(effects := old(batches[b]).effects + [effect])]
    {
      batches := batches[b := batches[b].(effects := batches[b].effects + [effect])];
    }

    // ---- collection effects service ----

    method Collect(command: CollectCommand) returns (r: Outcome)
      requires Valid()
      modifies this`items
      ensures Valid()
      ensures r == CollectOutcome(old(Tables()), command) && Tables() == AfterCollect(old(Tables()), command)
    {
      CollectKeeps(Tables(), command);
      if command.payload.gross <= 0 {
        return Refused(VALIDATION);
      }
      var normalized := NormalizedPayload(command.payload);
      var existing := BySource(items, command.source);
      if existing.Some? {
        if items[existing.value].payload == normalized {
          return Done(existing.value);
        }
        return Refused(COLLECTION_IDENTITY_CONFLICT);
      }
      if ProviderReferenceTaken(items, normalized) {
        return Refused(COLLECTION_IDENTITY_CONFLICT);
      }
      var id := InsertItem(OpenItem(command));
      return Done(id);
    }

    // ---- settlement service ----

    /** The stored reply of a key, or a conflict when it belongs to another command. */
    method FindReply(key: Key, digest: CommandDigest) returns (r: Option<Answer>)
      ensures r == if key in replies then Some(ReplayOf(replies[key], digest)) else None
    {
      if key !in replies {
        return None;
      }
      if replies[key].digest != digest {
        return Some(Rejected(IDEMPOTENCY_CONFLICT));
      }
      return Some(Replayed(replies[key].id));
    }

    /** What the service reads elsewhere, then the items one allocation after the
        other, then the batch to be replaced. */
    method ValidateFacts(dto: Proposal, facts: Facts) returns (e: Option<Error>)
      ensures e == FactsError(Tables(), dto, facts)
    {
      hide ReplacementValid, UsableAccount;
      if !facts.organization || facts.actor.None? || facts.account.None? || !facts.actor.value {
        return Some(RESOURCE_HIDDEN);
      }
      if !UsableAccount(facts.account.value, dto.gross.currency) {
        return Some(EVIDENCE_INVALID);
      }
      if exists k :: 0 <= k < |dto.attachments| && dto.attachments[k] !in facts.evidence {
        return Some(EVIDENCE_INVALID);
      }
      if !AllFound(items, dto.allocations) {
        return Some(ALLOCATION_CONFLICT);
      }
      var n := 0;
      while n < |dto.allocations|
        invariant n <= |dto.allocations|
        invariant forall k :: 0 <= k < n ==>
                    CanAllocate(items, dto.allocations[k].item, dto.allocations[k].itemVersion, dto.account,
                      dto.gross.currency, dto.allocations[k].money.amount)
      {
        var a := dto.allocations[n];
        if !CanAllocate(items, a.item, a.itemVersion, dto.account, dto.gross.currency, a.money.amount) {
          assert !AllCanAllocate(items, dto);
          return Some(ALLOCATION_CONFLICT);
        }
        n := n + 1;
      }
      if !ReplacementValid(Tables(), dto) {
        return Some(EVIDENCE_INVALID);
      }
      return None;
    }

    method Create(actor: nat, key: nat, dto: Proposal, facts: Facts) returns (r: Answer)
      requires Valid()
      modifies this`batches, this`replies
      ensures Valid()
      ensures r == CreateAnswer(old(Now()), actor, key, dto, facts)
      ensures Now() == AfterCreateCommand(old(Now()), actor, key, dto, facts)
    {
      CreateKeeps(Tables(), actor, dto, facts);
      hide Invariant;
      var invalid := CreateError(dto);
      if invalid.Some? {
        return Rejected(invalid.value);
      }
      var digest := CreateDigest(actor, dto);
      var replay := FindReply(CreateKey(actor, key), digest);
      if replay.Some? {
        if replay.value.Rejected? {
          return replay.value;
        }
        if replay.value.id >= |batches| {
          return Rejected(RESOURCE_HIDDEN);
        }
        if !facts.authorized {
          return Rejected(SCOPE_DENIED);
        }
        return replay.value;
      }
      var missing := ValidateFacts(dto, facts);
      if missing.Some? {
        return Rejected(missing.value);
      }
      if !facts.authorized {
        return Rejected(SCOPE_DENIED);
      }
      var inserted := InsertProposal(dto, actor);
      if inserted.Refused? {
        return Rejected(inserted.error);
      }
      replies := replies[CreateKey(actor, key) := Reply(digest, inserted.id)];
      return Fresh(inserted.id);
    }

    method TakeFrom(i: nat, locked: Item, amount: int)
      requires i < |items| && items[i].payload == locked.payload && items[i].source == locked.source
      modifies this`items
      ensures items == old(items)[i := Consumed(locked, amount, old(items[i]).version)]
    {
      var nextAllocated, nextRemaining := locked.allocatedAmount + amount, locked.remainingAmount - amount;
      CollectionBalance(i, nextAllocated, nextRemaining, if nextRemaining == 0 then SETTLED else PARTIALLY_ALLOCATED);
    }

    method GiveBackTo(i: nat, locked: Item, amount: int)
      requires i < |items| && items[i].payload == locked.payload && items[i].source == locked.source
      modifies this`items
      ensures items == old(items)[i := Released(locked, amount, old(items[i]).version)]
    {
      var nextAllocated, nextRemaining := locked.allocatedAmount - amount, locked.remainingAmount + amount;
      CollectionBalance(i, nextAllocated, nextRemaining,
        if nextAllocated == 0 then REOPENED_AFTER_REVERSAL else PARTIALLY_ALLOCATED);
    }

    /** Marks the lines and writes the balances: both from what was locked. */
    method ConsumeLines(b: nat, lines: seq<Line>, locked: seq<Item>)
      requires b < |batches| && batches[b].lines == lines && items == locked && LinesFound(locked, lines)
      modifies this`items, this`batches
      ensures items == SnapshotConsume(locked, lines)
      ensures batches == old(batches)[b := old(batches)[b].(lines := Marked(lines, LineState.CONFIRMED))]
    {
      hide PartlyMarked, Marked;
      var k := 0;
      PartlyMarkedEnds(lines, LineState.CONFIRMED);
      while k < |lines|
        invariant k <= |lines|
        invariant items == SnapshotConsume(locked, lines[..k])
        invariant |items| == |locked|
        invariant forall i :: 0 <= i < |items| ==>
            items[i].payload == locked[i].payload && items[i].source == locked[i].source
        invariant batches == old(batches)[b := old(batches)[b].(lines := PartlyMarked(lines, k, LineState.CONFIRMED))]
      {
        var line := lines[k];
        var item := locked[line.item];
        AllocationState(b, k, LineState.CONFIRMED);
        TakeFrom(line.item, item, line.amount);
        PartlyMarkedStep(lines, k, LineState.CONFIRMED);
        assert lines[..k + 1][..k] == lines[..k];
        k := k + 1;
      }
      assert lines[..k] == lines;
    }

    /** The bank credit, one effect per line, and the evidence of what was kept back. */
    method AppendSettlementEffects(b: nat, locked: Batch)
      requires b < |batches|
      modifies this`batches, this`movements
      ensures movements == old(movements) + [CreditMovement(b, locked)]
      ensures batches == old(batches)[b := old(batches)[b].(
                effects := old(batches)[b].effects + SettlementEffects(locked, |old(movements)|))]
    {
      ghost var row := batches[b];
      var movement := AppendMovement(MovementCommand(
        Some(COLLECTION_AND_SETTLEMENT), b, KeyText(BankCredit), BANK_ACCOUNT(locked.account), locked.actualNet,
          locked.currency,
        locked.date, None, Some(CREDIT), Some(POSTED)));
      AppendEffect(b, BankCreditEffect(locked, movement));
      ghost var credit := row.effects + [BankCreditEffect(locked, movement)];
      var k := 0;
      assert credit + AllocationEffects(locked, 0) == credit;
      while k < |locked.lines|
        invariant k <= |locked.lines|
        invariant movements == old(movements) + [CreditMovement(b, locked)]
        invariant batches == old(batches)[b := row.(effects := credit + AllocationEffects(locked, k))]
      {
        AppendEffect(b, AllocationEffect(locked, k));
        k := k + 1;
        assert credit + AllocationEffects(locked, k - 1) + [AllocationEffect(locked, k - 1)]
            == credit + AllocationEffects(locked, k);
      }
      AppendEvidence(b, locked, Fee, locked.fee);
      AppendEvidence(b, locked, Deduction, locked.deduction);
      AppendEvidence(b, locked, ApprovedDiscrepancy, locked.discrepancy);
      EffectsJoined(row.effects, [BankCreditEffect(locked, movement)], AllocationEffects(locked, k),
        EvidenceEffect(locked, Fee, locked.fee), EvidenceEffect(locked, Deduction, locked.deduction),
        EvidenceEffect(locked, ApprovedDiscrepancy, locked.discrepancy));
    }

    method AppendEvidence(b: nat, locked: Batch, key: EffectKey, amount: int)
      requires b < |batches|
      modifies this`batches
      ensures batches == old(batches)[b := old(batches)[b].(effects := old(batches)[b].effects
          + EvidenceEffect(locked, key, amount))]
    {
      if amount == 0 {
        assert batches[b].effects + [] == batches[b].effects;
        return;
      }
      AppendEffect(b, EvidenceEffect(locked, key, amount)[0]);
    }

    method Confirm(c: Command, key: nat, e: Evidence) returns (r: Answer)
      requires Valid()
      modifies this
      ensures Valid()
      ensures r == ConfirmAnswer(old(Now()), c, key, e) && Now() == AfterConfirmCommand(old(Now()), c, key, e)
    {
      ConfirmKeeps(Tables(), c, e);
      hide Invariant, ConfirmOutcome, AfterConfirm;
      if c.batch >= |batches| {
        return Rejected(RESOURCE_HIDDEN);
      }
      if !c.authorized {
        return Rejected(SCOPE_DENIED);
      }
      var replay := FindReply(ConfirmKey(c, key), ConfirmDigest(c));
      if replay.Some? {
        return replay.value;
      }
      var outcome := ConfirmLocked(c, e);
      if outcome.Refused? {
        return Rejected(outcome.error);
      }
      replies := replies[ConfirmKey(c, key) := Reply(ConfirmDigest(c), outcome.id)];
      return Fresh(outcome.id);
    }

    /** As many items as lines, all of them proposed, each still to be had. */
    method ValidateLockedAllocations(batch: Batch) returns (ok: bool)
      ensures ok == LinesConfirmable(items, batch)
    {
      hide LockedItems;
      if |batch.lines| == 0 || |batch.lines| != |LockedItems(items, batch.lines)| {
        return false;
      }
      if exists k :: 0 <= k < |batch.lines| && batch.lines[k].state != LineState.PROPOSED {
        return false;
      }
      var n := 0;
      while n < |batch.lines|
        invariant n <= |batch.lines|
        invariant forall k :: 0 <= k < n ==>
                    CanAllocate(items, batch.lines[k].item, batch.lines[k].itemVersion, batch.account, batch.currency,
                      batch.lines[k].amount)
      {
        var line := batch.lines[n];
        if !CanAllocate(items, line.item, line.itemVersion, batch.account, batch.currency, line.amount) {
          return false;
        }
        n := n + 1;
      }
      ok := true;
    }

    /** The guards on the locked batch, then the writes. */
    method ConfirmLocked(c: Command, e: Evidence) returns (r: Outcome)
      requires c.batch < |batches| && c.authorized
      modifies this`items, this`batches, this`movements
      ensures r == ConfirmOutcome(old(Tables()), c, e) && Tables() == AfterConfirm(old(Tables()), c, e)
    {
      var batch := batches[c.batch];
      if batch.version != c.expectedVersion {
        return Refused(STALE_VERSION);
      }
      if batch.state != MATCHED && batch.state != DISCREPANCY {
        return Refused(STATE_CONFLICT);
      }
      if batch.creator == c.actor {
        return Refused(SCOPE_DENIED);
      }
      if batch.discrepancy != 0 && batch.disposition != APPROVED_DIFFERENCE {
        return Refused(DISCREPANCY_UNRESOLVED);
      }
      if !EvidenceValid(e, batch.currency) {
        return Refused(EVIDENCE_INVALID);
      }
      var confirmable := ValidateLockedAllocations(batch);
      if !confirmable {
        return Refused(ALLOCATION_CONFLICT);
      }
      assert LinesFound(items, batch.lines);
      LengthCheckForcesDistinct(items, batch.lines);
      hide ConfirmedTables;
      WriteConfirmation(c.batch, c.actor);
      return Done(c.batch);
    }

    /** The writes of a confirmation. */
    method WriteConfirmation(b: nat, actor: nat)
      requires b < |batches| && LinesFound(items, batches[b].lines) && DistinctItems(batches[b].lines)
      modifies this`items, this`batches, this`movements
      ensures Tables() == ConfirmedTables(old(Tables()), b, actor)
    {
      var batch := batches[b];
      var locked := items;
      SnapshotExact(locked, batch.lines);
      hide SettlementEffects, Consume, SnapshotConsume, Marked, DistinctItems;
      ConfirmBatch(b, actor);
      ConsumeLines(b, batch.lines, locked);
      AppendSettlementEffects(b, batch);
      assert batches == ConfirmedTables(old(Tables()), b, actor).batches;
    }

    /** Gives every line back, from what was locked; false as soon as one line
        cannot be given back, with the tables half written. */
    method ReleaseLines(b: nat, lines: seq<Line>, locked: seq<Item>) returns (ok: bool)
      requires b < |batches| && batches[b].lines == lines && items == locked
      modifies this`items, this`batches
      ensures ok == LinesReleasable(locked, lines)
      ensures ok ==> LinesFound(locked, lines) && items == SnapshotRelease(locked, lines)
      ensures ok ==> batches == old(batches)[b := old(batches)[b].(lines := Marked(lines, LineState.REVERSED))]
    {
      hide PartlyMarked, Marked;
      var k := 0;
      PartlyMarkedEnds(lines, LineState.REVERSED);
      while k < |lines|
        invariant k <= |lines|
        invariant forall j :: 0 <= j < k ==> Releasable(locked, lines[j])
        invariant items == SnapshotRelease(locked, lines[..k])
        invariant |items| == |locked|
        invariant forall i :: 0 <= i < |items| ==>
            items[i].payload == locked[i].payload && items[i].source == locked[i].source
        invariant batches == old(batches)[b := old(batches)[b].(lines := PartlyMarked(lines, k, LineState.REVERSED))]
      {
        var line := lines[k];
        if line.item >= |locked| || line.state != LineState.CONFIRMED {
          return false;
        }
        var item := locked[line.item];
        if item.allocatedAmount - line.amount < 0 || item.remainingAmount + line.amount > item.payload.gross {
          return false;
        }
        AllocationState(b, k, LineState.REVERSED);
        GiveBackTo(line.item, item, line.amount);
        PartlyMarkedStep(lines, k, LineState.REVERSED);
        assert lines[..k + 1][..k] == lines[..k];
        k := k + 1;
      }
      assert lines[..k] == lines;
      ok := true;
    }

    /** Writes the reversing effects of `original` to its reversal row `id`. */
    method MirrorAllEffects(of: nat, id: nat, original: Batch, date: int) returns (ok: bool)
      requires id < |batches| && batches[id].effects == []
      modifies this`batches, this`movements
      ensures ok == BankCreditsHaveMovements(original.effects)
      ensures ok ==> movements == old(movements) + MirrorMovements(id, original.account, original.effects, date)
      ensures ok ==> batches == old(batches)[id := old(batches)[id].(
                effects := MirrorEffects(of, original.effects, date, |old(movements)|))]
    {
      hide KeyText;
      var effects := original.effects;
      var k := 0;
      while k < |effects|
        invariant k <= |effects|
        invariant BankCreditsHaveMovements(effects[..k])
        invariant movements == old(movements) + MirrorMovements(id, original.account, effects[..k], date)
        invariant batches == old(batches)[id := old(batches)[id].(
                    effects := MirrorEffects(of, effects[..k], date, |old(movements)|))]
      {
        var effect := effects[k];
        MirrorMovementCount(id, original.account, effects[..k], date);
        assert effects[..k + 1][..k] == effects[..k] && effects[..k + 1][k] == effect;
        var movement := |movements|;
        if effect.key == BankCredit {
          if effect.movement.None? {
            return false;
          }
          movement := AppendMovement(MovementCommand(
            Some(COLLECTION_AND_SETTLEMENT), id, KeyText(effect.key), BANK_ACCOUNT(original.account), effect.amount,
              effect.currency,
            date, effect.movement, Some(DEBIT), Some(MovementState.REVERSED)));
        }
        AppendEffect(id, MirrorEffect(effect, EffectId(of, k), date, movement));
        k := k + 1;
      }
      assert effects[..k] == effects;
      ok := true;
    }

    method Reverse(c: Command, key: nat, body: Reversal) returns (r: Answer)
      requires Valid()
      modifies this
      ensures Valid()
      ensures r == ReverseAnswer(old(Now()), c, key, body) && Now() == AfterReverseCommand(old(Now()), c, key, body)
    {
      ReverseKeeps(Tables(), c, body);
      LinesDistinct(Tables());
      hide Invariant, ReverseOutcome, AfterReverse;
      if Trimmed(Some(body.reason)).None? {
        return Rejected(VALIDATION);
      }
      if c.batch >= |batches| {
        return Rejected(RESOURCE_HIDDEN);
      }
      if !c.authorized {
        return Rejected(SCOPE_DENIED);
      }
      var replay := FindReply(ReverseKey(c, key), ReverseDigest(c, body));
      if replay.Some? {
        return replay.value;
      }
      var outcome := ReverseLocked(c, body);
      if outcome.Refused? {
        return Rejected(outcome.error);
      }
      replies := replies[ReverseKey(c, key) := Reply(ReverseDigest(c, body), outcome.id)];
      return Fresh(outcome.id);
    }

    /** The guards on the locked batch, then the writes; taken back when a guard
        inside their loops fires. */
    method ReverseLocked(c: Command, body: Reversal) returns (r: Outcome)
      requires c.batch < |batches| && c.authorized && Trimmed(Some(body.reason)).Some?
      requires DistinctItems(batches[c.batch].lines)
      modifies this`items, this`batches, this`movements
      ensures r == ReverseOutcome(old(Tables()), c, body) && Tables() == AfterReverse(old(Tables()), c, body)
    {
      hide Trimmed;
      var batch := batches[c.batch];
      if batch.version != c.expectedVersion {
        return Refused(STALE_VERSION);
      }
      if batch.state != BatchState.CONFIRMED {
        return Refused(REVERSAL_CONFLICT);
      }
      if batch.creator == c.actor || batch.confirmedBy == Some(c.actor) {
        return Refused(SCOPE_DENIED);
      }
      if !HasBankCredit(batch.effects) {
        return Refused(REVERSAL_CONFLICT);
      }
      if !body.proof {
        return Refused(STEP_UP_REQUIRED);
      }
      hide ReversedTables;
      var savedItems, savedBatches, savedMovements := items, batches, movements;
      var written := WriteReversal(c.batch, c.actor, body);
      if !written {
        items, batches, movements := savedItems, savedBatches, savedMovements;
        return Refused(REVERSAL_CONFLICT);
      }
      return Done(|savedBatches|);
    }

    /** The writes of a reversal; false when a guard inside one of its loops
        fires, with the tables half written. */
    method WriteReversal(b: nat, actor: nat, body: Reversal) returns (ok: bool)
      requires b < |batches| && DistinctItems(batches[b].lines)
      modifies this`items, this`batches, this`movements
      ensures ok == (LinesReleasable(old(items), old(batches)[b].lines)
          && BankCreditsHaveMovements(old(batches)[b].effects))
      ensures ok ==>
                LinesFound(old(items), old(batches)[b].lines)
                && Tables() == ReversedTables(old(Tables()), b, actor, body)
    {
      var batch := batches[b];
      var locked := items;
      var id := |batches|;
      ReverseBatch(b, actor);
      batches := batches + [ReversalBatch(b, batch, actor, body, [])];
      var released := ReleaseLines(b, batch.lines, locked);
      if !released {
        return false;
      }
      SnapshotExact(locked, batch.lines);
      var mirrored := MirrorAllEffects(b, id, batch, body.date);
      if !mirrored {
        return false;
      }
      hide Release, SnapshotRelease, MirrorEffects, MirrorMovements, DistinctItems, LinesReleasable,
        BankCreditsHaveMovements, Marked;
      assert batches == ReversedTables(old(Tables()), b, actor, body).batches;
      ok := true;
    }
  }

  lemma EffectsJoined(a: seq<Effect>, b: seq<Effect>, c: seq<Effect>, d: seq<Effect>, e: seq<Effect>, f: seq<Effect>)
    ensures (a + b + c) + d + e + f == a + (b + c + d + e + f)
  {
  }
}
