/** Reversal is never blocked by arithmetic and undoes exactly one batch;
    proposals against a version of an item that is gone never confirm. */
module SettlementReversal {
  import opened Common
  import opened Foundation
  import opened Settlement
  import opened SettlementBalances
  import opened SettlementInvariant
  import opened SettlementRuns
  import opened SettlementSteps

  /** The guards inside the reversal loops cannot fire on a confirmed batch. */
  lemma LoopGuardsPass(s: State, b: nat)
    requires Invariant(s) && b < |s.batches| && s.batches[b].state == BatchState.CONFIRMED
    ensures LinesReleasable(s.items, s.batches[b].lines)
    ensures HasBankCredit(s.batches[b].effects) && BankCreditsHaveMovements(s.batches[b].effects)
  {
    var batch := s.batches[b];
    assert BatchOk(s, b);
    forall k | 0 <= k < |batch.lines|
      ensures s.items[batch.lines[k].item].allocatedAmount - batch.lines[k].amount >= 0
      ensures s.items[batch.lines[k].item].remainingAmount
          + batch.lines[k].amount <= s.items[batch.lines[k].item].payload.gross
    {
      var i := batch.lines[k].item;
      ShareIsAllocated(s, b, i);
      ConsumeLine(s.items, batch.lines, k);
      assert ItemOk(s, i);
    }
    EffectKeys(batch.(version := 0), batch.effects[0].movement.value);
    assert batch.effects[0].key == BankCredit;
  }

  /** A confirmed batch can be reversed exactly when a reason is given and the
      actor is authorized, sees the current version, has neither created nor
      confirmed the batch and proves a step-up: whatever other batches have done
      to its items in the meantime. */
  lemma ReversibleIff(s: State, c: Command, r: Reversal)
    requires Invariant(s) && c.batch < |s.batches| && s.batches[c.batch].state == BatchState.CONFIRMED
    ensures ReverseOutcome(s, c, r).Done? <==>
            && Trimmed(Some(r.reason)).Some? && c.authorized && r.proof
            && c.expectedVersion == 1
            && c.actor != s.batches[c.batch].creator && s.batches[c.batch].confirmedBy != Some(c.actor)
  {
    LoopGuardsPass(s, c.batch);
    assert BatchOk(s, c.batch);
  }

  lemma {:induction false} SharesOfSameTerms(x: seq<Line>, y: seq<Line>, i: nat)
    requires |x| == |y| && forall k :: 0 <= k < |x| ==> SameLine(x[k], y[k])
    ensures Share(x, i) == Share(y, i)
  {
    if |x| > 0 {
      assert SameLine(x[|x| - 1], y[|x| - 1]);
      SharesOfSameTerms(x[..|x| - 1], y[..|y| - 1], i);
    }
  }

  lemma ReverseGivesBack(s: State, c: Command, r: Reversal, i: nat)
    requires Invariant(s) && ReverseOutcome(s, c, r).Done? && i < |s.items|
    ensures AfterReverse(s, c, r).items[i].allocatedAmount
        == s.items[i].allocatedAmount - Share(s.batches[c.batch].lines, i)
    ensures AfterReverse(s, c, r).items[i].remainingAmount
        == s.items[i].remainingAmount + Share(s.batches[c.batch].lines, i)
  {
    ReverseKeepsItem(s, c, r, i);
    SharesAfterReverse(s, c, r, i);
    PayloadsKept(s.items, s.batches[c.batch].lines, i);
    assert ItemOk(s, i);
  }

  lemma ConfirmTakes(s: State, c: Command, e: Evidence, i: nat)
    requires Invariant(s) && ConfirmOutcome(s, c, e).Done? && i < |s.items|
    ensures AfterConfirm(s, c, e).items[i].allocatedAmount
        == s.items[i].allocatedAmount + Share(s.batches[c.batch].lines, i)
    ensures AfterConfirm(s, c, e).items[i].remainingAmount
        == s.items[i].remainingAmount - Share(s.batches[c.batch].lines, i)
  {
    ConfirmKeepsItem(s, c, e, i);
    SharesAfterConfirm(s, c, e, i);
    PayloadsKept(s.items, s.batches[c.batch].lines, i);
    assert ItemOk(s, i);
  }

  /** Whatever runs between its confirmation and its reversal, a batch gives back
      to every item exactly what it took. */
  lemma ReversalIsExact(s: State, c: Command, e: Evidence, between: seq<Step>, d: Command, r: Reversal, i: nat)
    requires Invariant(s) && ConfirmOutcome(s, c, e).Done? && d.batch == c.batch && i < |s.items|
    requires ReverseOutcome(Run(AfterConfirm(s, c, e), between), d, r).Done?
    ensures var t := AfterConfirm(s, c, e); var u := Run(t, between); var v := AfterReverse(u, d, r);
            && i < |u.items| && i < |v.items|
            && u.items[i].allocatedAmount - v.items[i].allocatedAmount
               == t.items[i].allocatedAmount - s.items[i].allocatedAmount
            && v.items[i].remainingAmount - u.items[i].remainingAmount
               == s.items[i].remainingAmount - t.items[i].remainingAmount
  {
    var t := AfterConfirm(s, c, e);
    var u := Run(t, between);
    ConfirmKeeps(s, c, e);
    RunKeeps(t, between);
    ConfirmTakes(s, c, e, i);
    ReverseGivesBack(u, d, r, i);
    ExtendsTransitive(s, t, u);
    hide Invariant, ConfirmOutcome, ReverseOutcome, AfterConfirm, AfterReverse, Run;
    assert SameTerms(s.batches[c.batch], u.batches[c.batch]);
    SharesOfSameTerms(s.batches[c.batch].lines, u.batches[c.batch].lines, i);
  }

  // ---- effects, one to one ----

  /** The reversing effect: same key, amount, currency and item, the other
      direction, and for the bank credit a debit of the movement it reverses. */
  predicate Undoes(s: State, x: Effect, o: EffectId)
    requires o.batch < |s.batches| && o.position < |s.batches[o.batch].effects|
  {
    var original := s.batches[o.batch].effects[o.position];
    && x.reversalOf == Some(o) && original.direction == SETTLEMENT && x.direction == EffectDirection.REVERSAL
    && x.key == original.key && x.amount == original.amount && x.currency == original.currency
    && x.item == original.item
    && (x.key == BankCredit <==> x.movement.Some?)
    && (x.key == BankCredit ==>
          && x.movement.value < |s.movements| && original.movement.Some? && original.movement.value < |s.movements|
          && var debit, credit := s.movements[x.movement.value], s.movements[original.movement.value];
          && debit.reversalOf == original.movement
          && SignedAmount(debit) + SignedAmount(credit) == 0
          && debit.endpoint == credit.endpoint && debit.currency == credit.currency)
  }

  lemma SettlementDirection(batch: Batch, movement: nat)
    ensures forall k :: 0 <= k < |SettlementEffects(batch, movement)| ==>
              SettlementEffects(batch, movement)[k].direction == SETTLEMENT
              && SettlementEffects(batch, movement)[k].reversalOf.None?
  {
  }

  /** What the invariant says of a reversal and its original. */
  lemma ReversalFacts(s: State, r: nat)
    requires Invariant(s) && r < |s.batches| && s.batches[r].state == BatchState.REVERSAL
    ensures ReversalOk(s, r)
    ensures var o := s.batches[r].reversalOf.value; HasSettlementEffects(s.movements, o, s.batches[o])
  {
    assert BatchOk(s, r);
    assert BatchOk(s, s.batches[r].reversalOf.value);
  }

  /** A reversal has one effect for each effect of its original, in order. */
  lemma ReversalMirrors(s: State, r: nat, k: nat)
    requires Invariant(s) && r < |s.batches| && s.batches[r].state == BatchState.REVERSAL
    ensures var o := s.batches[r].reversalOf;
            && o.Some? && o.value < |s.batches| && s.batches[o.value].state == BatchState.REVERSED
            && |s.batches[r].effects| == |s.batches[o.value].effects|
            && (k < |s.batches[r].effects| ==> Undoes(s, s.batches[r].effects[k], EffectId(o.value, k)))
  {
    ReversalFacts(s, r);
    var batch := s.batches[r];
    var o := batch.reversalOf.value;
    var original := s.batches[o];
    if k < |batch.effects| {
      var m, written := batch.effects[0].movement.value, original.effects[0].movement.value;
      EffectKeys(original.(version := 0), written);
      SettlementDirection(original.(version := 0), written);
      MirrorAt(o, original.effects, batch.date, m, k);
      MirrorAt(o, original.effects, batch.date, m, 0);
      assert original.effects[..0] == [];
      hide Invariant, MirrorEffects, SettlementEffects;
      assert Undoes(s, batch.effects[k], EffectId(o, k));
    }
  }

  /** No effect is reversed twice, in any two rows of the whole table. */
  lemma ReversedOnce(s: State, r: nat, k: nat, q: nat, l: nat)
    requires Invariant(s) && r < |s.batches| && k < |s.batches[r].effects| && q < |s.batches|
        && l < |s.batches[q].effects|
    requires s.batches[r].effects[k].reversalOf.Some?
    requires s.batches[r].effects[k].reversalOf == s.batches[q].effects[l].reversalOf
    ensures r == q && k == l
  {
    OnlyReversalsReverse(s, r, k);
    OnlyReversalsReverse(s, q, l);
    ReversalMirrors(s, r, k);
    ReversalMirrors(s, q, l);
  }

  lemma OnlyReversalsReverse(s: State, r: nat, k: nat)
    requires Invariant(s) && r < |s.batches| && k < |s.batches[r].effects| && s.batches[r].effects[k].reversalOf.Some?
    ensures s.batches[r].state == BatchState.REVERSAL
  {
    assert BatchOk(s, r);
    if s.batches[r].state != BatchState.REVERSAL {
      SettlementDirection(s.batches[r].(version := 0), s.batches[r].effects[0].movement.value);
    }
  }

  /** Every effect of a reversed batch is reversed, by exactly one reversal. */
  lemma ReversedCompletely(s: State, o: nat, k: nat) returns (r: nat)
    requires Invariant(s) && o < |s.batches| && s.batches[o].state == BatchState.REVERSED && k < |s.batches[o].effects|
    ensures r < |s.batches| && s.batches[r].reversalOf == Some(o) && k < |s.batches[r].effects|
    ensures Undoes(s, s.batches[r].effects[k], EffectId(o, k))
    ensures forall q :: 0 <= q < |s.batches| && s.batches[q].reversalOf == Some(o) ==> q == r
  {
    assert HasReversal(s, o);
    r :| 0 <= r < |s.batches| && s.batches[r].reversalOf == Some(o);
    assert BatchOk(s, r);
    ReversalMirrors(s, r, k);
  }

  // ---- stale proposals ----

  /** A proposal one of whose items has moved on. */
  predicate Stale(s: State, b: nat, k: nat) {
    && b < |s.batches| && k < |s.batches[b].lines| && s.batches[b].lines[k].item < |s.items|
    && s.batches[b].lines[k].itemVersion < s.items[s.batches[b].lines[k].item].version
  }

  lemma StaleCannotConfirm(s: State, b: nat, k: nat, c: Command, e: Evidence)
    requires Stale(s, b, k) && c.batch == b
    ensures ConfirmOutcome(s, c, e).Refused?
  {
    var l := s.batches[b].lines[k];
    assert !CanAllocate(s.items, l.item, l.itemVersion, s.batches[b].account, s.batches[b].currency, l.amount);
  }

  lemma StaleStepKeeps(s: State, b: nat, k: nat, step: Step)
    requires Invariant(s) && Stale(s, b, k) && Proposed(s.batches[b])
    ensures Stale(Next(s, step), b, k) && Next(s, step).batches[b] == s.batches[b]
  {
    var t := Next(s, step);
    NextKeeps(s, step);
    assert Progress(s.batches[b], t.batches[b]);
    assert ItemProgress(s.items[s.batches[b].lines[k].item], t.items[s.batches[b].lines[k].item]);
    assert t.batches[b] == s.batches[b] by {
      if step.Confirm? && step.command.batch == b {
        StaleCannotConfirm(s, b, k, step.command, step.evidence);
      }
      hide Invariant, ConfirmOutcome, ReverseOutcome, CreateOutcome, Extends;
      ReverseNeedsConfirmed(s, b, step);
    }
  }

  lemma ReverseNeedsConfirmed(s: State, b: nat, step: Step)
    requires b < |s.batches| && Proposed(s.batches[b])
    ensures step.Reverse? && step.command.batch == b ==> ReverseOutcome(s, step.command, step.reversal).Refused?
  {
  }

  /** Once any confirmation or reversal has touched an item, older proposals on
      it stay proposals in every later state. */
  lemma {:induction false} StaleNeverConfirms(s: State, b: nat, k: nat, steps: seq<Step>)
    requires Invariant(s) && Stale(s, b, k) && Proposed(s.batches[b])
    ensures Stale(Run(s, steps), b, k) && Run(s, steps).batches[b] == s.batches[b]
  {
    if |steps| > 0 {
      var before := steps[..|steps| - 1];
      StaleNeverConfirms(s, b, k, before);
      RunKeeps(s, before);
      StaleStepKeeps(Run(s, before), b, k, steps[|steps| - 1]);
    }
  }

  lemma ConfirmMovesOn(s: State, c: Command, e: Evidence, j: nat)
    requires Invariant(s) && ConfirmOutcome(s, c, e).Done? && j < |s.batches[c.batch].lines|
    ensures var t := AfterConfirm(s, c, e); var i := s.batches[c.batch].lines[j].item;
            && i < |s.items| == |t.items| && t.items[i].version == s.items[i].version + 1
            && |t.batches| == |s.batches| && t.batches == s.batches[c.batch := t.batches[c.batch]]
  {
    ConfirmFacts(s, c, e);
    assert BatchOk(s, c.batch);
    hide Invariant, ConfirmOutcome, BatchOk, SettlementEffects, Consume;
    ConsumeLine(s.items, s.batches[c.batch].lines, j);
  }

  lemma ReverseMovesOn(s: State, c: Command, r: Reversal, j: nat)
    requires Invariant(s) && ReverseOutcome(s, c, r).Done? && j < |s.batches[c.batch].lines|
    ensures var t := AfterReverse(s, c, r); var i := s.batches[c.batch].lines[j].item;
            && i < |s.items| == |t.items| && t.items[i].version == s.items[i].version + 1
            && |t.batches| == |s.batches| + 1
            && t.batches[..|s.batches|] == s.batches[c.batch := t.batches[c.batch]]
  {
    ReverseFacts(s, c, r);
    assert BatchOk(s, c.batch);
    hide Invariant, ReverseOutcome, BatchOk, MirrorEffects, MirrorMovements, Release;
    ConsumeLine(s.items, s.batches[c.batch].lines, j);
  }

  /** Confirming or reversing a batch makes every open proposal on one of its
      items stale. */
  lemma TouchingMakesStale(s: State, step: Step, b: nat, k: nat)
    requires Invariant(s) && b < |s.batches| && Proposed(s.batches[b]) && k < |s.batches[b].lines|
    requires || (step.Confirm? && ConfirmOutcome(s, step.command, step.evidence).Done?)
             || (step.Reverse? && ReverseOutcome(s, step.command, step.reversal).Done?)
    requires step.command.batch != b && Touched(s.batches[step.command.batch].lines, s.batches[b].lines[k].item)
    ensures Stale(Next(s, step), b, k)
  {
    var lines := s.batches[step.command.batch].lines;
    var j :| 0 <= j < |lines| && lines[j].item == s.batches[b].lines[k].item;
    assert BatchOk(s, b) && LinesFit(s.items, s.batches[b]);
    hide Invariant, ConfirmOutcome, ReverseOutcome, AfterConfirm, AfterReverse, BatchOk;
    if step.Confirm? {
      ConfirmMovesOn(s, step.command, step.evidence, j);
    } else {
      ReverseMovesOn(s, step.command, step.reversal, j);
      assert Next(s, step).batches[b] == Next(s, step).batches[..|s.batches|][b];
    }
  }

  /** None of the items a proposal names has moved on. */
  predicate Untaken(items: seq<Item>, dto: Proposal) {
    forall k :: 0 <= k < |dto.allocations| ==>
      dto.allocations[k].item < |items| && items[dto.allocations[k].item].version == dto.allocations[k].itemVersion
  }

  /** An item at the version it was proposed with can still give what was asked. */
  lemma StillAllocatable(s: State, u: State, dto: Proposal)
    requires Extends(s, u) && AllCanAllocate(s.items, dto) && Untaken(u.items, dto)
    ensures AllCanAllocate(u.items, dto)
  {
    forall k | 0 <= k < |dto.allocations|
      ensures u.items[dto.allocations[k].item] == s.items[dto.allocations[k].item]
    {
      var i := dto.allocations[k].item;
      assert CanAllocate(s.items, i, dto.allocations[k].itemVersion, dto.account, dto.gross.currency,
        dto.allocations[k].money.amount);
      assert ItemProgress(s.items[i], u.items[i]);
    }
  }

  lemma ConfirmableLines(items: seq<Item>, dto: Proposal, actor: nat)
    requires RequestShape(dto) && OneCurrency(dto)
    ensures LinesConfirmable(items, ProposedBatch(dto, actor)) <==> AllCanAllocate(items, dto)
  {
    var lines := ProposedLines(dto.allocations);
    assert forall k :: 0 <= k < |lines| ==> lines[k] == ProposedLine(dto.allocations[k]);
    if AllCanAllocate(items, dto) {
      assert LinesFound(items, lines) by {
        forall k | 0 <= k < |lines|
          ensures lines[k].item < |items|
        {
          var a := dto.allocations[k];
          assert CanAllocate(items, a.item, a.itemVersion, dto.account, dto.gross.currency, a.money.amount);
        }
      }
      LengthCheckForcesDistinct(items, lines);
    } else {
      var k :| 0 <= k < |dto.allocations|
        && !CanAllocate(items, dto.allocations[k].item, dto.allocations[k].itemVersion, dto.account, dto.gross.currency,
             dto.allocations[k].money.amount);
      assert !CanAllocate(items, lines[k].item, lines[k].itemVersion, dto.account, dto.gross.currency, lines[k].amount);
    }
  }

  lemma UntakenWhenAllocatable(items: seq<Item>, dto: Proposal)
    requires AllCanAllocate(items, dto)
    ensures Untaken(items, dto)
  {
    forall k | 0 <= k < |dto.allocations|
      ensures dto.allocations[k].item < |items|
          && items[dto.allocations[k].item].version == dto.allocations[k].itemVersion
    {
      var a := dto.allocations[k];
      assert CanAllocate(items, a.item, a.itemVersion, dto.account, dto.gross.currency, a.money.amount);
    }
  }

  /** A row that is still a proposal is the row that was proposed. */
  lemma StillAsProposed(s: State, actor: nat, dto: Proposal, facts: Facts, u: State)
    requires Invariant(u) && CreateOutcome(s, actor, dto, facts).Done? && Extends(AfterCreate(s, actor, dto, facts), u)
    requires Proposed(u.batches[|s.batches|])
    ensures u.batches[|s.batches|] == ProposedBatch(dto, actor)
  {
    var t := AfterCreate(s, actor, dto, facts);
    assert t.batches[|s.batches|] == ProposedBatch(dto, actor);
    assert Progress(t.batches[|s.batches|], u.batches[|s.batches|]);
    assert BatchOk(u, |s.batches|);
  }

  /** Whatever has run since it was made, a proposal can be confirmed exactly when
      none of its items has moved on, someone else who is authorized asks, the
      difference is approved and the evidence still holds: never for want of
      balance alone. */
  lemma ConfirmableIff(s: State, actor: nat, dto: Proposal, facts: Facts, between: seq<Step>, c: Command, e: Evidence)
    requires Invariant(s) && CreateOutcome(s, actor, dto, facts).Done? && c.batch == |s.batches|
    requires var u := Run(AfterCreate(s, actor, dto, facts), between);
        c.batch < |u.batches| && Proposed(u.batches[c.batch])
    ensures var u := Run(AfterCreate(s, actor, dto, facts), between);
            ConfirmOutcome(u, c, e).Done? <==>
              && c.authorized && c.expectedVersion == 0 && c.actor != actor
              && (dto.discrepancy.amount == 0 || dto.disposition == APPROVED_DIFFERENCE)
              && EvidenceValid(e, dto.gross.currency) && Untaken(u.items, dto)
  {
    var t := AfterCreate(s, actor, dto, facts);
    var u := Run(t, between);
    CreateKeeps(s, actor, dto, facts);
    RunKeeps(t, between);
    ExtendsTransitive(s, t, u);
    CreateFacts(s, actor, dto, facts);
    StillAsProposed(s, actor, dto, facts, u);
    ConfirmableLines(u.items, dto, actor);
    hide Invariant, CreateOutcome, AfterCreate, Run, Extends, AllCanAllocate, LinesConfirmable, EvidenceValid, Untaken;
    if Untaken(u.items, dto) {
      StillAllocatable(s, u, dto);
    }
    if AllCanAllocate(u.items, dto) {
      UntakenWhenAllocatable(u.items, dto);
    }
  }

  /** Of all proposals made against the same version of an item at most one has
      ever been confirmed. */
  lemma ConfirmedOncePerVersion(steps: seq<Step>, a: nat, j: nat, b: nat, k: nat)
    requires var s := Run(EMPTY, steps);
             && a < |s.batches| && b < |s.batches| && Spent(s.batches[a]) && Spent(s.batches[b])
             && j < |s.batches[a].lines| && k < |s.batches[b].lines|
             && s.batches[a].lines[j].item == s.batches[b].lines[k].item
             && s.batches[a].lines[j].itemVersion == s.batches[b].lines[k].itemVersion
    ensures a == b && j == k
  {
    var s := Run(EMPTY, steps);
    EmptyIsInOrder();
    RunKeeps(EMPTY, steps);
    assert SpentApart(s.batches[a], s.batches[b]) || a >= b;
    assert SpentApart(s.batches[b], s.batches[a]) || b >= a;
    assert BatchOk(s, a);
  }
}
