/** The invariant over whole runs. */
module SettlementRuns {
  import opened Common
  import opened Foundation
  import opened Settlement
  import opened SettlementBalances
  import opened SettlementInvariant
  import opened SettlementSteps
  import opened Sums

  // ---- collecting an item ----

  lemma CollectKeeps(s: State, command: CollectCommand)
    requires Invariant(s)
    ensures Invariant(AfterCollect(s, command)) && Extends(s, AfterCollect(s, command))
  {
    var t := AfterCollect(s, command);
    if CollectOutcome(s, command) == Done(|s.items|) {
      var n := |s.items|;
      NothingConfirmedYet(s, n);
      forall i | 0 <= i < |t.items|
        ensures ItemOk(t, i)
      {
        assert i < n ==> ItemOk(s, i);
      }
      forall b | 0 <= b < |t.batches|
        ensures BatchOk(t, b)
      {
        BatchKept(s, t, b);
      }
      CollectKeepsAcross(s, command);
    }
  }

  /** No batch has allocated an item that does not exist. */
  lemma NothingConfirmedYet(s: State, i: nat)
    requires Invariant(s) && i >= |s.items|
    ensures ConfirmedShares(s.batches, i) == 0
  {
    forall b | 0 <= b < |s.batches|
      ensures ConfirmedIn(i)(s.batches[b]) == 0
    {
      assert BatchOk(s, b);
      NoSuchLine(s.batches[b].lines, i);
    }
    SumOfZero(s.batches, ConfirmedIn(i));
  }

  lemma {:induction false} NoSuchLine(lines: seq<Line>, i: nat)
    requires Untouched(lines, i)
    ensures SumBy(lines, ConfirmedLine(i)) == 0
  {
    if |lines| > 0 {
      NoSuchLine(lines[..|lines| - 1], i);
    }
  }

  lemma CollectKeepsAcross(s: State, command: CollectCommand)
    requires Invariant(s) && CollectOutcome(s, command) == Done(|s.items|)
    ensures var t := AfterCollect(s, command);
            SpentOnce(t) && OneReversalEach(t) && OneReplacementEach(t) && OneItemEach(t)
  {
    var t := AfterCollect(s, command);
    forall b | 0 <= b < |t.batches|
      ensures SpentBelow(t.items, t.batches[b])
    {
      assert SpentBelow(s.items, s.batches[b]);
    }
    forall o | 0 <= o < |t.batches| && t.batches[o].state == BatchState.REVERSED
      ensures HasReversal(t, o)
    {
      assert HasReversal(s, o);
    }
  }

  // ---- proposing a batch ----

  lemma {:induction false} ProposedTotal(allocations: seq<Allocated>)
    ensures SumBy(ProposedLines(allocations), LineAmount()) == SumBy(allocations, AllocationAmount())
  {
    if |allocations| > 0 {
      var n := |allocations| - 1;
      ProposedTotal(allocations[..n]);
      assert ProposedLines(allocations)[..n] == ProposedLines(allocations[..n]);
    }
  }

  /** What a creation that goes through has been checked for. */
  lemma CreateFacts(s: State, actor: nat, dto: Proposal, facts: Facts)
    requires CreateOutcome(s, actor, dto, facts).Done?
    ensures RequestShape(dto) && OneCurrency(dto) && Balanced(dto) && DifferenceExplained(dto)
    ensures AllCanAllocate(s.items, dto) && !ReplacementTaken(s, dto)
  {
  }

  /** Of the proposals that pass validation the table refuses exactly those that
      give a reason, which can only be a blank one, where there is no difference. */
  lemma BlankReasonIff(dto: Proposal)
    requires CreateError(dto).None?
    ensures !ReasonRowOk(dto) <==> dto.discrepancy.amount == 0 && dto.reason.Some?
    ensures !ReasonRowOk(dto) ==> JustTrimmed(dto.reason) == Some("")
  {
  }

  lemma ProposedLinesFit(items: seq<Item>, actor: nat, dto: Proposal)
    requires RequestShape(dto) && OneCurrency(dto) && AllCanAllocate(items, dto)
    ensures LinesFit(items, ProposedBatch(dto, actor))
  {
    var lines := ProposedLines(dto.allocations);
    forall k | 0 <= k < |lines|
      ensures lines[k] == ProposedLine(dto.allocations[k])
      ensures CanAllocate(items, lines[k].item, lines[k].itemVersion, dto.account, dto.gross.currency, lines[k].amount)
      ensures lines[k].amount > 0
    {
    }
  }

  lemma ProposedFiguresFit(actor: nat, dto: Proposal)
    requires Balanced(dto) && DifferenceExplained(dto)
    ensures FiguresFit(ProposedBatch(dto, actor)) && ProposalOk(ProposedBatch(dto, actor))
  {
    hide Trimmed, SumBy;
  }

  /** A proposal written as the last row is in order if its row is. */
  lemma ProposalInTable(s: State, batch: Batch)
    requires LinesFit(s.items, batch) && FiguresFit(batch) && ProposalOk(batch) && batch.reversalOf.None?
    requires |batch.lines| > 0 && SumBy(batch.lines, LineAmount()) == batch.gross
    requires batch.state == MATCHED || batch.state == DISCREPANCY
    ensures BatchOk(s.(batches := s.batches + [batch]), |s.batches|)
  {
    hide LinesFit, FiguresFit, ProposalOk, SumBy;
  }

  lemma CreatedTables(s: State, actor: nat, dto: Proposal, facts: Facts)
    requires CreateOutcome(s, actor, dto, facts).Done?
    ensures AfterCreate(s, actor, dto, facts) == s.(batches := s.batches + [ProposedBatch(dto, actor)])
  {
    hide CreateOutcome;
  }

  lemma ProposalIsOk(s: State, actor: nat, dto: Proposal, facts: Facts)
    requires Invariant(s) && CreateOutcome(s, actor, dto, facts).Done?
    ensures BatchOk(AfterCreate(s, actor, dto, facts), |s.batches|)
  {
    CreateFacts(s, actor, dto, facts);
    hide Invariant, CreateOutcome, AfterCreate, BatchOk, LinesFit, FiguresFit, ProposalOk, OneCurrency, AllCanAllocate,
      DistinctAllocations, SumBy;
    CreatedTables(s, actor, dto, facts);
    ProposedLinesFit(s.items, actor, dto);
    ProposedFiguresFit(actor, dto);
    ProposedTotal(dto.allocations);
    ProposalInTable(s, ProposedBatch(dto, actor));
  }

  lemma CreateKeeps(s: State, actor: nat, dto: Proposal, facts: Facts)
    requires Invariant(s)
    ensures Invariant(AfterCreate(s, actor, dto, facts)) && Extends(s, AfterCreate(s, actor, dto, facts))
    ensures AfterCreate(s, actor, dto, facts).items == s.items
        && AfterCreate(s, actor, dto, facts).movements == s.movements
  {
    var t := AfterCreate(s, actor, dto, facts);
    if CreateOutcome(s, actor, dto, facts).Done? {
      ProposalIsOk(s, actor, dto, facts);
      CreateKeepsRows(s, actor, dto, facts);
      CreateKeepsAcross(s, actor, dto, facts);
      hide BatchOk, ItemOk, CreateOutcome, SpentOnce, OneReversalEach, OneReplacementEach, OneItemEach;
    }
  }

  lemma CreateKeepsRows(s: State, actor: nat, dto: Proposal, facts: Facts)
    requires Invariant(s) && CreateOutcome(s, actor, dto, facts).Done?
    ensures var t := AfterCreate(s, actor, dto, facts);
            && Extends(s, t)
            && (forall i :: 0 <= i < |t.items| ==> ItemOk(t, i))
            && forall b :: 0 <= b < |s.batches| ==> BatchOk(t, b)
  {
    hide CreateOutcome, BatchOk;
    var t := AfterCreate(s, actor, dto, facts);
    forall i | 0 <= i < |t.items|
      ensures ItemOk(t, i)
    {
      assert ItemOk(s, i);
      SumPush(s.batches, ProposedBatch(dto, actor), ConfirmedIn(i));
      SharesByState(ProposedLines(dto.allocations), i);
    }
    forall b | 0 <= b < |s.batches|
      ensures BatchOk(t, b)
    {
      BatchKept(s, t, b);
    }
  }

  lemma CreateKeepsAcross(s: State, actor: nat, dto: Proposal, facts: Facts)
    requires Invariant(s) && CreateOutcome(s, actor, dto, facts).Done?
    ensures var t := AfterCreate(s, actor, dto, facts);
            SpentOnce(t) && OneReversalEach(t) && OneReplacementEach(t) && OneItemEach(t)
  {
    hide BatchOk, ItemOk, FactsError, CreateError;
    var t := AfterCreate(s, actor, dto, facts);
    forall o | 0 <= o < |t.batches| && t.batches[o].state == BatchState.REVERSED
      ensures HasReversal(t, o)
    {
      assert HasReversal(s, o);
      var r :| 0 <= r < |s.batches| && s.batches[r].reversalOf == Some(o);
      assert t.batches[r].reversalOf == Some(o);
    }
  }

  // ---- confirming ----

  lemma ConfirmKeeps(s: State, c: Command, e: Evidence)
    requires Invariant(s)
    ensures Invariant(AfterConfirm(s, c, e)) && Extends(s, AfterConfirm(s, c, e))
  {
    ConfirmExtends(s, c, e);
    if ConfirmOutcome(s, c, e).Done? {
      var t := AfterConfirm(s, c, e);
      ConfirmFacts(s, c, e);
      forall i | 0 <= i < |t.items|
        ensures ItemOk(t, i)
      {
        ConfirmKeepsItem(s, c, e, i);
      }
      forall b | 0 <= b < |t.batches|
        ensures BatchOk(t, b)
      {
        if b == c.batch {
          ConfirmedIsOk(s, c, e);
        } else {
          ConfirmKeepsOther(s, c, e, b);
        }
      }
      ConfirmSpends(s, c, e);
      ConfirmKeepsAcross(s, c, e);
      hide ItemOk, BatchOk, ConfirmOutcome, SpentOnce, OneReversalEach, OneReplacementEach, OneItemEach;
    }
  }

  lemma ConfirmSpendsVersion(s: State, c: Command, e: Evidence, k: nat)
    requires Invariant(s) && ConfirmOutcome(s, c, e).Done? && k < |s.batches[c.batch].lines|
    ensures var l := s.batches[c.batch].lines[k];
            && l.item < |s.items| && l.itemVersion == s.items[l.item].version
            && AfterConfirm(s, c, e).items[l.item].version == l.itemVersion + 1
  {
    ConfirmFacts(s, c, e);
    hide Invariant, Consume, ConfirmOutcome;
    ConsumeLine(s.items, s.batches[c.batch].lines, k);
  }

  lemma ConfirmSpends(s: State, c: Command, e: Evidence)
    requires Invariant(s) && ConfirmOutcome(s, c, e).Done?
    ensures SpentOnce(AfterConfirm(s, c, e))
  {
    ConfirmFacts(s, c, e);
    ConfirmExtends(s, c, e);
    var t := AfterConfirm(s, c, e);
    var lines := s.batches[c.batch].lines;
    forall k | 0 <= k < |lines|
      ensures lines[k].itemVersion == s.items[lines[k].item].version < t.items[lines[k].item].version
    {
      ConfirmSpendsVersion(s, c, e, k);
    }
    hide BatchOk, ItemOk, Consume, ConfirmOutcome, LinesConfirmable, OriginalOk, OneReversalEach, OneReplacementEach,
      OneItemEach;
    forall b | 0 <= b < |t.batches|
      ensures SpentBelow(t.items, t.batches[b])
      ensures b != c.batch ==>
          SpentApart(t.batches[b], t.batches[c.batch]) && SpentApart(t.batches[c.batch], t.batches[b])
    {
      assert SpentBelow(s.items, s.batches[b]);
      assert forall i :: 0 <= i < |s.items| ==> ItemProgress(s.items[i], t.items[i]);
    }
  }

  lemma ConfirmKeepsAcross(s: State, c: Command, e: Evidence)
    requires Invariant(s) && ConfirmOutcome(s, c, e).Done?
    ensures var t := AfterConfirm(s, c, e); OneReversalEach(t) && OneReplacementEach(t) && OneItemEach(t)
  {
    ConfirmFacts(s, c, e);
    var t := AfterConfirm(s, c, e);
    hide BatchOk, ItemOk, Consume, ConfirmOutcome, LinesConfirmable, OriginalOk, SpentOnce;
    forall o | 0 <= o < |t.batches| && t.batches[o].state == BatchState.REVERSED
      ensures HasReversal(t, o)
    {
      assert HasReversal(s, o);
      var r :| 0 <= r < |s.batches| && s.batches[r].reversalOf == Some(o);
      assert t.batches[r].reversalOf == Some(o);
    }
    forall i | 0 <= i < |t.items|
      ensures t.items[i].payload == s.items[i].payload && t.items[i].source == s.items[i].source
    {
      PayloadsKept(s.items, s.batches[c.batch].lines, i);
    }
  }

  // ---- reversing ----

  lemma ReverseKeeps(s: State, c: Command, r: Reversal)
    requires Invariant(s)
    ensures Invariant(AfterReverse(s, c, r)) && Extends(s, AfterReverse(s, c, r))
  {
    ReverseExtends(s, c, r);
    if ReverseOutcome(s, c, r).Done? {
      var t := AfterReverse(s, c, r);
      ReverseFacts(s, c, r);
      forall i | 0 <= i < |t.items|
        ensures ItemOk(t, i)
      {
        ReverseKeepsItem(s, c, r, i);
      }
      forall b | 0 <= b < |t.batches|
        ensures BatchOk(t, b)
      {
        if b == c.batch {
          ReversedIsOk(s, c, r);
        } else if b == |s.batches| {
          ReversalIsOk(s, c, r);
        } else {
          ReverseKeepsOther(s, c, r, b);
        }
      }
      ReverseKeepsSpent(s, c, r);
      ReverseKeepsAcross(s, c, r);
      hide ItemOk, BatchOk, ReverseOutcome, SpentOnce, OneReversalEach, OneReplacementEach, OneItemEach;
    }
  }

  lemma ReverseKeepsSpent(s: State, c: Command, r: Reversal)
    requires Invariant(s) && ReverseOutcome(s, c, r).Done?
    ensures SpentOnce(AfterReverse(s, c, r))
  {
    ReverseFacts(s, c, r);
    ReverseExtends(s, c, r);
    var t := AfterReverse(s, c, r);
    hide BatchOk, ItemOk, Release, MirrorEffects, MirrorMovements, ReverseOutcome, ConfirmedOk, OneReversalEach,
      OneReplacementEach, OneItemEach;
    forall b | 0 <= b < |t.batches|
      ensures SpentBelow(t.items, t.batches[b])
    {
      if b < |s.batches| {
        assert SpentBelow(s.items, s.batches[b]);
        assert forall i :: 0 <= i < |s.items| ==> ItemProgress(s.items[i], t.items[i]);
      }
    }
    forall a, b | 0 <= a < b < |t.batches|
      ensures SpentApart(t.batches[a], t.batches[b])
    {
      if b < |s.batches| {
        assert SpentApart(s.batches[a], s.batches[b]);
      }
    }
  }

  lemma ReverseKeepsAcross(s: State, c: Command, r: Reversal)
    requires Invariant(s) && ReverseOutcome(s, c, r).Done?
    ensures var t := AfterReverse(s, c, r); OneReversalEach(t) && OneReplacementEach(t) && OneItemEach(t)
  {
    ReverseFacts(s, c, r);
    var t := AfterReverse(s, c, r);
    forall a | 0 <= a < |s.batches|
      ensures t.batches[a].reversalOf != Some(c.batch)
      ensures t.batches[a].reversalOf == s.batches[a].reversalOf
          && t.batches[a].replacementFor == s.batches[a].replacementFor
    {
      assert BatchOk(s, a);
    }
    hide BatchOk, ItemOk, Release, MirrorEffects, MirrorMovements, ReverseOutcome, ConfirmedOk, SpentOnce;
    forall o | 0 <= o < |t.batches| && t.batches[o].state == BatchState.REVERSED
      ensures HasReversal(t, o)
    {
      if o == c.batch {
        assert t.batches[|s.batches|].reversalOf == Some(o);
      } else {
        assert HasReversal(s, o);
        var a :| 0 <= a < |s.batches| && s.batches[a].reversalOf == Some(o);
        assert t.batches[a].reversalOf == Some(o);
      }
    }
    forall i | 0 <= i < |t.items|
      ensures t.items[i].payload == s.items[i].payload && t.items[i].source == s.items[i].source
    {
      PayloadsKept(s.items, s.batches[c.batch].lines, i);
    }
  }

  // ---- all steps ----

  lemma ForeignKeeps(s: State, m: Movement)
    requires Invariant(s)
    ensures Invariant(Next(s, Foreign(m))) && Extends(s, Next(s, Foreign(m)))
  {
    var t := Next(s, Foreign(m));
    forall i | 0 <= i < |t.items|
      ensures ItemOk(t, i)
    {
      assert ItemOk(s, i);
    }
    forall b | 0 <= b < |t.batches|
      ensures BatchOk(t, b)
    {
      BatchKept(s, t, b);
    }
    forall o | 0 <= o < |t.batches| && t.batches[o].state == BatchState.REVERSED
      ensures HasReversal(t, o)
    {
      assert HasReversal(s, o);
    }
  }

  lemma NextKeeps(s: State, step: Step)
    requires Invariant(s)
    ensures Invariant(Next(s, step)) && Extends(s, Next(s, step))
  {
    hide Invariant, Extends;
    match step {
      case Collect(command) => CollectKeeps(s, command);
      case Create(actor, dto, facts) => CreateKeeps(s, actor, dto, facts);
      case Confirm(command, evidence) => ConfirmKeeps(s, command, evidence);
      case Reverse(command, reversal) => ReverseKeeps(s, command, reversal);
      case Foreign(m) => ForeignKeeps(s, m);
    }
  }

  lemma ExtendsItself(s: State)
    ensures Extends(s, s)
  {
  }

  /** Every run keeps the invariant and only extends what was there. */
  lemma {:induction false} RunKeeps(s: State, steps: seq<Step>)
    requires Invariant(s)
    ensures Invariant(Run(s, steps)) && Extends(s, Run(s, steps))
  {
    hide Invariant, Extends, Next;
    if |steps| == 0 {
      ExtendsItself(s);
    } else {
      var before := Run(s, steps[..|steps| - 1]);
      RunKeeps(s, steps[..|steps| - 1]);
      NextKeeps(before, steps[|steps| - 1]);
      ExtendsTransitive(s, before, Run(s, steps));
    }
  }

  lemma EmptyIsInOrder()
    ensures Invariant(EMPTY)
  {
  }

  /** In every reachable state each item's allocated amount is the sum of its
      confirmed allocations over all batches, allocated and remaining are
      non-negative and add up to the gross amount, and the state is the one the
      balances dictate. */
  lemma ReachableItems(steps: seq<Step>, i: nat)
    requires i < |Run(EMPTY, steps).items|
    ensures ItemOk(Run(EMPTY, steps), i)
  {
    EmptyIsInOrder();
    RunKeeps(EMPTY, steps);
  }

  /** In every reachable state a batch that was confirmed was confirmed by another
      user than its creator, and reversed by a third one; its figures balance, a
      difference was approved, and the allocated lines add up to the gross amount. */
  lemma ReachableBatches(steps: seq<Step>, b: nat)
    requires b < |Run(EMPTY, steps).batches|
    ensures var batch := Run(EMPTY, steps).batches[b];
            && FiguresFit(batch)
            && (batch.state != BatchState.REVERSAL ==> SumBy(batch.lines, LineAmount()) == batch.gross)
            && (Spent(batch) ==> ConfirmedBySomeoneElse(batch) && Approved(batch))
            && (batch.state == BatchState.REVERSED ==> ReversedBySomeoneElse(batch))
  {
    EmptyIsInOrder();
    RunKeeps(EMPTY, steps);
    assert BatchOk(Run(EMPTY, steps), b);
  }

  /** The item of a source is the only one with that source. */
  lemma FoundBySource(s: State, id: nat)
    requires Invariant(s) && id < |s.items|
    ensures BySource(s.items, s.items[id].source) == Some(id)
  {
    assert OneItemEach(s);
    var found := BySource(s.items, s.items[id].source).value;
    assert found == id;
  }

  lemma Collected(s: State, command: CollectCommand)
    requires CollectOutcome(s, command).Done?
    ensures var t := AfterCollect(s, command); var id := CollectOutcome(s, command).id;
            && id < |t.items| && t.items[id].source == command.source && command.payload.gross > 0
            && t.items[id].payload == NormalizedPayload(command.payload)
  {
  }

  /** Whatever runs in between, a collection command that has been accepted is
      answered with the same item and changes nothing; another payload for its
      source is refused. */
  lemma CollectIsIdempotent(s: State, command: CollectCommand, between: seq<Step>, other: CollectCommand)
    requires Invariant(s) && CollectOutcome(s, command).Done?
    requires other.source == command.source && other.payload.gross > 0
    ensures var u := Run(AfterCollect(s, command), between);
            && AfterCollect(u, other) == u
            && CollectOutcome(u, other) ==
               (if NormalizedPayload(other.payload)
                 == NormalizedPayload(command.payload) then CollectOutcome(s, command)
                else Refused(COLLECTION_IDENTITY_CONFLICT))
  {
    var t := AfterCollect(s, command);
    var u := Run(t, between);
    var id := CollectOutcome(s, command).id;
    Collected(s, command);
    CollectKeeps(s, command);
    RunKeeps(t, between);
    assert ItemProgress(t.items[id], u.items[id]);
    FoundBySource(u, id);
    hide Invariant, Run, BySource, NormalizedPayload, ProviderReferenceTaken;
  }
}
