/** Money is conserved per bank account and currency. */
module SettlementConservation {
  import opened Foundation
  import opened Settlement
  import opened SettlementBalances
  import opened SettlementInvariant
  import opened SettlementRuns
  import opened SettlementSteps
  import opened Sums

  /** What a settlement movement adds to an account in a currency. */
  function BankNet(account: nat, currency: Currency): Movement -> int {
    (m: Movement) =>
      if m.owner == COLLECTION_AND_SETTLEMENT && m.endpoint == BANK_ACCOUNT(account) && m.currency == currency
      then SignedAmount(m) else 0
  }

  predicate StandsFor(b: Batch, account: nat, currency: Currency) {
    b.state == BatchState.CONFIRMED && b.account == account && b.currency == currency
  }

  function ConfirmedNet(account: nat, currency: Currency): Batch -> int {
    (b: Batch) => if StandsFor(b, account, currency) then b.actualNet else 0
  }

  function ConfirmedGross(account: nat, currency: Currency): Batch -> int {
    (b: Batch) => if StandsFor(b, account, currency) then b.actualNet + b.fee + b.deduction - b.discrepancy else 0
  }

  /** The bank movements net to the actual nets of the batches now confirmed, and
      what the items have allocated is that net plus fees and deductions minus
      differences. */
  predicate Conserved(s: State, account: nat, currency: Currency) {
    && SumBy(s.movements, BankNet(account, currency)) == SumBy(s.batches, ConfirmedNet(account, currency))
    && SumBy(s.items, Settled(account, currency)) == SumBy(s.batches, ConfirmedGross(account, currency))
  }

  lemma CollectConserves(s: State, command: CollectCommand, a: nat, c: Currency)
    requires Conserved(s, a, c)
    ensures Conserved(AfterCollect(s, command), a, c)
  {
    if CollectOutcome(s, command) == Done(|s.items|) {
      SumPush(s.items, OpenItem(command), Settled(a, c));
    }
  }

  lemma CreateConserves(s: State, actor: nat, dto: Proposal, facts: Facts, a: nat, c: Currency)
    requires Conserved(s, a, c)
    ensures Conserved(AfterCreate(s, actor, dto, facts), a, c)
  {
    hide CreateOutcome;
    SumPush(s.batches, ProposedBatch(dto, actor), ConfirmedNet(a, c));
    SumPush(s.batches, ProposedBatch(dto, actor), ConfirmedGross(a, c));
  }

  lemma ConfirmConserves(s: State, command: Command, e: Evidence, a: nat, c: Currency)
    requires Invariant(s) && Conserved(s, a, c)
    ensures Conserved(AfterConfirm(s, command, e), a, c)
  {
    if ConfirmOutcome(s, command, e).Done? {
      ConfirmFacts(s, command, e);
      hide Invariant, ConfirmOutcome, LinesConfirmable, Consume, SettlementEffects;
      var batch := s.batches[command.batch];
      var after := ConfirmedBatch(batch, command.actor, |s.movements|);
      TotalMoved(s.items, batch.lines, batch.account, batch.currency, a, c);
      SumUpdate(s.batches, command.batch, after, ConfirmedNet(a, c));
      SumUpdate(s.batches, command.batch, after, ConfirmedGross(a, c));
      SumPush(s.movements, CreditMovement(command.batch, batch), BankNet(a, c));
    }
  }

  lemma ReverseMovesBatches(s: State, command: Command, r: Reversal, f: Batch -> int, moved: int)
    requires Invariant(s) && ReverseOutcome(s, command, r).Done?
    requires f(s.batches[command.batch]) == moved && f(ReversedBatch(s.batches[command.batch], command.actor)) == 0
    requires forall effects :: f(ReversalBatch(command.batch, s.batches[command.batch], command.actor, r, effects)) == 0
    ensures SumBy(AfterReverse(s, command, r).batches, f) == SumBy(s.batches, f) - moved
  {
    ReverseFacts(s, command, r);
    hide Invariant, ReverseOutcome, Release, MirrorEffects, MirrorMovements;
    var batch := s.batches[command.batch];
    var effects := MirrorEffects(command.batch, batch.effects, r.date, |s.movements|);
    var reversed := ReversedBatch(batch, command.actor);
    SumUpdate(s.batches, command.batch, reversed, f);
    SumPush(s.batches[command.batch := reversed], ReversalBatch(command.batch, batch, command.actor, r, effects), f);
  }

  lemma ReverseMovesBank(s: State, command: Command, r: Reversal, a: nat, c: Currency)
    requires Invariant(s) && ReverseOutcome(s, command, r).Done?
    ensures SumBy(AfterReverse(s, command, r).movements, BankNet(a, c))
            == SumBy(s.movements, BankNet(a, c)) - ConfirmedNet(a, c)(s.batches[command.batch])
  {
    ReverseFacts(s, command, r);
    ReversalHasEffects(s, command, r);
    var batch := s.batches[command.batch];
    EffectKeys(batch.(version := 0), batch.effects[0].movement.value);
    hide Invariant, ReverseOutcome, AfterReverse, MirrorEffects, MirrorMovements, SettlementEffects, BatchOk;
    SumPush(s.movements, DebitMovement(|s.batches|, batch.account, batch.effects[0], r.date), BankNet(a, c));
  }

  lemma ReverseMovesItems(s: State, command: Command, r: Reversal, a: nat, c: Currency)
    requires Invariant(s) && ReverseOutcome(s, command, r).Done?
    ensures SumBy(AfterReverse(s, command, r).items, Settled(a, c))
            == SumBy(s.items, Settled(a, c)) - ConfirmedGross(a, c)(s.batches[command.batch])
  {
    ReverseFacts(s, command, r);
    hide Invariant, ReverseOutcome, Release, MirrorEffects, MirrorMovements, ConfirmedOk;
    var batch := s.batches[command.batch];
    TotalMoved(s.items, batch.lines, batch.account, batch.currency, a, c);
  }

  lemma ReverseConserves(s: State, command: Command, r: Reversal, a: nat, c: Currency)
    requires Invariant(s) && Conserved(s, a, c)
    ensures Conserved(AfterReverse(s, command, r), a, c)
  {
    if ReverseOutcome(s, command, r).Done? {
      var batch := s.batches[command.batch];
      ReverseMovesBank(s, command, r, a, c);
      ReverseMovesItems(s, command, r, a, c);
      ReverseMovesBatches(s, command, r, ConfirmedNet(a, c), ConfirmedNet(a, c)(batch));
      ReverseMovesBatches(s, command, r, ConfirmedGross(a, c), ConfirmedGross(a, c)(batch));
      hide Invariant, ReverseOutcome, AfterReverse;
    }
  }

  lemma NextConserves(s: State, step: Step, a: nat, c: Currency)
    requires Invariant(s) && Conserved(s, a, c)
    ensures Conserved(Next(s, step), a, c)
  {
    match step {
      case Collect(command) => CollectConserves(s, command, a, c);
      case Create(actor, dto, facts) => CreateConserves(s, actor, dto, facts, a, c);
      case Confirm(command, evidence) => ConfirmConserves(s, command, evidence, a, c);
      case Reverse(command, reversal) => ReverseConserves(s, command, reversal, a, c);
      case Foreign(m) => SumPush(s.movements, m, BankNet(a, c));
    }
  }

  /** In every reachable state, for every account and currency. */
  lemma {:induction false} RunConserves(steps: seq<Step>, a: nat, c: Currency)
    ensures Conserved(Run(EMPTY, steps), a, c)
  {
    if |steps| > 0 {
      var before := steps[..|steps| - 1];
      RunConserves(before, a, c);
      EmptyIsInOrder();
      RunKeeps(EMPTY, before);
      NextConserves(Run(EMPTY, before), steps[|steps| - 1], a, c);
    }
  }
}
