/** Settlement batches over collection items: the tables, the guards of every
    command in the order the service checks them, and the state each command
    leaves. Amounts are integers of 10^-8 (see Decimals); row ids are positions
    in append-only tables; the rows locked for a batch live inside its row. */
module Settlement {
  import opened Common
  import opened Foundation
  import opened Sums
  import Decimals

  // ---- tables ----

  datatype ItemState = OPEN | PARTIALLY_ALLOCATED | SETTLED | REOPENED_AFTER_REVERSAL

  /** Everything a collection item keeps from the command that created it. */
  datatype Payload = Payload(
    branch: Option<nat>, unit: nat, channelType: string, channel: Option<nat>,
    providerReference: Option<string>, party: nat, gross: int, currency: Currency,
    account: nat, collectedAt: int, expectedDate: int)

  datatype Item = Item(source: nat, payload: Payload, allocatedAmount: int, remainingAmount: int, state: ItemState,
    version: nat)

  datatype LineState = PROPOSED | CONFIRMED | REVERSED

  datatype Line = Line(item: nat, itemVersion: nat, amount: int, currency: Currency, state: LineState)

  datatype EffectKey = BankCredit | Allocation(line: nat) | Fee | Deduction | ApprovedDiscrepancy

  /** The text a key is stored as; an allocation is named by its line. */
  function KeyText(key: EffectKey): string {
    match key
    case BankCredit => "bank-credit"
    case Allocation(line) => "allocation:" + Decimals.Print(line)
    case Fee => "fee"
    case Deduction => "deduction"
    case ApprovedDiscrepancy => "approved-discrepancy"
  }

  datatype EffectDirection = SETTLEMENT | REVERSAL

  datatype EffectId = EffectId(batch: nat, position: nat)

  datatype Effect = Effect(
    key: EffectKey, direction: EffectDirection, amount: int, currency: Currency, date: int,
    sourceVersion: nat, movement: Option<nat>, item: Option<nat>, reversalOf: Option<EffectId>)

  datatype BatchState = MATCHED | DISCREPANCY | CONFIRMED | REVERSED | REVERSAL

  datatype Disposition = NONE | OPEN | APPROVED_DIFFERENCE | CORRECTION_REQUIRED | RETURNED

  datatype Batch = Batch(
    account: nat, currency: Currency, date: int,
    gross: int, fee: int, deduction: int, expectedNet: int, actualNet: int, discrepancy: int,
    disposition: Disposition, reason: Option<string>,
    creator: nat, confirmedBy: Option<nat>, reversedBy: Option<nat>,
    reversalOf: Option<nat>, replacementFor: Option<nat>,
    state: BatchState, version: nat, lines: seq<Line>, effects: seq<Effect>)

  datatype State = State(items: seq<Item>, batches: seq<Batch>, movements: seq<Movement>)

  datatype Error = VALIDATION | RESOURCE_HIDDEN | SCOPE_DENIED | STATE_CONFLICT | STALE_VERSION
    | ALLOCATION_CONFLICT | ARITHMETIC_MISMATCH | DISCREPANCY_UNRESOLVED | REVERSAL_CONFLICT
    | EVIDENCE_INVALID | STEP_UP_REQUIRED | COLLECTION_IDENTITY_CONFLICT | IDEMPOTENCY_CONFLICT

  datatype Outcome = Done(id: nat) | Refused(error: Error)

  // ---- collection items ----

  datatype CollectCommand = CollectCommand(source: nat, payload: Payload)

  function NormalizedPayload(p: Payload): Payload {
    p.(providerReference := Trimmed(p.providerReference))
  }

  /** The unique index on provider references: per channel type, and per channel
      or, without one, per bank account. */
  predicate SameProviderIdentity(a: Payload, b: Payload) {
    && a.providerReference.Some? && a.providerReference == b.providerReference
    && a.channelType == b.channelType
    && a.channel == b.channel && (a.channel.None? ==> a.account == b.account)
  }

  function BySource(items: seq<Item>, source: nat): (r: Option<nat>)
    ensures r.Some? ==> r.value < |items| && items[r.value].source == source
    ensures r.None? ==> forall k :: 0 <= k < |items| ==> items[k].source != source
  {
    if |items| == 0 then None
    else if items[|items| - 1].source == source then Some(|items| - 1)
    else BySource(items[..|items| - 1], source)
  }

  predicate ProviderReferenceTaken(items: seq<Item>, p: Payload) {
    exists k :: 0 <= k < |items| && SameProviderIdentity(items[k].payload, p)
  }

  function OpenItem(command: CollectCommand): Item {
    var p := NormalizedPayload(command.payload);
    Item(command.source, p, 0, p.gross, ItemState.OPEN, 0)
  }

  /** The amount is positive by a check on the table; a source that exists is
      found before the unique index on provider references is looked at. */
  function CollectOutcome(s: State, command: CollectCommand): Outcome {
    var found := BySource(s.items, command.source);
    if command.payload.gross <= 0 then Refused(VALIDATION)
    else if found.Some? then
      if s.items[found.value].payload == NormalizedPayload(command.payload) then Done(found.value)
      else Refused(COLLECTION_IDENTITY_CONFLICT)
    else if ProviderReferenceTaken(s.items, NormalizedPayload(command.payload)) then
      Refused(COLLECTION_IDENTITY_CONFLICT)
    else Done(|s.items|)
  }

  function AfterCollect(s: State, command: CollectCommand): State {
    if CollectOutcome(s, command) == Done(|s.items|) then s.(items := s.items + [OpenItem(command)]) else s
  }

  // ---- proposals ----

  datatype Money = Money(amount: int, currency: Currency)

  datatype Match = DETERMINISTIC(ruleId: Option<string>, ruleVersion: Option<string>, reason: Option<string>)
    | MANUAL(ruleId: Option<string>, ruleVersion: Option<string>, reason: Option<string>)

  datatype Allocated = Allocated(item: nat, itemVersion: nat, money: Money)

  datatype Proposal = Proposal(
    account: nat, date: int, provenance: Match, statementLine: Option<nat>,
    gross: Money, fee: Money, deduction: Money, expectedNet: Money, actualNet: Money, discrepancy: Money,
    disposition: Disposition, reason: Option<string>, replacementFor: Option<nat>,
    allocations: seq<Allocated>, attachments: seq<nat>)

  datatype AccountFacts = AccountFacts(active: bool, canReceive: bool, currency: Currency)

  /** What the transaction reads outside the settlement tables; any of it may
      change between two commands. `evidence` holds the attachments found active
      with an unchanged digest, `authorized` the answer of the authority check. */
  datatype Facts = Facts(
    organization: bool, actor: Option<bool>, account: Option<AccountFacts>,
    evidence: set<nat>, authorized: bool)

  predicate Distinct<T(==)>(s: seq<T>) { forall j, k :: 0 <= j < k < |s| ==> s[j] != s[k] }

  predicate DistinctItems(lines: seq<Line>) {
    forall j, k :: 0 <= j < k < |lines| ==> lines[j].item != lines[k].item
  }

  predicate DistinctAllocations(allocations: seq<Allocated>) {
    forall j, k :: 0 <= j < k < |allocations| ==> allocations[j].item != allocations[k].item
  }

  /** An optional text of one to `limit` characters. */
  predicate ShortText(text: Option<string>, limit: nat) { text.Some? ==> 0 < |text.value| <= limit }

  predicate ShortTexts(dto: Proposal) {
    && ShortText(dto.provenance.ruleId, 128) && ShortText(dto.provenance.ruleVersion, 64)
    && ShortText(dto.provenance.reason, 500) && ShortText(dto.reason, 500)
  }

  /** The shape the request decorators enforce before the service is called. */
  predicate RequestShape(dto: Proposal) {
    && |dto.allocations| > 0 && DistinctAllocations(dto.allocations)
    && (forall k :: 0 <= k < |dto.allocations| ==> dto.allocations[k].money.amount > 0)
    && |dto.attachments| > 0 && Distinct(dto.attachments)
    && ShortTexts(dto)
  }

  predicate OneCurrency(dto: Proposal) {
    var c := dto.gross.currency;
    && dto.fee.currency == c && dto.deduction.currency == c && dto.expectedNet.currency == c
    && dto.actualNet.currency == c && dto.discrepancy.currency == c
    && forall k :: 0 <= k < |dto.allocations| ==> dto.allocations[k].money.currency == c
  }

  function AllocationAmount(): Allocated -> int { (a: Allocated) => a.money.amount }

  predicate Balanced(dto: Proposal) {
    && dto.gross.amount > 0 && dto.fee.amount >= 0 && dto.deduction.amount >= 0
    && dto.expectedNet.amount > 0 && dto.actualNet.amount > 0
    && dto.gross.amount - dto.fee.amount - dto.deduction.amount == dto.expectedNet.amount
    && dto.actualNet.amount - dto.expectedNet.amount == dto.discrepancy.amount
    && SumBy(dto.allocations, AllocationAmount()) == dto.gross.amount
  }

  /** A difference of zero is disposed NONE without a reason; any other one has a
      disposition and a reason. */
  predicate DifferenceExplained(dto: Proposal) {
    if dto.discrepancy.amount == 0 then dto.disposition == Disposition.NONE && Trimmed(dto.reason).None?
    else dto.disposition != Disposition.NONE && Trimmed(dto.reason).Some?
  }

  predicate Given(text: Option<string>) { text.Some? && |text.value| > 0 }

  predicate ProvenanceValid(m: Match) {
    match m
    case DETERMINISTIC(ruleId, ruleVersion, reason) =>
      Trimmed(ruleId).Some? && Trimmed(ruleVersion).Some? && !Given(reason)
    case MANUAL(ruleId, ruleVersion, reason) =>
      Trimmed(reason).Some? && !Given(ruleId) && !Given(ruleVersion)
  }

  function CreateError(dto: Proposal): Option<Error> {
    if !RequestShape(dto) then Some(VALIDATION)
    else if !OneCurrency(dto) || !Balanced(dto) || !DifferenceExplained(dto) then Some(ARITHMETIC_MISMATCH)
    else if !ProvenanceValid(dto.provenance) then Some(VALIDATION)
    else if dto.statementLine.Some? then Some(EVIDENCE_INVALID)
    else None
  }

  predicate Allocatable(state: ItemState) { state != SETTLED }

  /** An item can still give `amount` at the version it was proposed with. */
  predicate CanAllocate(items: seq<Item>, item: nat, version: nat, account: nat, currency: Currency, amount: int) {
    && item < |items|
    && Allocatable(items[item].state)
    && items[item].version == version
    && items[item].payload.account == account
    && items[item].payload.currency == currency
    && amount <= items[item].remainingAmount
  }

  predicate UsableAccount(account: AccountFacts, currency: Currency) {
    account.active && account.canReceive && account.currency == currency
  }

  predicate AllFound(items: seq<Item>, allocations: seq<Allocated>) {
    forall k :: 0 <= k < |allocations| ==> allocations[k].item < |items|
  }

  predicate AllCanAllocate(items: seq<Item>, dto: Proposal) {
    forall k :: 0 <= k < |dto.allocations| ==>
      CanAllocate(items, dto.allocations[k].item, dto.allocations[k].itemVersion, dto.account, dto.gross.currency,
        dto.allocations[k].money.amount)
  }

  predicate ReplacementValid(s: State, dto: Proposal) {
    dto.replacementFor.Some? ==>
      && dto.replacementFor.value < |s.batches|
      && s.batches[dto.replacementFor.value].state == BatchState.REVERSED
      && s.batches[dto.replacementFor.value].account == dto.account
      && s.batches[dto.replacementFor.value].currency == dto.gross.currency
  }

  /** The unique index on replacements. */
  predicate ReplacementTaken(s: State, dto: Proposal) {
    dto.replacementFor.Some? && exists b :: 0 <= b < |s.batches| && s.batches[b].replacementFor == dto.replacementFor
  }

  function FactsError(s: State, dto: Proposal, facts: Facts): Option<Error> {
    if !facts.organization || facts.actor.None? || facts.account.None? then Some(RESOURCE_HIDDEN)
    else if !facts.actor.value then Some(RESOURCE_HIDDEN)
    else if !UsableAccount(facts.account.value, dto.gross.currency) then Some(EVIDENCE_INVALID)
    else if exists k :: 0 <= k < |dto.attachments| && dto.attachments[k] !in facts.evidence then Some(EVIDENCE_INVALID)
    else if !AllFound(s.items, dto.allocations) then Some(ALLOCATION_CONFLICT)
    else if !AllCanAllocate(s.items, dto) then Some(ALLOCATION_CONFLICT)
    else if !ReplacementValid(s, dto) then Some(EVIDENCE_INVALID)
    else None
  }

  function ProposedLine(a: Allocated): Line {
    Line(a.item, a.itemVersion, a.money.amount, a.money.currency, PROPOSED)
  }

  function ProposedLines(allocations: seq<Allocated>): (lines: seq<Line>)
    ensures |lines| == |allocations|
    ensures forall k :: 0 <= k < |lines| ==> lines[k] == ProposedLine(allocations[k])
  {
    if |allocations| == 0 then []
    else ProposedLines(allocations[..|allocations| - 1]) + [ProposedLine(allocations[|allocations| - 1])]
  }

  function ProposedBatch(dto: Proposal, actor: nat): Batch {
    Batch(
      dto.account, dto.gross.currency, dto.date,
      dto.gross.amount, dto.fee.amount, dto.deduction.amount, dto.expectedNet.amount, dto.actualNet.amount,
      dto.discrepancy.amount, dto.disposition, Trimmed(dto.reason),
      actor, None, None, None, dto.replacementFor,
      if dto.discrepancy.amount == 0 then MATCHED else DISCREPANCY, 0, ProposedLines(dto.allocations), [])
  }

  /** The check on the table: without a difference no reason, not even the empty
      one that trimming blanks leaves. Validation lets that one pass. */
  predicate ReasonRowOk(dto: Proposal) {
    if dto.discrepancy.amount == 0 then JustTrimmed(dto.reason).None? else Trimmed(dto.reason).Some?
  }

  function CreateOutcome(s: State, actor: nat, dto: Proposal, facts: Facts): Outcome {
    if CreateError(dto).Some? then Refused(CreateError(dto).value)
    else if FactsError(s, dto, facts).Some? then Refused(FactsError(s, dto, facts).value)
    else if !facts.authorized then Refused(SCOPE_DENIED)
    else if !ReasonRowOk(dto) then Refused(REVERSAL_CONFLICT)
    else if ReplacementTaken(s, dto) then Refused(STATE_CONFLICT)
    else Done(|s.batches|)
  }

  function AfterCreate(s: State, actor: nat, dto: Proposal, facts: Facts): State {
    if CreateOutcome(s, actor, dto, facts).Done? then s.(batches := s.batches + [ProposedBatch(dto, actor)]) else s
  }

  // ---- confirmation ----

  /** Facts read while confirming: the account, and of every linked attachment
      whether it is active with the digest it was linked with. */
  datatype Evidence = Evidence(account: Option<AccountFacts>, attachments: seq<bool>)

  datatype Command = Command(batch: nat, actor: nat, expectedVersion: nat, authorized: bool)

  predicate EvidenceValid(e: Evidence, currency: Currency) {
    && e.account.Some? && UsableAccount(e.account.value, currency)
    && |e.attachments| > 0 && forall k :: 0 <= k < |e.attachments| ==> e.attachments[k]
  }

  /** The rows `inArray` finds: each existing item once. */
  function LockedItems(items: seq<Item>, lines: seq<Line>): set<nat> {
    set k | 0 <= k < |lines| && lines[k].item < |items| :: lines[k].item
  }

  predicate LinesConfirmable(items: seq<Item>, batch: Batch) {
    && |batch.lines| > 0
    && |batch.lines| == |LockedItems(items, batch.lines)|
    && (forall k :: 0 <= k < |batch.lines| ==> batch.lines[k].state == LineState.PROPOSED)
    && forall k :: 0 <= k < |batch.lines| ==>
         CanAllocate(items, batch.lines[k].item, batch.lines[k].itemVersion, batch.account, batch.currency,
           batch.lines[k].amount)
  }

  function ConfirmOutcome(s: State, c: Command, e: Evidence): Outcome {
    if c.batch >= |s.batches| then Refused(RESOURCE_HIDDEN)
    else
      var batch := s.batches[c.batch];
      if !c.authorized then Refused(SCOPE_DENIED)
      else if batch.version != c.expectedVersion then Refused(STALE_VERSION)
      else if batch.state != MATCHED && batch.state != DISCREPANCY then Refused(STATE_CONFLICT)
      else if batch.creator == c.actor then Refused(SCOPE_DENIED)
      else if batch.discrepancy != 0 && batch.disposition != APPROVED_DIFFERENCE then Refused(DISCREPANCY_UNRESOLVED)
      else if !EvidenceValid(e, batch.currency) then Refused(EVIDENCE_INVALID)
      else if !LinesConfirmable(s.items, batch) then Refused(ALLOCATION_CONFLICT)
      else Done(c.batch)
  }

  /** The balance row written for an item read as `locked` when `amount` is taken. */
  function Consumed(locked: Item, amount: int, version: nat): Item {
    locked.(
      allocatedAmount := locked.allocatedAmount + amount, remainingAmount := locked.remainingAmount - amount,
      state := if locked.remainingAmount - amount == 0 then SETTLED else PARTIALLY_ALLOCATED, version := version + 1)
  }

  /** The balance row written when `amount` is given back. */
  function Released(locked: Item, amount: int, version: nat): Item {
    locked.(
      allocatedAmount := locked.allocatedAmount - amount, remainingAmount := locked.remainingAmount + amount,
      state := if locked.allocatedAmount - amount == 0 then REOPENED_AFTER_REVERSAL else PARTIALLY_ALLOCATED,
      version := version + 1)
  }

  predicate LinesFound(items: seq<Item>, lines: seq<Line>) {
    forall k :: 0 <= k < |lines| ==> lines[k].item < |items|
  }

  /** Takes every line from its item, one line after the other, each reading what
      the one before has written. */
  function Consume(items: seq<Item>, lines: seq<Line>): (r: seq<Item>)
    requires LinesFound(items, lines)
    ensures |r| == |items|
  {
    if |lines| == 0 then items
    else
      var n := |lines| - 1;
      var before := Consume(items, lines[..n]);
      var i := lines[n].item;
      before[i := Consumed(before[i], lines[n].amount, before[i].version)]
  }

  /** Gives every line back to its item. */
  function Release(items: seq<Item>, lines: seq<Line>): (r: seq<Item>)
    requires LinesFound(items, lines)
    ensures |r| == |items|
  {
    if |lines| == 0 then items
    else
      var n := |lines| - 1;
      var before := Release(items, lines[..n]);
      var i := lines[n].item;
      before[i := Released(before[i], lines[n].amount, before[i].version)]
  }

  function Marked(lines: seq<Line>, state: LineState): (r: seq<Line>)
    ensures |r| == |lines|
    ensures forall k :: 0 <= k < |lines| ==> r[k] == lines[k].(state := state)
  {
    if |lines| == 0 then []
    else Marked(lines[..|lines| - 1], state) + [lines[|lines| - 1].(state := state)]
  }

  function BankCreditEffect(batch: Batch, movement: nat): Effect {
    Effect(BankCredit, SETTLEMENT, batch.actualNet, batch.currency, batch.date, batch.version + 1, Some(movement),
      None, None)
  }

  function AllocationEffect(batch: Batch, k: nat): Effect
    requires k < |batch.lines|
  {
    Effect(Allocation(k), SETTLEMENT, batch.lines[k].amount, batch.lines[k].currency, batch.date, batch.version + 1,
      None, Some(batch.lines[k].item), None)
  }

  function AllocationEffects(batch: Batch, n: nat): (r: seq<Effect>)
    requires n <= |batch.lines|
    ensures |r| == n
    ensures forall k :: 0 <= k < n ==> r[k] == AllocationEffect(batch, k)
  {
    if n == 0 then [] else AllocationEffects(batch, n - 1) + [AllocationEffect(batch, n - 1)]
  }

  /** Evidence of a fee, deduction or difference; nothing when it is zero. */
  function EvidenceEffect(batch: Batch, key: EffectKey, amount: int): seq<Effect> {
    if amount == 0 then []
    else [Effect(key, SETTLEMENT, amount, batch.currency, batch.date, batch.version + 1, None, None, None)]
  }

  /** All effects of a batch about to be confirmed. */
  function SettlementEffects(batch: Batch, movement: nat): seq<Effect> {
    [BankCreditEffect(batch, movement)] + AllocationEffects(batch, |batch.lines|)
    + EvidenceEffect(batch, Fee, batch.fee) + EvidenceEffect(batch, Deduction, batch.deduction)
    + EvidenceEffect(batch, ApprovedDiscrepancy, batch.discrepancy)
  }

  function CreditMovement(id: nat, batch: Batch): Movement {
    Movement(COLLECTION_AND_SETTLEMENT, id, KeyText(BankCredit), BANK_ACCOUNT(batch.account), CREDIT, batch.actualNet,
      batch.currency,
      batch.date, None, POSTED)
  }

  function ConfirmedBatch(batch: Batch, actor: nat, movement: nat): Batch {
    batch.(
      state := BatchState.CONFIRMED, confirmedBy := Some(actor), version := batch.version + 1,
      lines := Marked(batch.lines, LineState.CONFIRMED),
      effects := batch.effects + SettlementEffects(batch, movement))
  }

  /** Everything a confirmation writes. */
  function ConfirmedTables(s: State, b: nat, actor: nat): State
    requires b < |s.batches| && LinesFound(s.items, s.batches[b].lines)
  {
    var batch := s.batches[b];
    State(
      Consume(s.items, batch.lines),
      s.batches[b := ConfirmedBatch(batch, actor, |s.movements|)],
      s.movements + [CreditMovement(b, batch)])
  }

  function AfterConfirm(s: State, c: Command, e: Evidence): State {
    if ConfirmOutcome(s, c, e).Done? then ConfirmedTables(s, c.batch, c.actor) else s
  }

  // ---- reversal ----

  /** Reason and date of a reversal, and whether the step-up proof is accepted. */
  datatype Reversal = Reversal(reason: string, date: int, proof: bool)

  predicate Releasable(items: seq<Item>, l: Line) {
    && l.item < |items|
    && l.state == LineState.CONFIRMED
    && items[l.item].allocatedAmount - l.amount >= 0
    && items[l.item].remainingAmount + l.amount <= items[l.item].payload.gross
  }

  predicate LinesReleasable(items: seq<Item>, lines: seq<Line>) {
    forall k :: 0 <= k < |lines| ==> Releasable(items, lines[k])
  }

  predicate HasBankCredit(effects: seq<Effect>) {
    exists k :: 0 <= k < |effects| && effects[k].key == BankCredit
  }

  predicate BankCreditsHaveMovements(effects: seq<Effect>) {
    forall k :: 0 <= k < |effects| && effects[k].key == BankCredit ==> effects[k].movement.Some?
  }

  function ReverseOutcome(s: State, c: Command, r: Reversal): Outcome {
    if Trimmed(Some(r.reason)).None? then Refused(VALIDATION)
    else if c.batch >= |s.batches| then Refused(RESOURCE_HIDDEN)
    else
      var batch := s.batches[c.batch];
      if !c.authorized then Refused(SCOPE_DENIED)
      else if batch.version != c.expectedVersion then Refused(STALE_VERSION)
      else if batch.state != BatchState.CONFIRMED then Refused(REVERSAL_CONFLICT)
      else if batch.creator == c.actor || batch.confirmedBy == Some(c.actor) then Refused(SCOPE_DENIED)
      else if !HasBankCredit(batch.effects) then Refused(REVERSAL_CONFLICT)
      else if !r.proof then Refused(STEP_UP_REQUIRED)
      else if !LinesReleasable(s.items, batch.lines) || !BankCreditsHaveMovements(batch.effects) then
        Refused(REVERSAL_CONFLICT)
      else Done(|s.batches|)
  }

  function DebitMovement(id: nat, account: nat, effect: Effect, date: int): Movement {
    Movement(COLLECTION_AND_SETTLEMENT, id, KeyText(effect.key), BANK_ACCOUNT(account), DEBIT, effect.amount,
      effect.currency,
      date, effect.movement, MovementState.REVERSED)
  }

  /** The debit for every bank credit among the effects. */
  function MirrorMovements(id: nat, account: nat, effects: seq<Effect>, date: int): seq<Movement> {
    if |effects| == 0 then []
    else
      var n := |effects| - 1;
      var before := MirrorMovements(id, account, effects[..n], date);
      if effects[n].key == BankCredit then before + [DebitMovement(id, account, effects[n], date)] else before
  }

  function BankCredits(effects: seq<Effect>): nat {
    if |effects| == 0 then 0
    else BankCredits(effects[..|effects| - 1]) + if effects[|effects| - 1].key == BankCredit then 1 else 0
  }

  function MirrorEffect(effect: Effect, of: EffectId, date: int, movement: nat): Effect {
    Effect(effect.key, EffectDirection.REVERSAL, effect.amount, effect.currency, date, 0,
      if effect.key == BankCredit then Some(movement) else None, effect.item, Some(of))
  }

  /** One reversing effect for each effect of batch `of`, `base` being the next movement id. */
  function MirrorEffects(of: nat, effects: seq<Effect>, date: int, base: nat): (r: seq<Effect>)
    ensures |r| == |effects|
  {
    if |effects| == 0 then []
    else
      var n := |effects| - 1;
      MirrorEffects(of, effects[..n], date, base)
      + [MirrorEffect(effects[n], EffectId(of, n), date, base + BankCredits(effects[..n]))]
  }

  function ReversedBatch(batch: Batch, actor: nat): Batch {
    batch.(
      state := BatchState.REVERSED, reversedBy := Some(actor), version := batch.version + 1,
      lines := Marked(batch.lines, LineState.REVERSED))
  }

  function ReversalBatch(of: nat, original: Batch, actor: nat, r: Reversal, effects: seq<Effect>): Batch {
    Batch(
      original.account, original.currency, r.date,
      original.gross, original.fee, original.deduction, original.expectedNet, original.actualNet, original.discrepancy,
      original.disposition, original.reason, actor, None, None, Some(of), None, BatchState.REVERSAL, 0, [], effects)
  }

  /** Everything a reversal writes. */
  function ReversedTables(s: State, b: nat, actor: nat, r: Reversal): State
    requires b < |s.batches| && LinesFound(s.items, s.batches[b].lines)
  {
    var batch := s.batches[b];
    var id := |s.batches|;
    var effects := MirrorEffects(b, batch.effects, r.date, |s.movements|);
    State(
      Release(s.items, batch.lines),
      s.batches[b := ReversedBatch(batch, actor)] + [ReversalBatch(b, batch, actor, r, effects)],
      s.movements + MirrorMovements(id, batch.account, batch.effects, r.date))
  }

  function AfterReverse(s: State, c: Command, r: Reversal): State {
    if ReverseOutcome(s, c, r).Done? then ReversedTables(s, c.batch, c.actor, r) else s
  }

  // ---- runs ----

  /** One transaction; a movement of another domain may be recorded in between. */
  datatype Step =
    | Collect(collect: CollectCommand)
    | Create(actor: nat, dto: Proposal, facts: Facts)
    | Confirm(command: Command, evidence: Evidence)
    | Reverse(command: Command, reversal: Reversal)
    | Foreign(movement: Movement)

  function Next(s: State, step: Step): State {
    match step
    case Collect(command) => AfterCollect(s, command)
    case Create(actor, dto, facts) => AfterCreate(s, actor, dto, facts)
    case Confirm(command, evidence) => AfterConfirm(s, command, evidence)
    case Reverse(command, reversal) => AfterReverse(s, command, reversal)
    case Foreign(m) => if m.owner == COLLECTION_AND_SETTLEMENT then s else s.(movements := s.movements + [m])
  }

  function Run(s: State, steps: seq<Step>): State {
    if |steps| == 0 then s else Next(Run(s, steps[..|steps| - 1]), steps[|steps| - 1])
  }

  const EMPTY := State([], [], [])
}
