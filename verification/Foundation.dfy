/** The append-only ledger of money movements that all domains write to. */
module Foundation {
  import opened Common

  type Currency = string

  datatype Owner = RECEIPTS | PAYMENTS | TRANSFERS | COLLECTION_AND_SETTLEMENT | CASHBOX_AND_CUSTODY
  datatype Endpoint = CASHBOX(id: nat) | BANK_ACCOUNT(id: nat) | USER(id: nat)
  datatype Direction = DEBIT | CREDIT
  datatype MovementState = POSTED | REVERSED

  datatype Movement = Movement(
    owner: Owner, source: nat, effectKey: string, endpoint: Endpoint, direction: Direction, amount: int,
    currency: Currency, date: int, reversalOf: Option<nat>, state: MovementState)

  datatype MovementCommand = MovementCommand(
    owner: Option<Owner>, source: nat, effectKey: string, endpoint: Endpoint, amount: int, currency: Currency,
    date: int, reversalOf: Option<nat>, direction: Option<Direction>, state: Option<MovementState>)

  /** The row written for a command: owner, direction and state have defaults. */
  function Recorded(command: MovementCommand): Movement {
    var reversal := command.reversalOf.Some?;
    Movement(
      if command.owner.Some? then command.owner.value else RECEIPTS,
      command.source, command.effectKey, command.endpoint,
      if command.direction.Some? then command.direction.value else if reversal then DEBIT else CREDIT,
      command.amount, command.currency, command.date, command.reversalOf,
      if command.state.Some? then command.state.value else if reversal then REVERSED else POSTED)
  }

  /** What a movement adds to the balance of its endpoint. */
  function SignedAmount(m: Movement): int {
    if m.direction == CREDIT then m.amount else -m.amount
  }

  /** A command that refers to the movement at `id`, with its endpoint, amount and
      currency, and leaves direction and state to their defaults. */
  predicate RefersTo(command: MovementCommand, movements: seq<Movement>, id: nat)
    requires id < |movements|
  {
    && command.reversalOf == Some(id) && command.direction.None? && command.state.None?
    && command.endpoint == movements[id].endpoint
    && command.amount == movements[id].amount && command.currency == movements[id].currency
  }

  /** The defaults reverse exactly the movements that credit something: appended
      after any of those, the row cancels the one it names; after a debit it
      doubles it. */
  lemma DefaultReversalCancels(movements: seq<Movement>, id: nat, command: MovementCommand)
    requires id < |movements| && RefersTo(command, movements, id)
    ensures var row, named := Recorded(command), movements[id];
            && row.reversalOf == Some(id) && row.state == REVERSED
            && (SignedAmount(row) + SignedAmount(named) == 0 <==> named.direction == CREDIT || named.amount == 0)
  {
  }
}
