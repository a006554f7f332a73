/** Idempotency keys of the settlement commands: the reply stored with a command
    answers every repetition of it, and a key belongs to one command for ever. */
module SettlementReplies {
  import opened Common
  import opened Foundation
  import opened Settlement
  import opened SettlementInvariant
  import opened SettlementRuns

  /** What a key belongs to: an operation of an actor, on one batch. */
  datatype ReplyScope = CREATE(actor: nat) | CONFIRM(actor: nat, batch: nat) | REVERSE(actor: nat, batch: nat)

  /** What the digest of a command is taken of. */
  datatype CommandDigest =
    | OfCreate(actor: nat, dto: Proposal)
    | OfConfirm(actor: nat, batch: nat, version: nat)
    | OfReverse(actor: nat, batch: nat, version: nat, reason: Option<string>, date: int)

  /** A reply names the batch proposed or confirmed, or the reversal. */
  datatype Reply = Reply(digest: CommandDigest, id: nat)

  type Key = (ReplyScope, nat)

  /** The tables with the replies beside them. */
  datatype Desk = Desk(tables: State, replies: map<Key, Reply>)

  datatype Answer = Fresh(id: nat) | Replayed(id: nat) | Rejected(error: Error)

  function AnswerOf(outcome: Outcome): Answer {
    match outcome
    case Done(id) => Fresh(id)
    case Refused(error) => Rejected(error)
  }

  // ---- creating ----

  /** The proposal as validation returns it. */
  function NormalizedProposal(dto: Proposal): Proposal {
    var p := dto.provenance;
    dto.(reason := JustTrimmed(dto.reason),
         provenance := p.(ruleId := JustTrimmed(p.ruleId), ruleVersion := JustTrimmed(p.ruleVersion),
           reason := JustTrimmed(p.reason)))
  }

  function CreateKey(actor: nat, key: nat): Key { (CREATE(actor), key) }

  function CreateDigest(actor: nat, dto: Proposal): CommandDigest { OfCreate(actor, NormalizedProposal(dto)) }

  /** A stored reply is given again only to who may still see its batch. */
  function CreateAnswer(d: Desk, actor: nat, key: nat, dto: Proposal, facts: Facts): Answer {
    if CreateError(dto).Some? then Rejected(CreateError(dto).value)
    else if CreateKey(actor, key) in d.replies then
      var reply := d.replies[CreateKey(actor, key)];
      if reply.digest != CreateDigest(actor, dto) then Rejected(IDEMPOTENCY_CONFLICT)
      else if reply.id >= |d.tables.batches| then Rejected(RESOURCE_HIDDEN)
      else if !facts.authorized then Rejected(SCOPE_DENIED)
      else Replayed(reply.id)
    else AnswerOf(CreateOutcome(d.tables, actor, dto, facts))
  }

  function AfterCreateCommand(d: Desk, actor: nat, key: nat, dto: Proposal, facts: Facts): Desk {
    var answer := CreateAnswer(d, actor, key, dto, facts);
    if answer.Fresh? then
      Desk(AfterCreate(d.tables, actor, dto, facts),
           d.replies[CreateKey(actor, key) := Reply(CreateDigest(actor, dto), answer.id)])
    else d
  }

  // ---- confirming ----

  function ConfirmKey(c: Command, key: nat): Key { (CONFIRM(c.actor, c.batch), key) }

  function ConfirmDigest(c: Command): CommandDigest { OfConfirm(c.actor, c.batch, c.expectedVersion) }

  function ReplayOf(reply: Reply, digest: CommandDigest): Answer {
    if reply.digest != digest then Rejected(IDEMPOTENCY_CONFLICT) else Replayed(reply.id)
  }

  function ConfirmAnswer(d: Desk, c: Command, key: nat, e: Evidence): Answer {
    if c.batch >= |d.tables.batches| then Rejected(RESOURCE_HIDDEN)
    else if !c.authorized then Rejected(SCOPE_DENIED)
    else if ConfirmKey(c, key) in d.replies then ReplayOf(d.replies[ConfirmKey(c, key)], ConfirmDigest(c))
    else AnswerOf(ConfirmOutcome(d.tables, c, e))
  }

  function AfterConfirmCommand(d: Desk, c: Command, key: nat, e: Evidence): Desk {
    var answer := ConfirmAnswer(d, c, key, e);
    if answer.Fresh? then
      Desk(AfterConfirm(d.tables, c, e), d.replies[ConfirmKey(c, key) := Reply(ConfirmDigest(c), answer.id)])
    else d
  }

  // ---- reversing ----

  function ReverseKey(c: Command, key: nat): Key { (REVERSE(c.actor, c.batch), key) }

  function ReverseDigest(c: Command, r: Reversal): CommandDigest {
    OfReverse(c.actor, c.batch, c.expectedVersion, Trimmed(Some(r.reason)), r.date)
  }

  function ReverseAnswer(d: Desk, c: Command, key: nat, r: Reversal): Answer {
    if Trimmed(Some(r.reason)).None? then Rejected(VALIDATION)
    else if c.batch >= |d.tables.batches| then Rejected(RESOURCE_HIDDEN)
    else if !c.authorized then Rejected(SCOPE_DENIED)
    else if ReverseKey(c, key) in d.replies then ReplayOf(d.replies[ReverseKey(c, key)], ReverseDigest(c, r))
    else AnswerOf(ReverseOutcome(d.tables, c, r))
  }

  function AfterReverseCommand(d: Desk, c: Command, key: nat, r: Reversal): Desk {
    var answer := ReverseAnswer(d, c, key, r);
    if answer.Fresh? then
      Desk(AfterReverse(d.tables, c, r), d.replies[ReverseKey(c, key) := Reply(ReverseDigest(c, r), answer.id)])
    else d
  }

  // ---- runs ----

  /** One request to the service, or a step of the rest of the system. */
  datatype Request =
    | CreateRequest(actor: nat, key: nat, dto: Proposal, facts: Facts)
    | ConfirmRequest(command: Command, key: nat, evidence: Evidence)
    | ReverseRequest(command: Command, key: nat, reversal: Reversal)
    | CollectRequest(collect: CollectCommand)
    | ForeignMovement(movement: Movement)

  function Serve(d: Desk, request: Request): Desk {
    match request
    case CreateRequest(actor, key, dto, facts) => AfterCreateCommand(d, actor, key, dto, facts)
    case ConfirmRequest(c, key, e) => AfterConfirmCommand(d, c, key, e)
    case ReverseRequest(c, key, r) => AfterReverseCommand(d, c, key, r)
    case CollectRequest(c) => d.(tables := Next(d.tables, Collect(c)))
    case ForeignMovement(m) => d.(tables := Next(d.tables, Foreign(m)))
  }

  function ServeAll(d: Desk, requests: seq<Request>): Desk {
    if |requests| == 0 then d else Serve(ServeAll(d, requests[..|requests| - 1]), requests[|requests| - 1])
  }

  const OPENED := Desk(EMPTY, map[])

  /** The step on the tables a request comes to; none when its reply is known. */
  function StepOf(d: Desk, request: Request): seq<Step> {
    match request
    case CreateRequest(actor, key, dto, facts) =>
      if CreateAnswer(d, actor, key, dto, facts).Fresh? then [Create(actor, dto, facts)] else []
    case ConfirmRequest(c, key, e) => if ConfirmAnswer(d, c, key, e).Fresh? then [Confirm(c, e)] else []
    case ReverseRequest(c, key, r) => if ReverseAnswer(d, c, key, r).Fresh? then [Reverse(c, r)] else []
    case CollectRequest(c) => [Collect(c)]
    case ForeignMovement(m) => [Foreign(m)]
  }

  function StepsOf(d: Desk, requests: seq<Request>): seq<Step> {
    if |requests| == 0 then []
    else
      var before := requests[..|requests| - 1];
      StepsOf(d, before) + StepOf(ServeAll(d, before), requests[|requests| - 1])
  }

  lemma RunOne(s: State, steps: seq<Step>, more: seq<Step>)
    requires |more| <= 1
    ensures Run(s, steps + more) == if more == [] then Run(s, steps) else Next(Run(s, steps), more[0])
  {
    hide Next;
    if more == [] {
      assert steps + more == steps;
    } else {
      assert (steps + more)[..|steps|] == steps;
    }
  }

  lemma ServeIsStep(d: Desk, request: Request)
    ensures var more := StepOf(d, request);
            |more| <= 1 && Serve(d, request).tables == if more == [] then d.tables else Next(d.tables, more[0])
  {
    hide CreateAnswer, ConfirmAnswer, ReverseAnswer, AfterCreate, AfterConfirm, AfterReverse;
  }

  /** Whatever is requested, the tables go through a run of the commands: those
      that are not answered from a stored reply. All that holds of every run holds
      of the service. */
  lemma {:induction false} ServiceRefinesRun(d: Desk, requests: seq<Request>)
    ensures ServeAll(d, requests).tables == Run(d.tables, StepsOf(d, requests))
  {
    hide Serve, StepOf, Next;
    if |requests| == 0 {
      assert StepsOf(d, requests) == [];
    } else {
      var before := requests[..|requests| - 1];
      var last := requests[|requests| - 1];
      ServiceRefinesRun(d, before);
      ServeIsStep(ServeAll(d, before), last);
      RunOne(d.tables, StepsOf(d, before), StepOf(ServeAll(d, before), last));
    }
  }

  /** Replies are never taken back or changed. */
  predicate RepliesExtend(x: map<Key, Reply>, y: map<Key, Reply>) {
    forall k :: k in x ==> k in y && y[k] == x[k]
  }

  lemma ServeExtends(d: Desk, request: Request)
    ensures RepliesExtend(d.replies, Serve(d, request).replies)
  {
    hide CreateOutcome, ConfirmOutcome, ReverseOutcome, AfterCreate, AfterConfirm, AfterReverse, CreateError, Next,
      CreateDigest, ReverseDigest;
  }

  lemma {:induction false} ServiceExtends(d: Desk, requests: seq<Request>)
    ensures RepliesExtend(d.replies, ServeAll(d, requests).replies)
  {
    hide Serve;
    if |requests| > 0 {
      ServiceExtends(d, requests[..|requests| - 1]);
      ServeExtends(ServeAll(d, requests[..|requests| - 1]), requests[|requests| - 1]);
    }
  }

  lemma ServiceKeeps(d: Desk, requests: seq<Request>)
    requires Invariant(d.tables)
    ensures Invariant(ServeAll(d, requests).tables) && Extends(d.tables, ServeAll(d, requests).tables)
  {
    ServiceRefinesRun(d, requests);
    RunKeeps(d.tables, StepsOf(d, requests));
  }

  // ---- the same command ----

  /** Two proposals are the same command exactly when the same actor sends them and they
      differ at most in white space around their texts. */
  lemma SameProposalIff(a: nat, x: Proposal, b: nat, y: Proposal)
    ensures CreateDigest(a, x) == CreateDigest(b, y) <==>
            && a == b
            && x.(reason := None, provenance := MANUAL(None, None, None))
               == y.(reason := None, provenance := MANUAL(None, None, None))
            && x.provenance.DETERMINISTIC? == y.provenance.DETERMINISTIC?
            && JustTrimmed(x.reason) == JustTrimmed(y.reason)
            && JustTrimmed(x.provenance.ruleId) == JustTrimmed(y.provenance.ruleId)
            && JustTrimmed(x.provenance.ruleVersion) == JustTrimmed(y.provenance.ruleVersion)
            && JustTrimmed(x.provenance.reason) == JustTrimmed(y.provenance.reason)
  {
    hide JustTrimmed;
  }

  lemma SameReversalIff(c: Command, r: Reversal, d: Command, q: Reversal)
    ensures ReverseDigest(c, r) == ReverseDigest(d, q) <==>
            && c.actor == d.actor && c.batch == d.batch && c.expectedVersion == d.expectedVersion && r.date == q.date
            && Trimmed(Some(r.reason)) == Trimmed(Some(q.reason))
  {
    hide Trimmed;
  }

  /** What is not valid is refused whatever its key has been answered with, and under a
      new key the command is answered as its guards say. */
  lemma KeysHideNothing(d: Desk, actor: nat, key: nat, dto: Proposal, facts: Facts, c: Command, e: Evidence,
      r: Reversal)
    ensures CreateError(dto).Some? ==> CreateAnswer(d, actor, key, dto, facts) == Rejected(CreateError(dto).value)
    ensures Trimmed(Some(r.reason)).None? ==> ReverseAnswer(d, c, key, r) == Rejected(VALIDATION)
    ensures (CREATE(actor), key) !in d.replies ==>
              CreateAnswer(d, actor, key, dto, facts) == AnswerOf(CreateOutcome(d.tables, actor, dto, facts))
    ensures (CONFIRM(c.actor, c.batch), key) !in d.replies ==>
              ConfirmAnswer(d, c, key, e) == AnswerOf(ConfirmOutcome(d.tables, c, e))
    ensures (REVERSE(c.actor, c.batch), key) !in d.replies ==>
              ReverseAnswer(d, c, key, r) == AnswerOf(ReverseOutcome(d.tables, c, r))
  {
    hide CreateError, Trimmed, EvidenceValid, LinesConfirmable, LinesReleasable;
  }

  // ---- one key, one effect ----

  /** Whatever is requested in between, a proposal sent again under its key is
      answered with the batch it made and makes no other; another command under
      that key is refused. */
  lemma OneKeyOneProposal(
      d: Desk, actor: nat, key: nat, dto: Proposal, facts: Facts, between: seq<Request>, again: Proposal, later: Facts)
    requires Invariant(d.tables) && CreateAnswer(d, actor, key, dto, facts).Fresh? && CreateError(again).None?
    ensures var u := ServeAll(AfterCreateCommand(d, actor, key, dto, facts), between);
            && AfterCreateCommand(u, actor, key, again, later) == u
            && CreateAnswer(u, actor, key, again, later) ==
               if CreateDigest(actor, again) != CreateDigest(actor, dto) then Rejected(IDEMPOTENCY_CONFLICT)
               else if !later.authorized then Rejected(SCOPE_DENIED)
               else Replayed(CreateAnswer(d, actor, key, dto, facts).id)
  {
    var t := AfterCreateCommand(d, actor, key, dto, facts);
    CreateKeeps(d.tables, actor, dto, facts);
    ServiceExtends(t, between);
    ServiceKeeps(t, between);
    Proposed(d, actor, key, dto, facts);
    hide Invariant, ServeAll, CreateOutcome, AfterCreate, CreateError, CreateDigest;
  }

  lemma Proposed(d: Desk, actor: nat, key: nat, dto: Proposal, facts: Facts)
    requires CreateAnswer(d, actor, key, dto, facts).Fresh?
    ensures var t := AfterCreateCommand(d, actor, key, dto, facts);
            CreateAnswer(d, actor, key, dto, facts).id == |d.tables.batches| < |t.tables.batches|
  {
    hide CreateError, FactsError, ReplacementTaken, CreateDigest;
  }

  /** The same for confirming: a batch is confirmed once, however often the
      command is sent. */
  lemma OneKeyOneConfirmation(
      d: Desk, c: Command, key: nat, e: Evidence, between: seq<Request>, again: Command, later: Evidence)
    requires Invariant(d.tables) && ConfirmAnswer(d, c, key, e).Fresh? && ConfirmKey(again, key) == ConfirmKey(c, key)
    ensures var u := ServeAll(AfterConfirmCommand(d, c, key, e), between);
            && AfterConfirmCommand(u, again, key, later) == u
            && ConfirmAnswer(u, again, key, later) ==
               if !again.authorized then Rejected(SCOPE_DENIED)
               else if again.expectedVersion != c.expectedVersion then Rejected(IDEMPOTENCY_CONFLICT)
               else Replayed(c.batch)
  {
    var t := AfterConfirmCommand(d, c, key, e);
    ConfirmKeeps(d.tables, c, e);
    ServiceExtends(t, between);
    ServiceKeeps(t, between);
    ConfirmedId(d.tables, c, e);
    hide Invariant, ServeAll, ConfirmOutcome, AfterConfirm;
  }

  lemma ConfirmedId(s: State, c: Command, e: Evidence)
    ensures ConfirmOutcome(s, c, e).Done? ==> ConfirmOutcome(s, c, e).id == c.batch
  {
  }

  /** And for reversing. */
  lemma OneKeyOneReversal(
      d: Desk, c: Command, key: nat, r: Reversal, between: seq<Request>, again: Command, later: Reversal)
    requires Invariant(d.tables) && ReverseAnswer(d, c, key, r).Fresh? && ReverseKey(again, key) == ReverseKey(c, key)
    requires Trimmed(Some(later.reason)).Some?
    ensures var u := ServeAll(AfterReverseCommand(d, c, key, r), between);
            && AfterReverseCommand(u, again, key, later) == u
            && ReverseAnswer(u, again, key, later) ==
               if !again.authorized then Rejected(SCOPE_DENIED)
               else if ReverseDigest(again, later) != ReverseDigest(c, r) then Rejected(IDEMPOTENCY_CONFLICT)
               else Replayed(ReverseAnswer(d, c, key, r).id)
  {
    var t := AfterReverseCommand(d, c, key, r);
    ReverseKeeps(d.tables, c, r);
    ServiceExtends(t, between);
    ServiceKeeps(t, between);
    hide Invariant, ServeAll, ReverseOutcome, AfterReverse, Trimmed, ReverseDigest;
  }
}
