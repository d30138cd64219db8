/** The state that the fake lifecycle and channel ports share, and one atomic step of either port on it. */
module ExternalState {
  import opened Options

  type Id = string

  // ---- Commands and observations ----

  datatype Command =
    | PrepareAttempt(operationId: Id, trellisTaskId: string, expectedBaseCommit: string)
    | CheckAttempt(operationId: Id, attemptId: Id, trellisTaskId: string, expectedHeadCommit: string)
    | FinishAttempt(operationId: Id, attemptId: Id, trellisTaskId: string, deliveredCommit: string)
    | ReserveChannel(operationId: Id, attemptId: Id, channelId: Id, provider: string,
                     capabilityDigest: string, launchProfileDigest: string, policyDigest: string)
    | SendTaskPacket(operationId: Id, attemptId: Id, channelId: Id, messageId: Id, turnId: Id, packetBytes: nat)
    | CancelTurn(operationId: Id, attemptId: Id, channelId: Id, turnId: Id)

  /** The type of a command. */
  datatype Kind = Prepare | Check | Finish | Reserve | Send | Cancel

  function KindOf(c: Command): Kind {
    match c
    case PrepareAttempt(_, _, _) => Prepare
    case CheckAttempt(_, _, _, _) => Check
    case FinishAttempt(_, _, _, _) => Finish
    case ReserveChannel(_, _, _, _, _, _, _) => Reserve
    case SendTaskPacket(_, _, _, _, _, _) => Send
    case CancelTurn(_, _, _, _) => Cancel
  }

  predicate IsLifecycle(k: Kind) { k.Prepare? || k.Check? || k.Finish? }

  /** A command with its canonical hash. */
  datatype Effect = Effect(command: Command, commandHash: string)

  datatype Status = Absent | Applied | Unknown
  datatype LifecycleState = NoAttempt | IsPrepared | IsChecked | IsFinished | UnknownAttempt
  datatype TurnState = NoTurn | Queued | Running | Done | Failed | Cancelled | UnknownTurn
  {
    predicate Terminal() { Done? || Failed? || Cancelled? }
  }

  datatype Observation =
    | Attempt(operationId: Id, status: Status, observedAt: string, lifecycleState: LifecycleState,
              effectDigest: Option<string>, attemptId: Option<Id>, trellisTaskId: Option<string>,
              worktreeId: Option<string>, worktreePath: Option<string>, baseCommit: Option<string>,
              evidence: seq<string>)
    | Checked(operationId: Id, status: Status, observedAt: string, effectDigest: Option<string>,
              attemptId: Option<Id>, passed: Option<bool>, headCommit: Option<string>, checkDigest: Option<string>,
              evidence: seq<string>)
    | Finished(operationId: Id, status: Status, observedAt: string, effectDigest: Option<string>,
               attemptId: Option<Id>, finished: Option<bool>, deliveredCommit: Option<string>,
               finishDigest: Option<string>, evidence: seq<string>)
    | Channel(operationId: Id, status: Status, observedAt: string, effectDigest: Option<string>,
              attemptId: Option<Id>, channelId: Option<Id>, provider: Option<string>,
              providerSessionId: Option<string>, evidence: seq<string>)
    | Turn(operationId: Id, status: Status, observedAt: string, state: TurnState, effectDigest: Option<string>,
           attemptId: Option<Id>, channelId: Option<Id>, messageId: Option<Id>, turnId: Option<Id>,
           resultDigest: Option<string>, evidence: seq<string>)

  /** The observation type that a command of this kind is answered with. */
  predicate AnswersKind(o: Observation, k: Kind) {
    match k
    case Prepare => o.Attempt?
    case Check => o.Checked?
    case Finish => o.Finished?
    case Reserve => o.Channel?
    case Send => o.Turn?
    case Cancel => o.Turn?
  }

  function UnknownAttemptAnswer(id: Id, now: string, reason: string): Observation {
    Attempt(id, Unknown, now, UnknownAttempt, None, None, None, None, None, None, [reason])
  }

  /** The UNKNOWN answer to a command of the given kind. */
  function UnknownAnswer(k: Kind, id: Id, now: string, reason: string): (o: Observation)
    ensures AnswersKind(o, k) && o.status == Unknown && o.operationId == id
  {
    match k
    case Prepare => UnknownAttemptAnswer(id, now, reason)
    case Check => Checked(id, Unknown, now, None, None, None, None, None, [reason])
    case Finish => Finished(id, Unknown, now, None, None, None, None, None, [reason])
    case Reserve => Channel(id, Unknown, now, None, None, None, None, None, [reason])
    case Send => Turn(id, Unknown, now, UnknownTurn, None, None, None, None, None, None, [reason])
    case Cancel => Turn(id, Unknown, now, UnknownTurn, None, None, None, None, None, None, [reason])
  }

  // ---- The shared state ----

  datatype LifecycleRecord = LifecycleRecord(kind: Kind, commandHash: string, response: Observation,
                                             inspection: Observation, applied: bool)
  datatype ChannelRecord = ChannelRecord(kind: Kind, commandHash: string, response: Observation, applied: bool)

  datatype World = World(
    lifecycleRecords: map<Id, LifecycleRecord>,
    channelRecords: map<Id, ChannelRecord>,
    preparedAttempts: map<Id, Observation>,
    checkedAttempts: set<Id>,
    channelReservations: map<Id, Id>,
    attemptChannels: map<Id, Id>,
    turnOperations: map<Id, Id>,
    messageOperations: map<Id, Id>,
    turnCancellations: map<Id, Id>,
    lifecycleConflicts: set<Id>,
    channelConflicts: set<Id>)

  const EMPTY := World(map[], map[], map[], {}, map[], map[], map[], map[], map[], {}, {})

  // ---- Port instances ----

  /** The digest of an applied effect, from its name and the command hash. */
  type Digest = (string, string) -> string

  datatype LifecyclePort = LifecyclePort(digest: Digest, unknownIds: set<Id>, worktreePath: Option<string>)

  datatype ChannelPort = ChannelPort(digest: Digest, unknownIds: set<Id>, provider: string, capabilityDigest: string,
                                     launchProfileDigest: string, policyDigest: string, maxPacketBytes: int,
                                     sendState: TurnState)

  /** What the constructor of the channel port accepts as the state of a sent turn. */
  predicate ValidPort(p: ChannelPort) {
    !p.sendState.NoTurn? && !p.sendState.UnknownTurn? && !p.sendState.Cancelled?
  }

  function DerivedToken(prefix: string, hash: string): string {
    var bare := if "sha256:" <= hash then hash[7..] else hash;
    prefix + "-" + if |bare| <= 24 then bare else bare[..24]
  }

  function Collision(k: Kind, id: Id, now: string): Observation {
    UnknownAnswer(k, id, now, "operation_id_collision:" + id)
  }

  // ---- The lookup of an earlier use ----

  datatype Lookup = NotSeen | Seen(world: World, answer: Observation)

  /** `_existing` of the lifecycle port. */
  function ExistingLifecycle(w: World, e: Effect, now: string): Lookup {
    var id, k := e.command.operationId, KindOf(e.command);
    if id in w.lifecycleConflicts then Seen(w, Collision(k, id, now))
    else if id in w.channelRecords then
      Seen(w.(lifecycleConflicts := w.lifecycleConflicts + {id}, channelConflicts := w.channelConflicts + {id}),
           Collision(k, id, now))
    else if id !in w.lifecycleRecords then NotSeen
    else
      var r := w.lifecycleRecords[id];
      if r.kind == k && r.commandHash == e.commandHash && AnswersKind(r.response, k) then Seen(w, r.response)
      else Seen(w.(lifecycleConflicts := w.lifecycleConflicts + {id}), Collision(k, id, now))
  }

  /** `_existing` of the channel port. */
  function ExistingChannel(w: World, e: Effect, now: string): Lookup {
    var id, k := e.command.operationId, KindOf(e.command);
    if id in w.channelConflicts then Seen(w, Collision(k, id, now))
    else if id in w.lifecycleRecords then
      Seen(w.(lifecycleConflicts := w.lifecycleConflicts + {id}, channelConflicts := w.channelConflicts + {id}),
           Collision(k, id, now))
    else if id !in w.channelRecords then NotSeen
    else
      var r := w.channelRecords[id];
      if r.kind == k && r.commandHash == e.commandHash && AnswersKind(r.response, k) then Seen(w, r.response)
      else Seen(w.(channelConflicts := w.channelConflicts + {id}), Collision(k, id, now))
  }

  // ---- Deciding a first use ----

  /** A first lifecycle command: the record it leaves, `later` being the second reading of the clock. */
  function DecideLifecycle(w: World, p: LifecyclePort, e: Effect, now: string, later: string): (r: LifecycleRecord)
    requires IsLifecycle(KindOf(e.command))
    ensures r.kind == KindOf(e.command) && r.commandHash == e.commandHash
    ensures AnswersKind(r.response, r.kind) && r.response.operationId == e.command.operationId
    ensures r.applied <==> r.response.status == Applied
    ensures !r.applied ==> r.response.status == Unknown
  {
    var h, c := e.commandHash, e.command;
    var id := c.operationId;
    match c
    case PrepareAttempt(_, trellisTaskId, commit) =>
      if id in p.unknownIds then
        var answer := UnknownAttemptAnswer(id, now, "scripted_unknown:" + id);
        LifecycleRecord(Prepare, h, answer, answer, false)
      else
        var worktree := DerivedToken("worktree", h);
        var path := if p.worktreePath.Some? then p.worktreePath.value else ".wish-builder/fake-trellis/" + worktree;
        var answer := Attempt(id, Applied, now, IsPrepared, Some(p.digest("prepare_attempt", h)), Some(id),
                              Some(trellisTaskId), Some(worktree), Some(path), Some(commit), []);
        LifecycleRecord(Prepare, h, answer, answer, true)
    case CheckAttempt(_, attempt, trellisTaskId, commit) =>
      if id in p.unknownIds || attempt !in w.preparedAttempts then
        var reason := if id in p.unknownIds then "scripted_unknown:" + id else "attempt_not_prepared:" + attempt;
        LifecycleRecord(Check, h, UnknownAnswer(Check, id, now, reason), UnknownAttemptAnswer(id, later, reason), false)
      else
        var digest := p.digest("check_attempt", h);
        LifecycleRecord(Check, h,
          Checked(id, Applied, now, Some(digest), Some(attempt), Some(true), Some(commit),
                  Some(p.digest("check_result", h)), []),
          Attempt(id, Applied, later, IsChecked, Some(digest), Some(attempt), Some(trellisTaskId), None, None, None,
                  []),
          true)
    case FinishAttempt(_, attempt, trellisTaskId, commit) =>
      if id in p.unknownIds || attempt !in w.checkedAttempts then
        var reason := if id in p.unknownIds then "scripted_unknown:" + id else "attempt_not_checked:" + attempt;
        LifecycleRecord(Finish, h, UnknownAnswer(Finish, id, now, reason), UnknownAttemptAnswer(id, later, reason),
                        false)
      else
        var digest := p.digest("finish_attempt", h);
        LifecycleRecord(Finish, h,
          Finished(id, Applied, now, Some(digest), Some(attempt), Some(true), Some(commit),
                   Some(p.digest("finish_result", h)), []),
          Attempt(id, Applied, later, IsFinished, Some(digest), Some(attempt), Some(trellisTaskId), None, None, None,
                  []),
          true)
  }

  /** What an applied lifecycle effect adds to the tables. */
  function ApplyLifecycle(w: World, e: Effect, r: LifecycleRecord): World {
    var w' := w.(lifecycleRecords := w.lifecycleRecords[e.command.operationId := r]);
    if !r.applied then w'
    else match e.command
      case PrepareAttempt(id, _, _) => w'.(preparedAttempts := w.preparedAttempts[id := r.response])
      case CheckAttempt(_, attempt, _, _) => w'.(checkedAttempts := w.checkedAttempts + {attempt})
      case _ => w'
  }

  /** The observation of the send that a turn belongs to, when there is one. */
  function SourceOfTurn(w: World, turn: Id): Option<Observation> {
    if turn in w.turnOperations && w.turnOperations[turn] in w.channelRecords
    then Some(w.channelRecords[w.turnOperations[turn]].response) else None
  }

  function DecideChannel(w: World, p: ChannelPort, e: Effect, now: string): (r: ChannelRecord)
    requires !IsLifecycle(KindOf(e.command))
    ensures r.kind == KindOf(e.command) && r.commandHash == e.commandHash
    ensures AnswersKind(r.response, r.kind) && r.response.operationId == e.command.operationId
    ensures r.applied <==> r.response.status == Applied
    ensures !r.applied ==> r.response.status == Unknown
  {
    var h, c := e.commandHash, e.command;
    var id := c.operationId;
    match c
    case ReserveChannel(_, attempt, channel, provider, capability, launch, policy) =>
      var matches := provider == p.provider && capability == p.capabilityDigest
                     && launch == p.launchProfileDigest && policy == p.policyDigest;
      var collision := channel in w.channelReservations || attempt in w.attemptChannels;
      if id in p.unknownIds || !matches || collision then
        var reason := if id in p.unknownIds then "scripted_unknown:" + id
                      else if collision then "channel_id_collision:" + channel else "channel_capability_mismatch";
        ChannelRecord(Reserve, h, UnknownAnswer(Reserve, id, now, reason), false)
      else
        ChannelRecord(Reserve, h,
          Channel(id, Applied, now, Some(p.digest("reserve_channel", h)), Some(attempt), Some(channel), Some(provider),
                  Some(DerivedToken("session", h)), []), true)
    case SendTaskPacket(_, attempt, channel, message, turn, bytes) =>
      var reserved := channel in w.channelReservations && w.channelReservations[channel] == attempt;
      var collision := turn in w.turnOperations || message in w.messageOperations;
      if id in p.unknownIds || !reserved || bytes > p.maxPacketBytes || collision then
        var reason := if id in p.unknownIds then "scripted_unknown:" + id
                      else if collision then
                        if turn in w.turnOperations then "turn_id_collision:" + turn
                            else "message_id_collision:" + message
                      else if bytes > p.maxPacketBytes then "task_packet_exceeds_capability"
                      else "channel_not_reserved:" + channel;
        ChannelRecord(Send, h, UnknownAnswer(Send, id, now, reason), false)
      else
        var result := if p.sendState.Done? then Some(p.digest("turn_result", h)) else None;
        ChannelRecord(Send, h,
          Turn(id, Applied, now, p.sendState, Some(p.digest("send_task_packet", h)), Some(attempt), Some(channel),
               Some(message), Some(turn), result, []), true)
    case CancelTurn(_, attempt, channel, turn) =>
      var source := SourceOfTurn(w, turn);
      var matches := source.Some? && source.value.Turn? && source.value.attemptId == Some(attempt)
                     && source.value.channelId == Some(channel) && turn !in w.turnCancellations;
      if id in p.unknownIds || !matches then
        var reason := if id in p.unknownIds then "scripted_unknown:" + id else "turn_not_found:" + turn;
        ChannelRecord(Cancel, h, UnknownAnswer(Cancel, id, now, reason), false)
      else
        var state := if source.value.state.Terminal() then source.value.state else Cancelled;
        ChannelRecord(Cancel, h,
          Turn(id, Applied, now, state, Some(p.digest("cancel_turn", h)), Some(attempt), Some(channel),
               source.value.messageId, Some(turn), source.value.resultDigest, []), true)
  }

  function ApplyChannel(w: World, e: Effect, r: ChannelRecord): (applied: World)
    ensures applied.lifecycleRecords == w.lifecycleRecords && applied.preparedAttempts == w.preparedAttempts
    ensures applied.checkedAttempts == w.checkedAttempts
  {
    var id := e.command.operationId;
    var w' := w.(channelRecords := w.channelRecords[id := r]);
    if !r.applied then w'
    else match e.command
      case ReserveChannel(_, attempt, channel, _, _, _, _) =>
        w'.(channelReservations := w.channelReservations[channel := attempt],
            attemptChannels := w.attemptChannels[attempt := channel])
      case SendTaskPacket(_, _, _, message, turn, _) =>
        w'.(turnOperations := w.turnOperations[turn := id], messageOperations := w.messageOperations[message := id])
      case CancelTurn(_, _, _, turn) => w'.(turnCancellations := w.turnCancellations[turn := id])
      case _ => w'
  }

  // ---- One call ----

  datatype Call =
    | LifecycleCall(lifecyclePort: LifecyclePort, effect: Effect, now: string, later: string)
    | ChannelCall(channelPort: ChannelPort, effect: Effect, now: string)

  /** The command has a type the port accepts. */
  predicate WellTyped(c: Call) {
    match c
    case LifecycleCall(_, e, _, _) => IsLifecycle(KindOf(e.command))
    case ChannelCall(p, e, _) => !IsLifecycle(KindOf(e.command)) && ValidPort(p)
  }

  function IdOf(c: Call): Id {
    c.effect.command.operationId
  }

  function LookupOf(w: World, c: Call): Lookup {
    match c
    case LifecycleCall(_, e, now, _) => ExistingLifecycle(w, e, now)
    case ChannelCall(_, e, now) => ExistingChannel(w, e, now)
  }

  /** The state and the answer that a first use of an operation id leads to. */
  function Decide(w: World, c: Call): (World, Observation)
    requires WellTyped(c)
  {
    match c
    case LifecycleCall(p, e, now, later) =>
      var r := DecideLifecycle(w, p, e, now, later);
      (ApplyLifecycle(w, e, r), r.response)
    case ChannelCall(p, e, now) =>
      var r := DecideChannel(w, p, e, now);
      (ApplyChannel(w, e, r), r.response)
  }

  /** One mutating call on one port instance, as a step of the shared state. */
  function Step(w: World, c: Call): (World, Observation)
    requires WellTyped(c)
  {
    match LookupOf(w, c)
    case Seen(w', answer) => (w', answer)
    case NotSeen => Decide(w, c)
  }
}
