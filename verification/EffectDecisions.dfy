/** Which first uses of an operation id are applied, and what each is answered, in terms of the earlier calls of the
    run alone. */
module EffectDecisions {
  import opened Options
  import opened ExternalState
  import opened EffectHistory
  import EffectInvariants

  // ---- Answers, field by field ----

  /** An answer that reports nothing but a reason. */
  predicate Refuses(o: Observation, c: Command, now: string, reason: string) {
    match c
    case PrepareAttempt(id, _, _) =>
      o == Attempt(id, Unknown, now, UnknownAttempt, None, None, None, None, None, None, [reason])
    case CheckAttempt(id, _, _, _) => o == Checked(id, Unknown, now, None, None, None, None, None, [reason])
    case FinishAttempt(id, _, _, _) => o == Finished(id, Unknown, now, None, None, None, None, None, [reason])
    case ReserveChannel(id, _, _, _, _, _, _) => o == Channel(id, Unknown, now, None, None, None, None, None, [reason])
    case SendTaskPacket(id, _, _, _, _, _) =>
      o == Turn(id, Unknown, now, UnknownTurn, None, None, None, None, None, None, [reason])
    case CancelTurn(id, _, _, _) =>
      o == Turn(id, Unknown, now, UnknownTurn, None, None, None, None, None, None, [reason])
  }

  /** The two commands have one type. */
  predicate SameType(c: Command, d: Command) {
    && (c.PrepareAttempt? <==> d.PrepareAttempt?) && (c.CheckAttempt? <==> d.CheckAttempt?)
    && (c.FinishAttempt? <==> d.FinishAttempt?) && (c.ReserveChannel? <==> d.ReserveChannel?)
    && (c.SendTaskPacket? <==> d.SendTaskPacket?) && (c.CancelTurn? <==> d.CancelTurn?)
  }

  lemma UseIsTypeAndHash(c: Call, d: Call)
    ensures UseOf(c) == UseOf(d) <==>
            SameType(c.effect.command, d.effect.command) && c.effect.commandHash == d.effect.commandHash
  {
  }

  /** The first 24 characters of a digest, behind a prefix. */
  ghost predicate IsToken(token: string, prefix: string, hash: string) {
    exists digest :: IsDigestOf(hash, digest) && token == prefix + "-" + if |digest| <= 24 then digest else digest[..24]
  }

  predicate IsDigestOf(hash: string, digest: string) {
    hash == "sha256:" + digest || (hash == digest && !("sha256:" <= hash))
  }

  lemma TokenIsDerived(prefix: string, hash: string)
    ensures IsToken(DerivedToken(prefix, hash), prefix, hash)
  {
    if "sha256:" <= hash {
      assert hash == "sha256:" + hash[7..];
      assert IsDigestOf(hash, hash[7..]);
    } else {
      assert IsDigestOf(hash, hash);
    }
  }

  // ---- The effects applied so far ----

  /** An applied effect: its command and what it was answered. */
  datatype AppliedEffect = AppliedEffect(command: Command, answer: Observation)

  /** The applied effects of a run, in order: the first uses whose answer says so. */
  ghost function Effects(calls: seq<Call>): seq<AppliedEffect>
    requires Typed(calls)
  {
    if calls == [] then []
    else
      var n := |calls| - 1;
      Effects(calls[..n]) + (if FirstUse(calls, n) && AnswerAt(calls, n).status == Applied
                             then [AppliedEffect(calls[n].effect.command, AnswerAt(calls, n))] else [])
  }

  /** What an applied effect makes true for good. */
  datatype Fact =
    | PreparedFact(attempt: Id)
    | CheckedFact(attempt: Id)
    | ReservedFact(channel: Id, attempt: Id)
    | TurnFact(turn: Id, op: Id)
    | MessageFact(message: Id, op: Id)
    | CancelFact(turn: Id, op: Id)

  function FactsOf(c: Command): set<Fact> {
    match c
    case PrepareAttempt(id, _, _) => {PreparedFact(id)}
    case CheckAttempt(_, attempt, _, _) => {CheckedFact(attempt)}
    case FinishAttempt(_, _, _, _) => {}
    case ReserveChannel(_, attempt, channel, _, _, _, _) => {ReservedFact(channel, attempt)}
    case SendTaskPacket(id, _, _, message, turn, _) => {TurnFact(turn, id), MessageFact(message, id)}
    case CancelTurn(id, _, _, turn) => {CancelFact(turn, id)}
  }

  predicate At(table: map<Id, Id>, key: Id, value: Id) {
    key in table && table[key] == value
  }

  predicate Holds(w: World, f: Fact) {
    match f
    case PreparedFact(attempt) => attempt in w.preparedAttempts
    case CheckedFact(attempt) => attempt in w.checkedAttempts
    case ReservedFact(channel, attempt) => At(w.channelReservations, channel, attempt)
    case TurnFact(turn, op) => At(w.turnOperations, turn, op)
    case MessageFact(message, op) => At(w.messageOperations, message, op)
    case CancelFact(turn, op) => At(w.turnCancellations, turn, op)
  }

  lemma LifecycleAdds(w: World, p: LifecyclePort, e: Effect, now: string, later: string, f: Fact)
    requires IsLifecycle(KindOf(e.command))
    ensures var r := DecideLifecycle(w, p, e, now, later);
      Holds(ApplyLifecycle(w, e, r), f) <==> Holds(w, f) || (r.applied && f in FactsOf(e.command))
  {
  }

  lemma ReserveAdds(w: World, p: ChannelPort, e: Effect, now: string, f: Fact)
    requires e.command.ReserveChannel?
    ensures var r := DecideChannel(w, p, e, now);
      Holds(ApplyChannel(w, e, r), f) <==> Holds(w, f) || (r.applied && f in FactsOf(e.command))
  {
  }

  lemma SendAdds(w: World, p: ChannelPort, e: Effect, now: string, f: Fact)
    requires e.command.SendTaskPacket?
    ensures var r := DecideChannel(w, p, e, now);
      Holds(ApplyChannel(w, e, r), f) <==> Holds(w, f) || (r.applied && f in FactsOf(e.command))
  {
  }

  lemma CancelAdds(w: World, p: ChannelPort, e: Effect, now: string, f: Fact)
    requires e.command.CancelTurn?
    ensures var r := DecideChannel(w, p, e, now);
      Holds(ApplyChannel(w, e, r), f) <==> Holds(w, f) || (r.applied && f in FactsOf(e.command))
  {
  }

  lemma DecideAdds(w: World, c: Call, f: Fact)
    requires WellTyped(c)
    ensures Holds(Decide(w, c).0, f) <==> Holds(w, f) || (Decide(w, c).1.status == Applied
                                                          && f in FactsOf(c.effect.command))
  {
    match c {
      case LifecycleCall(p, e, now, later) => LifecycleAdds(w, p, e, now, later, f);
      case ChannelCall(p, e, now) =>
        match e.command {
          case ReserveChannel(_, _, _, _, _, _, _) => ReserveAdds(w, p, e, now, f);
          case SendTaskPacket(_, _, _, _, _, _) => SendAdds(w, p, e, now, f);
          case CancelTurn(_, _, _, _) => CancelAdds(w, p, e, now, f);
        }
    }
  }

  // ---- The tables and the effects ----

  /** The tables hold exactly the facts of the applied effects. */
  ghost predicate TablesFollow(w: World, past: seq<AppliedEffect>) {
    forall f :: Holds(w, f) <==> exists d :: d in past && f in FactsOf(d.command)
  }

  predicate Recorded(w: World, d: AppliedEffect) {
    var id := d.command.operationId;
    if IsLifecycle(KindOf(d.command)) then id in w.lifecycleRecords
    else id in w.channelRecords && w.channelRecords[id].response == d.answer
  }

  /** Each effect has its own operation id, under which it is recorded. */
  ghost predicate RecordsFollow(w: World, past: seq<AppliedEffect>) {
    && (forall d :: d in past ==> Recorded(w, d))
    && (forall d, e :: d in past && e in past && d.command.operationId == e.command.operationId ==> d == e)
  }

  /** A send was answered with its own identities. */
  predicate AnsweredAsSent(d: AppliedEffect) {
    d.command.SendTaskPacket? ==>
      && d.answer.Turn? && d.answer.messageId == Some(d.command.messageId)
      && d.answer.attemptId == Some(d.command.attemptId) && d.answer.channelId == Some(d.command.channelId)
  }

  ghost predicate Follows(w: World, past: seq<AppliedEffect>) {
    TablesFollow(w, past) && RecordsFollow(w, past) && forall d :: d in past ==> AnsweredAsSent(d)
  }

  lemma FactsGrow(w: World, w': World, past: seq<AppliedEffect>, d: AppliedEffect, added: bool)
    requires TablesFollow(w, past)
    requires forall f :: Holds(w', f) <==> Holds(w, f) || (added && f in FactsOf(d.command))
    ensures TablesFollow(w', if added then past + [d] else past)
  {
    var more := if added then past + [d] else past;
    forall f
      ensures Holds(w', f) <==> exists e :: e in more && f in FactsOf(e.command)
    {
      if added && f in FactsOf(d.command) {
        assert d in more;
      }
      if e :| e in past && f in FactsOf(e.command) {
        assert e in more;
      }
    }
  }

  lemma RecordsGrow(w: World, c: Call, past: seq<AppliedEffect>)
    requires WellTyped(c) && LookupOf(w, c).NotSeen? && RecordsFollow(w, past)
    ensures var d := AppliedEffect(c.effect.command, Decide(w, c).1);
      RecordsFollow(Decide(w, c).0, past) && RecordsFollow(Decide(w, c).0, past + [d])
  {
    var w', d := Decide(w, c).0, AppliedEffect(c.effect.command, Decide(w, c).1);
    EffectInvariants.NotSeenIsFresh(w, c);
    DecideFrame(w, c);
    forall e | e in past
      ensures Recorded(w', e) && e.command.operationId != d.command.operationId
    {
      assert Recorded(w, e);
    }
    assert Recorded(w', d);
  }

  lemma SendAnswersAsSent(w: World, c: Call)
    requires WellTyped(c) && Decide(w, c).1.status == Applied
    ensures AnsweredAsSent(AppliedEffect(c.effect.command, Decide(w, c).1))
  {
  }

  lemma FirstUseIsDecided(calls: seq<Call>)
    requires Typed(calls) && calls != [] && FirstUse(calls, |calls| - 1)
    ensures var n := |calls| - 1;
      var w := WorldAfter(calls[..n]);
      LookupOf(w, calls[n]).NotSeen? && WorldAfter(calls) == Decide(w, calls[n]).0
        && AnswerAt(calls, n) == Decide(w, calls[n]).1
  {
    var n := |calls| - 1;
    RunAgrees(calls[..n], IdOf(calls[n]));
    EntryNeedsUse(calls[..n], IdOf(calls[n]));
  }

  lemma {:induction false} RunFollows(calls: seq<Call>)
    requires Typed(calls)
    ensures Follows(WorldAfter(calls), Effects(calls))
    decreases |calls|
  {
    if calls != [] {
      var n := |calls| - 1;
      var w, past := WorldAfter(calls[..n]), Effects(calls[..n]);
      RunFollows(calls[..n]);
      if FirstUse(calls, n) {
        FirstUseIsDecided(calls);
        DecisionFollows(w, calls[n], past);
      } else {
        AnswersFollowHistory(calls, n);
        assert calls[..n + 1] == calls;
        SameTablesFollow(w, WorldAfter(calls), past);
      }
    }
  }

  lemma DecisionFollows(w: World, c: Call, past: seq<AppliedEffect>)
    requires WellTyped(c) && LookupOf(w, c).NotSeen? && Follows(w, past)
    ensures var d := AppliedEffect(c.effect.command, Decide(w, c).1);
      Follows(Decide(w, c).0, if d.answer.status == Applied then past + [d] else past)
  {
    var d := AppliedEffect(c.effect.command, Decide(w, c).1);
    forall f
      ensures Holds(Decide(w, c).0, f) <==> Holds(w, f) || (d.answer.status == Applied && f in FactsOf(d.command))
    {
      DecideAdds(w, c, f);
    }
    FactsGrow(w, Decide(w, c).0, past, d, d.answer.status == Applied);
    RecordsGrow(w, c, past);
    if d.answer.status == Applied {
      SendAnswersAsSent(w, c);
    }
  }

  lemma SameTablesFollow(w: World, w': World, past: seq<AppliedEffect>)
    requires Tables(w) == Tables(w') && Follows(w, past)
    ensures Follows(w', past)
  {
    assert w.lifecycleRecords == Tables(w).lifecycleRecords && w'.lifecycleRecords == Tables(w').lifecycleRecords;
    assert w.channelRecords == w'.channelRecords;
    forall f
      ensures Holds(w, f) <==> Holds(w', f)
    {
      SameTablesSameFacts(w, w', f);
    }
    forall d | d in past
      ensures Recorded(w', d)
    {
      assert Recorded(w, d);
    }
  }

  lemma SameTablesSameFacts(w: World, w': World, f: Fact)
    requires Tables(w) == Tables(w')
    ensures Holds(w, f) <==> Holds(w', f)
  {
    assert Tables(w).preparedAttempts == w.preparedAttempts && Tables(w').preparedAttempts == w'.preparedAttempts;
    assert w.checkedAttempts == w'.checkedAttempts && w.channelReservations == w'.channelReservations;
    assert w.turnOperations == w'.turnOperations && w.messageOperations == w'.messageOperations;
    assert w.turnCancellations == w'.turnCancellations;
  }

  // ---- What the applied effects say ----

  ghost predicate AttemptPrepared(past: seq<AppliedEffect>, attempt: Id) {
    exists d :: d in past && d.command.PrepareAttempt? && d.command.operationId == attempt
  }

  ghost predicate AttemptChecked(past: seq<AppliedEffect>, attempt: Id) {
    exists d :: d in past && d.command.CheckAttempt? && d.command.attemptId == attempt
  }

  /** A reservation names this channel or this attempt. */
  ghost predicate ChannelTaken(past: seq<AppliedEffect>, channel: Id, attempt: Id) {
    exists d :: d in past && d.command.ReserveChannel? && (d.command.channelId == channel
                                                           || d.command.attemptId == attempt)
  }

  /** A reservation gives this channel to this attempt. */
  ghost predicate ChannelHeld(past: seq<AppliedEffect>, channel: Id, attempt: Id) {
    exists d :: d in past && d.command.ReserveChannel? && d.command.channelId == channel
      && d.command.attemptId == attempt
  }

  ghost predicate TurnUsed(past: seq<AppliedEffect>, turn: Id) {
    exists d :: d in past && d.command.SendTaskPacket? && d.command.turnId == turn
  }

  ghost predicate MessageUsed(past: seq<AppliedEffect>, message: Id) {
    exists d :: d in past && d.command.SendTaskPacket? && d.command.messageId == message
  }

  ghost predicate TurnCancelled(past: seq<AppliedEffect>, turn: Id) {
    exists d :: d in past && d.command.CancelTurn? && d.command.turnId == turn
  }

  lemma EffectHolds(w: World, past: seq<AppliedEffect>, d: AppliedEffect, f: Fact)
    requires TablesFollow(w, past) && d in past && f in FactsOf(d.command)
    ensures Holds(w, f)
  {
  }

  lemma HoldsByEffect(w: World, past: seq<AppliedEffect>, f: Fact) returns (d: AppliedEffect)
    requires TablesFollow(w, past) && Holds(w, f)
    ensures d in past && f in FactsOf(d.command)
  {
    d :| d in past && f in FactsOf(d.command);
  }

  lemma AttemptsInTables(w: World, past: seq<AppliedEffect>, attempt: Id)
    requires TablesFollow(w, past)
    ensures AttemptPrepared(past, attempt) <==> attempt in w.preparedAttempts
    ensures AttemptChecked(past, attempt) <==> attempt in w.checkedAttempts
  {
    if d :| d in past && d.command.PrepareAttempt? && d.command.operationId == attempt {
      EffectHolds(w, past, d, PreparedFact(attempt));
    }
    if attempt in w.preparedAttempts {
      var d := HoldsByEffect(w, past, PreparedFact(attempt));
    }
    if d :| d in past && d.command.CheckAttempt? && d.command.attemptId == attempt {
      EffectHolds(w, past, d, CheckedFact(attempt));
    }
    if attempt in w.checkedAttempts {
      var d := HoldsByEffect(w, past, CheckedFact(attempt));
    }
  }

  lemma ChannelsInTables(w: World, past: seq<AppliedEffect>, channel: Id, attempt: Id)
    requires TablesFollow(w, past) && EffectInvariants.Inverse(w.channelReservations, w.attemptChannels)
    ensures ChannelTaken(past, channel, attempt) <==> channel in w.channelReservations || attempt in w.attemptChannels
    ensures ChannelHeld(past, channel, attempt) <==> At(w.channelReservations, channel, attempt)
  {
    if d :| d in past && d.command.ReserveChannel? && (d.command.channelId == channel
                                                       || d.command.attemptId == attempt) {
      EffectHolds(w, past, d, ReservedFact(d.command.channelId, d.command.attemptId));
    }
    if channel in w.channelReservations {
      var d := HoldsByEffect(w, past, ReservedFact(channel, w.channelReservations[channel]));
    }
    if attempt in w.attemptChannels {
      var d := HoldsByEffect(w, past, ReservedFact(w.attemptChannels[attempt], attempt));
    }
    if d :| d in past && d.command.ReserveChannel? && d.command.channelId == channel && d.command.attemptId == attempt {
      EffectHolds(w, past, d, ReservedFact(channel, attempt));
    }
    if At(w.channelReservations, channel, attempt) {
      var d := HoldsByEffect(w, past, ReservedFact(channel, attempt));
    }
  }

  lemma TurnsInTables(w: World, past: seq<AppliedEffect>, turn: Id, message: Id)
    requires TablesFollow(w, past)
    ensures TurnUsed(past, turn) <==> turn in w.turnOperations
    ensures MessageUsed(past, message) <==> message in w.messageOperations
    ensures TurnCancelled(past, turn) <==> turn in w.turnCancellations
  {
    if d :| d in past && d.command.SendTaskPacket? && d.command.turnId == turn {
      EffectHolds(w, past, d, TurnFact(turn, d.command.operationId));
    }
    if turn in w.turnOperations {
      var d := HoldsByEffect(w, past, TurnFact(turn, w.turnOperations[turn]));
    }
    if d :| d in past && d.command.SendTaskPacket? && d.command.messageId == message {
      EffectHolds(w, past, d, MessageFact(message, d.command.operationId));
    }
    if message in w.messageOperations {
      var d := HoldsByEffect(w, past, MessageFact(message, w.messageOperations[message]));
    }
    if d :| d in past && d.command.CancelTurn? && d.command.turnId == turn {
      EffectHolds(w, past, d, CancelFact(turn, d.command.operationId));
    }
    if turn in w.turnCancellations {
      var d := HoldsByEffect(w, past, CancelFact(turn, w.turnCancellations[turn]));
    }
  }

  // ---- Which first uses are applied ----

  /** The answer to a first lifecycle command, in terms of the effects applied before.  A prepare is applied unless
      its id is scripted as unknown; a check needs an applied prepare of its attempt, a finish an applied check. */
  ghost predicate LifecycleAnswer(past: seq<AppliedEffect>, p: LifecyclePort, e: Effect, now: string,
                                  answer: Observation) {
    var c, h := e.command, e.commandHash;
    if c.operationId in p.unknownIds then Refuses(answer, c, now, "scripted_unknown:" + c.operationId)
    else match c
      case PrepareAttempt(id, task, commit) =>
        exists worktree ::
          && IsToken(worktree, "worktree", h)
          && answer == Attempt(id, Applied, now, IsPrepared, Some(p.digest("prepare_attempt", h)), Some(id), Some(task),
                               Some(worktree),
                               Some(if p.worktreePath.Some? then p.worktreePath.value
                                    else ".wish-builder/fake-trellis/" + worktree),
                               Some(commit), [])
      case CheckAttempt(id, attempt, _, commit) =>
        if !AttemptPrepared(past, attempt) then Refuses(answer, c, now, "attempt_not_prepared:" + attempt)
        else answer == Checked(id, Applied, now, Some(p.digest("check_attempt", h)), Some(attempt), Some(true),
                               Some(commit), Some(p.digest("check_result", h)), [])
      case FinishAttempt(id, attempt, _, commit) =>
        if !AttemptChecked(past, attempt) then Refuses(answer, c, now, "attempt_not_checked:" + attempt)
        else answer == Finished(id, Applied, now, Some(p.digest("finish_attempt", h)), Some(attempt), Some(true),
                                Some(commit), Some(p.digest("finish_result", h)), [])
      case _ => false
  }

  /** The answer to a first reservation: it is applied exactly when its id is not scripted, neither its channel nor its
      attempt is in an applied reservation, and provider and digests are those of the port. */
  ghost predicate ReserveAnswer(past: seq<AppliedEffect>, p: ChannelPort, e: Effect, now: string, answer: Observation)
    requires e.command.ReserveChannel?
  {
    var c, h := e.command, e.commandHash;
    if c.operationId in p.unknownIds then Refuses(answer, c, now, "scripted_unknown:" + c.operationId)
    else if ChannelTaken(past, c.channelId, c.attemptId)
      then Refuses(answer, c, now, "channel_id_collision:" + c.channelId)
    else if c.provider != p.provider || c.capabilityDigest != p.capabilityDigest
            || c.launchProfileDigest != p.launchProfileDigest || c.policyDigest != p.policyDigest
    then Refuses(answer, c, now, "channel_capability_mismatch")
    else exists session ::
      && IsToken(session, "session", h)
      && answer == Channel(c.operationId, Applied, now, Some(p.digest("reserve_channel", h)), Some(c.attemptId),
                           Some(c.channelId), Some(c.provider), Some(session), [])
  }

  /** The answer to a first send: it is applied exactly when its id is not scripted, no applied send has its turn or its
      message, the packet fits, and an applied reservation gives its channel to its attempt. */
  ghost predicate SendAnswer(past: seq<AppliedEffect>, p: ChannelPort, e: Effect, now: string, answer: Observation)
    requires e.command.SendTaskPacket?
  {
    var c, h := e.command, e.commandHash;
    if c.operationId in p.unknownIds then Refuses(answer, c, now, "scripted_unknown:" + c.operationId)
    else if TurnUsed(past, c.turnId) then Refuses(answer, c, now, "turn_id_collision:" + c.turnId)
    else if MessageUsed(past, c.messageId) then Refuses(answer, c, now, "message_id_collision:" + c.messageId)
    else if c.packetBytes > p.maxPacketBytes then Refuses(answer, c, now, "task_packet_exceeds_capability")
    else if !ChannelHeld(past, c.channelId, c.attemptId)
      then Refuses(answer, c, now, "channel_not_reserved:" + c.channelId)
    else answer == Turn(c.operationId, Applied, now, p.sendState, Some(p.digest("send_task_packet", h)),
                        Some(c.attemptId), Some(c.channelId), Some(c.messageId), Some(c.turnId),
                        if p.sendState == TurnState.Done then Some(p.digest("turn_result", h)) else None, [])
  }

  /** The answer to a first cancellation: it is applied exactly when its id is not scripted, an applied send has its
      turn, its channel and its attempt, and no applied cancellation has its turn.  It repeats the message and the
      result digest of that send, and its state if that was terminal. */
  ghost predicate CancelAnswer(past: seq<AppliedEffect>, p: ChannelPort, e: Effect, now: string, answer: Observation)
    requires e.command.CancelTurn?
  {
    var c := e.command;
    if c.operationId in p.unknownIds then Refuses(answer, c, now, "scripted_unknown:" + c.operationId)
    else if TurnCancelled(past, c.turnId) || !(exists d :: d in past && Sends(d, c.turnId, c.channelId, c.attemptId))
    then Refuses(answer, c, now, "turn_not_found:" + c.turnId)
    else forall d :: d in past && Sends(d, c.turnId, c.channelId, c.attemptId) ==>
           CancelsAs(answer, d, c, now, p.digest("cancel_turn", e.commandHash))
  }

  predicate Sends(d: AppliedEffect, turn: Id, channel: Id, attempt: Id) {
    && d.command.SendTaskPacket? && d.command.turnId == turn && d.command.channelId == channel
    && d.command.attemptId == attempt
  }

  predicate CancelsAs(answer: Observation, d: AppliedEffect, c: Command, now: string, digest: string)
    requires c.CancelTurn? && d.command.SendTaskPacket?
  {
    && d.answer.Turn?
    && var state := d.answer.state;
       answer == Turn(c.operationId, Applied, now,
                      if state == TurnState.Done || state == Failed || state == Cancelled then state else Cancelled,
                      Some(digest), Some(c.attemptId), Some(c.channelId), Some(d.command.messageId), Some(c.turnId),
                      d.answer.resultDigest, [])
  }

  lemma LifecycleIsDecided(w: World, past: seq<AppliedEffect>, p: LifecyclePort, e: Effect, now: string, later: string)
    requires TablesFollow(w, past) && IsLifecycle(KindOf(e.command))
    ensures LifecycleAnswer(past, p, e, now, DecideLifecycle(w, p, e, now, later).response)
  {
    match e.command {
      case PrepareAttempt(_, _, _) => TokenIsDerived("worktree", e.commandHash);
      case CheckAttempt(_, attempt, _, _) => AttemptsInTables(w, past, attempt);
      case FinishAttempt(_, attempt, _, _) => AttemptsInTables(w, past, attempt);
    }
  }

  lemma ReserveIsDecided(w: World, past: seq<AppliedEffect>, p: ChannelPort, e: Effect, now: string)
    requires TablesFollow(w, past) && EffectInvariants.Inverse(w.channelReservations, w.attemptChannels)
    requires e.command.ReserveChannel?
    ensures ReserveAnswer(past, p, e, now, DecideChannel(w, p, e, now).response)
  {
    ChannelsInTables(w, past, e.command.channelId, e.command.attemptId);
    TokenIsDerived("session", e.commandHash);
  }

  lemma SendIsDecided(w: World, past: seq<AppliedEffect>, p: ChannelPort, e: Effect, now: string)
    requires TablesFollow(w, past) && EffectInvariants.Inverse(w.channelReservations, w.attemptChannels)
    requires e.command.SendTaskPacket?
    ensures SendAnswer(past, p, e, now, DecideChannel(w, p, e, now).response)
  {
    ChannelsInTables(w, past, e.command.channelId, e.command.attemptId);
    TurnsInTables(w, past, e.command.turnId, e.command.messageId);
  }

  /** The send of a turn, in the tables. */
  lemma SourceInTables(w: World, past: seq<AppliedEffect>, turn: Id) returns (d: AppliedEffect)
    requires Follows(w, past) && TurnUsed(past, turn)
    ensures d in past && d.command.SendTaskPacket? && d.command.turnId == turn && AnsweredAsSent(d)
    ensures SourceOfTurn(w, turn) == Some(d.answer)
    ensures forall e :: e in past && e.command.SendTaskPacket? && e.command.turnId == turn ==> e == d
  {
    d :| d in past && d.command.SendTaskPacket? && d.command.turnId == turn;
    EffectHolds(w, past, d, TurnFact(turn, d.command.operationId));
    assert Recorded(w, d);
    forall e | e in past && e.command.SendTaskPacket? && e.command.turnId == turn
      ensures e == d
    {
      EffectHolds(w, past, e, TurnFact(turn, e.command.operationId));
    }
  }

  lemma CancelIsDecided(w: World, past: seq<AppliedEffect>, p: ChannelPort, e: Effect, now: string)
    requires Follows(w, past) && e.command.CancelTurn?
    ensures CancelAnswer(past, p, e, now, DecideChannel(w, p, e, now).response)
  {
    TurnsInTables(w, past, e.command.turnId, "");
    if TurnUsed(past, e.command.turnId) {
      var d := SourceInTables(w, past, e.command.turnId);
    }
  }

  /** The answer to the first use of an operation id, in terms of the effects that the calls before it applied. */
  lemma FirstUseAnswers(calls: seq<Call>, i: nat)
    requires Typed(calls) && i < |calls| && FirstUse(calls, i)
    ensures var past, c, answer := Effects(calls[..i]), calls[i], AnswerAt(calls, i);
      match c
      case LifecycleCall(p, e, now, _) => LifecycleAnswer(past, p, e, now, answer)
      case ChannelCall(p, e, now) =>
        match e.command
        case ReserveChannel(_, _, _, _, _, _, _) => ReserveAnswer(past, p, e, now, answer)
        case SendTaskPacket(_, _, _, _, _, _) => SendAnswer(past, p, e, now, answer)
        case CancelTurn(_, _, _, _) => CancelAnswer(past, p, e, now, answer)
        case _ => false
  {
    var w, past := WorldAfter(calls[..i]), Effects(calls[..i]);
    AnswersFollowHistory(calls, i);
    RunFollows(calls[..i]);
    RunIsInverse(calls[..i]);
    match calls[i] {
      case LifecycleCall(p, e, now, later) => LifecycleIsDecided(w, past, p, e, now, later);
      case ChannelCall(p, e, now) =>
        match e.command {
          case ReserveChannel(_, _, _, _, _, _, _) => ReserveIsDecided(w, past, p, e, now);
          case SendTaskPacket(_, _, _, _, _, _) => SendIsDecided(w, past, p, e, now);
          case CancelTurn(_, _, _, _) => CancelIsDecided(w, past, p, e, now);
        }
    }
  }

  lemma RunIsInverse(calls: seq<Call>)
    requires Typed(calls)
    ensures EffectInvariants.Inverse(WorldAfter(calls).channelReservations, WorldAfter(calls).attemptChannels)
  {
    EffectInvariants.RunKeepsInv(calls);
  }

  /** A differing use is refused, with all other fields empty. */
  lemma DifferingUseIsRefused(calls: seq<Call>, i: nat, j: nat)
    requires Typed(calls) && j < i < |calls| && IdOf(calls[j]) == IdOf(calls[i])
    requires var c, d := calls[i].effect, calls[j].effect;
      !(SameType(c.command, d.command) && c.commandHash == d.commandHash)
    ensures Refuses(AnswerAt(calls, i), calls[i].effect.command, calls[i].now,
                    "operation_id_collision:" + IdOf(calls[i]))
  {
    UseIsTypeAndHash(calls[j], calls[i]);
    AnswersFollowHistory(calls, i);
  }
}
