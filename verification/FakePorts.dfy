/** The two fake ports as classes over one shared state object.  Every method is one critical section
    under the state's lock, so it is one atomic step. */
module FakePorts {
  import opened Options
  import opened ExternalState

  class FakeExternalState {
    var lifecycleRecords: map<Id, LifecycleRecord>
    var channelRecords: map<Id, ChannelRecord>
    var preparedAttempts: map<Id, Observation>
    var checkedAttempts: set<Id>
    var channelReservations: map<Id, Id>
    var attemptChannels: map<Id, Id>
    var turnOperations: map<Id, Id>
    var messageOperations: map<Id, Id>
    var turnCancellations: map<Id, Id>
    var lifecycleConflicts: set<Id>
    var channelConflicts: set<Id>

    /** The value of the whole state. */
    function View(): World
      reads this
    {
      World(lifecycleRecords, channelRecords, preparedAttempts, checkedAttempts, channelReservations, attemptChannels,
            turnOperations, messageOperations, turnCancellations, lifecycleConflicts, channelConflicts)
    }

    constructor ()
      ensures View() == EMPTY
    {
      lifecycleRecords, channelRecords, preparedAttempts := map[], map[], map[];
      checkedAttempts, channelReservations, attemptChannels := {}, map[], map[];
      turnOperations, messageOperations, turnCancellations := map[], map[], map[];
      lifecycleConflicts, channelConflicts := {}, {};
    }
  }

  class FakeTrellisLifecyclePort {
    const state: FakeExternalState
    const config: LifecyclePort

    constructor (state: FakeExternalState, config: LifecyclePort)
      ensures this.state == state && this.config == config
    {
      this.state, this.config := state, config;
    }

    /** `_existing`: the answer of an earlier use of the operation id, if there is one. */
    method Existing(effect: Effect, now: string) returns (found: Option<Observation>)
      modifies state
      ensures found == match ExistingLifecycle(old(state.View()), effect, now)
                       case Seen(_, answer) => Some(answer) case NotSeen => None
      ensures state.View() == match ExistingLifecycle(old(state.View()), effect, now)
                              case Seen(w, _) => w case NotSeen => old(state.View())
    {
      var id, kind := effect.command.operationId, KindOf(effect.command);
      if id in state.lifecycleConflicts {
        return Some(Collision(kind, id, now));
      }
      if id in state.channelRecords {
        state.lifecycleConflicts := state.lifecycleConflicts + {id};
        state.channelConflicts := state.channelConflicts + {id};
        return Some(Collision(kind, id, now));
      }
      if id !in state.lifecycleRecords {
        return None;
      }
      var existing := state.lifecycleRecords[id];
      if existing.kind == kind && existing.commandHash == effect.commandHash && AnswersKind(existing.response, kind) {
        return Some(existing.response);
      }
      state.lifecycleConflicts := state.lifecycleConflicts + {id};
      return Some(Collision(kind, id, now));
    }

    method RecordUnknown(effect: Effect, answer: Observation, inspection: Observation)
      modifies state`lifecycleRecords
      ensures state.lifecycleRecords == old(state.lifecycleRecords)[effect.command.operationId :=
                LifecycleRecord(KindOf(effect.command), effect.commandHash, answer, inspection, false)]
    {
      state.lifecycleRecords := state.lifecycleRecords[effect.command.operationId :=
        LifecycleRecord(KindOf(effect.command), effect.commandHash, answer, inspection, false)];
    }

    method PrepareAttempt(effect: Effect, now: string) returns (answer: Observation)
      requires effect.command.PrepareAttempt?
      modifies state
      ensures (state.View(), answer) == Step(old(state.View()), LifecycleCall(config, effect, now, now))
    {
      var existing := Existing(effect, now);
      if existing.Some? {
        return existing.value;
      }
      var id, h := effect.command.operationId, effect.commandHash;
      if id in config.unknownIds {
        answer := UnknownAttemptAnswer(id, now, "scripted_unknown:" + id);
        RecordUnknown(effect, answer, answer);
        return;
      }
      var worktree := DerivedToken("worktree", h);
      var path := if config.worktreePath.Some? then config.worktreePath.value
          else ".wish-builder/fake-trellis/" + worktree;
      answer := Attempt(id, Applied, now, IsPrepared, Some(config.digest("prepare_attempt", h)), Some(id),
                        Some(effect.command.trellisTaskId), Some(worktree), Some(path),
                        Some(effect.command.expectedBaseCommit), []);
      state.lifecycleRecords := state.lifecycleRecords[id := LifecycleRecord(Prepare, h, answer, answer, true)];
      state.preparedAttempts := state.preparedAttempts[id := answer];
    }

    method CheckAttempt(effect: Effect, now: string, later: string) returns (answer: Observation)
      requires effect.command.CheckAttempt?
      modifies state
      ensures (state.View(), answer) == Step(old(state.View()), LifecycleCall(config, effect, now, later))
    {
      var existing := Existing(effect, now);
      if existing.Some? {
        return existing.value;
      }
      var id, h, attempt := effect.command.operationId, effect.commandHash, effect.command.attemptId;
      if id in config.unknownIds || attempt !in state.preparedAttempts {
        var reason := if id in config.unknownIds then "scripted_unknown:" + id else "attempt_not_prepared:" + attempt;
        answer := UnknownAnswer(Check, id, now, reason);
        RecordUnknown(effect, answer, UnknownAttemptAnswer(id, later, reason));
        return;
      }
      var digest := config.digest("check_attempt", h);
      answer := Checked(id, Applied, now, Some(digest), Some(attempt), Some(true),
                        Some(effect.command.expectedHeadCommit), Some(config.digest("check_result", h)), []);
      var inspection := Attempt(id, Applied, later, IsChecked, Some(digest), Some(attempt),
                                Some(effect.command.trellisTaskId), None, None, None, []);
      state.lifecycleRecords := state.lifecycleRecords[id := LifecycleRecord(Check, h, answer, inspection, true)];
      state.checkedAttempts := state.checkedAttempts + {attempt};
    }

    method FinishAttempt(effect: Effect, now: string, later: string) returns (answer: Observation)
      requires effect.command.FinishAttempt?
      modifies state
      ensures (state.View(), answer) == Step(old(state.View()), LifecycleCall(config, effect, now, later))
    {
      var existing := Existing(effect, now);
      if existing.Some? {
        return existing.value;
      }
      var id, h, attempt := effect.command.operationId, effect.commandHash, effect.command.attemptId;
      if id in config.unknownIds || attempt !in state.checkedAttempts {
        var reason := if id in config.unknownIds then "scripted_unknown:" + id else "attempt_not_checked:" + attempt;
        answer := UnknownAnswer(Finish, id, now, reason);
        RecordUnknown(effect, answer, UnknownAttemptAnswer(id, later, reason));
        return;
      }
      var digest := config.digest("finish_attempt", h);
      answer := Finished(id, Applied, now, Some(digest), Some(attempt), Some(true),
                         Some(effect.command.deliveredCommit), Some(config.digest("finish_result", h)), []);
      var inspection := Attempt(id, Applied, later, IsFinished, Some(digest), Some(attempt),
                                Some(effect.command.trellisTaskId), None, None, None, []);
      state.lifecycleRecords := state.lifecycleRecords[id := LifecycleRecord(Finish, h, answer, inspection, true)];
    }
  }

  class FakeBackendChannelPort {
    const state: FakeExternalState
    const config: ChannelPort

    constructor (state: FakeExternalState, config: ChannelPort)
      requires ValidPort(config)
      ensures this.state == state && this.config == config
    {
      this.state, this.config := state, config;
    }

    method Existing(effect: Effect, now: string) returns (found: Option<Observation>)
      modifies state
      ensures found == match ExistingChannel(old(state.View()), effect, now)
                       case Seen(_, answer) => Some(answer) case NotSeen => None
      ensures state.View() == match ExistingChannel(old(state.View()), effect, now)
                              case Seen(w, _) => w case NotSeen => old(state.View())
    {
      var id, kind := effect.command.operationId, KindOf(effect.command);
      if id in state.channelConflicts {
        return Some(Collision(kind, id, now));
      }
      if id in state.lifecycleRecords {
        state.channelConflicts := state.channelConflicts + {id};
        state.lifecycleConflicts := state.lifecycleConflicts + {id};
        return Some(Collision(kind, id, now));
      }
      if id !in state.channelRecords {
        return None;
      }
      var existing := state.channelRecords[id];
      if existing.kind == kind && existing.commandHash == effect.commandHash && AnswersKind(existing.response, kind) {
        return Some(existing.response);
      }
      state.channelConflicts := state.channelConflicts + {id};
      return Some(Collision(kind, id, now));
    }

    method Record(effect: Effect, answer: Observation, applied: bool)
      modifies state`channelRecords
      ensures state.channelRecords == old(state.channelRecords)[effect.command.operationId :=
                ChannelRecord(KindOf(effect.command), effect.commandHash, answer, applied)]
    {
      state.channelRecords := state.channelRecords[effect.command.operationId :=
        ChannelRecord(KindOf(effect.command), effect.commandHash, answer, applied)];
    }

    method Reserve(effect: Effect, now: string) returns (answer: Observation)
      requires effect.command.ReserveChannel? && ValidPort(config)
      modifies state
      ensures (state.View(), answer) == Step(old(state.View()), ChannelCall(config, effect, now))
    {
      var existing := Existing(effect, now);
      if existing.Some? {
        return existing.value;
      }
      var c, h := effect.command, effect.commandHash;
      var id := c.operationId;
      var digestsMatch := c.provider == config.provider && c.capabilityDigest == config.capabilityDigest
                          && c.launchProfileDigest == config.launchProfileDigest
                             && c.policyDigest == config.policyDigest;
      var collision := c.channelId in state.channelReservations || c.attemptId in state.attemptChannels;
      if id in config.unknownIds || !digestsMatch || collision {
        var reason := "channel_capability_mismatch";
        if id in config.unknownIds {
          reason := "scripted_unknown:" + id;
        } else if collision {
          reason := "channel_id_collision:" + c.channelId;
        }
        answer := UnknownAnswer(Kind.Reserve, id, now, reason);
        Record(effect, answer, false);
        return;
      }
      answer := Channel(id, Applied, now, Some(config.digest("reserve_channel", h)), Some(c.attemptId),
                        Some(c.channelId),
                        Some(c.provider), Some(DerivedToken("session", h)), []);
      Record(effect, answer, true);
      state.channelReservations := state.channelReservations[c.channelId := c.attemptId];
      state.attemptChannels := state.attemptChannels[c.attemptId := c.channelId];
    }

    method Send(effect: Effect, now: string) returns (answer: Observation)
      requires effect.command.SendTaskPacket? && ValidPort(config)
      modifies state
      ensures (state.View(), answer) == Step(old(state.View()), ChannelCall(config, effect, now))
    {
      var existing := Existing(effect, now);
      if existing.Some? {
        return existing.value;
      }
      var c, h := effect.command, effect.commandHash;
      var id := c.operationId;
      var reserved := c.channelId in state.channelReservations && state.channelReservations[c.channelId] == c.attemptId;
      var oversized := c.packetBytes > config.maxPacketBytes;
      var collision := c.turnId in state.turnOperations || c.messageId in state.messageOperations;
      if id in config.unknownIds || !reserved || oversized || collision {
        var reason := "channel_not_reserved:" + c.channelId;
        if id in config.unknownIds {
          reason := "scripted_unknown:" + id;
        } else if collision {
          reason := if c.turnId in state.turnOperations then "turn_id_collision:" + c.turnId
            else "message_id_collision:" + c.messageId;
        } else if oversized {
          reason := "task_packet_exceeds_capability";
        }
        answer := UnknownAnswer(Kind.Send, id, now, reason);
        Record(effect, answer, false);
        return;
      }
      var result := if config.sendState.Done? then Some(config.digest("turn_result", h)) else None;
      answer := Turn(id, Applied, now, config.sendState, Some(config.digest("send_task_packet", h)), Some(c.attemptId),
                     Some(c.channelId), Some(c.messageId), Some(c.turnId), result, []);
      Record(effect, answer, true);
      state.turnOperations := state.turnOperations[c.turnId := id];
      state.messageOperations := state.messageOperations[c.messageId := id];
    }

    method Cancel(effect: Effect, now: string) returns (answer: Observation)
      requires effect.command.CancelTurn? && ValidPort(config)
      modifies state
      ensures (state.View(), answer) == Step(old(state.View()), ChannelCall(config, effect, now))
    {
      var existing := Existing(effect, now);
      if existing.Some? {
        return existing.value;
      }
      var c, h := effect.command, effect.commandHash;
      var id := c.operationId;
      var source: Option<Observation> := None;
      if c.turnId in state.turnOperations && state.turnOperations[c.turnId] in state.channelRecords {
        source := Some(state.channelRecords[state.turnOperations[c.turnId]].response);
      }
      var matches := source.Some? && source.value.Turn? && source.value.attemptId == Some(c.attemptId)
                     && source.value.channelId == Some(c.channelId) && c.turnId !in state.turnCancellations;
      if id in config.unknownIds || !matches {
        var reason := if id in config.unknownIds then "scripted_unknown:" + id else "turn_not_found:" + c.turnId;
        answer := UnknownAnswer(Kind.Cancel, id, now, reason);
        Record(effect, answer, false);
        return;
      }
      var turnState := if source.value.state.Terminal() then source.value.state else Cancelled;
      answer := Turn(id, Applied, now, turnState, Some(config.digest("cancel_turn", h)), Some(c.attemptId),
                     Some(c.channelId), source.value.messageId, Some(c.turnId), source.value.resultDigest, []);
      Record(effect, answer, true);
      state.turnCancellations := state.turnCancellations[c.turnId := id];
    }
  }
}
