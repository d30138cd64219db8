/** The read-only inspections of the two fake ports, against the history of mutating calls. */
module Inspections {
  import opened Options
  import opened ExternalState
  import opened EffectHistory
  import opened FakePorts

  function AbsentAnswer(k: Kind, id: Id, now: string): Observation {
    match k
    case Prepare => Attempt(id, Absent, now, NoAttempt, None, None, None, None, None, None, [])
    case Check => Checked(id, Absent, now, None, None, None, None, None, [])
    case Finish => Finished(id, Absent, now, None, None, None, None, None, [])
    case Reserve => Channel(id, Absent, now, None, None, None, None, None, [])
    case Send => Turn(id, Absent, now, NoTurn, None, None, None, None, None, None, [])
    case Cancel => Turn(id, Absent, now, NoTurn, None, None, None, None, None, None, [])
  }

  /** `inspect_attempt`, `inspect_check` and `inspect_finish`, told apart by the kind. */
  method InspectLifecycle(state: FakeExternalState, k: Kind, id: Id, expected: Option<string>, now: string)
    returns (answer: Observation)
    requires IsLifecycle(k)
    ensures answer == LifecycleInspection(state.View(), k, id, expected, now)
  {
    if id in state.lifecycleConflicts {
      return Collision(k, id, now);
    }
    if id in state.lifecycleRecords {
      var record := state.lifecycleRecords[id];
      if record.kind != k {
        return UnknownAnswer(k, id, now, "operation_kind_mismatch:" + id);
      }
      if expected.Some? && record.commandHash != expected.value {
        return UnknownAnswer(k, id, now, "request_hash_mismatch:" + id);
      }
      return if k.Prepare? then record.inspection else record.response;
    }
    return AbsentAnswer(k, id, now);
  }

  function LifecycleInspection(w: World, k: Kind, id: Id, expected: Option<string>, now: string): Observation {
    if id in w.lifecycleConflicts then Collision(k, id, now)
    else if id !in w.lifecycleRecords then AbsentAnswer(k, id, now)
    else
      var r := w.lifecycleRecords[id];
      if r.kind != k then UnknownAnswer(k, id, now, "operation_kind_mismatch:" + id)
      else if expected.Some? && r.commandHash != expected.value
        then UnknownAnswer(k, id, now, "request_hash_mismatch:" + id)
      else if k.Prepare? then r.inspection else r.response
  }

  /** `inspect_reservation` and `inspect_turn`; a turn inspection accepts sends and cancellations. */
  method InspectChannel(state: FakeExternalState, k: Kind, id: Id, now: string) returns (answer: Observation)
    requires k.Reserve? || k.Send?
    ensures answer == ChannelInspection(state.View(), k, id, now)
  {
    if id in state.channelConflicts {
      return Collision(k, id, now);
    }
    if id in state.channelRecords {
      var record := state.channelRecords[id];
      if AnswersKind(record.response, k) {
        return record.response;
      }
      return UnknownAnswer(k, id, now, (if k.Reserve? then "operation_is_not_a_reservation:"
                                        else "operation_is_not_a_turn:") + id);
    }
    return AbsentAnswer(k, id, now);
  }

  function ChannelInspection(w: World, k: Kind, id: Id, now: string): Observation
    requires k.Reserve? || k.Send?
  {
    if id in w.channelConflicts then Collision(k, id, now)
    else if id !in w.channelRecords then AbsentAnswer(k, id, now)
    else if AnswersKind(w.channelRecords[id].response, k) then w.channelRecords[id].response
    else UnknownAnswer(k, id, now, (if k.Reserve? then "operation_is_not_a_reservation:"
                                    else "operation_is_not_a_turn:") + id)
  }

  // ---- Inspections and histories ----

  /** A record of a prepared attempt inspects as it was answered. */
  ghost predicate PreparesInspectAsAnswered(w: World) {
    forall id :: id in w.lifecycleRecords && w.lifecycleRecords[id].kind == Prepare ==>
      w.lifecycleRecords[id].inspection == w.lifecycleRecords[id].response
  }

  lemma DecidedInspectsAsAnswered(w: World, p: LifecyclePort, e: Effect, now: string, later: string)
    requires IsLifecycle(KindOf(e.command))
    ensures var r := DecideLifecycle(w, p, e, now, later); r.kind == Prepare ==> r.inspection == r.response
  {
  }

  lemma StepInspectsAsAnswered(w: World, c: Call)
    requires WellTyped(c) && PreparesInspectAsAnswered(w)
    ensures PreparesInspectAsAnswered(Step(w, c).0)
  {
    if LookupOf(w, c).Seen? {
      var lifecycle, channel := LookupMarks(w, c);
    } else {
      match c {
        case LifecycleCall(p, e, now, later) =>
          DecidedInspectsAsAnswered(w, p, e, now, later);
          LifecycleFrame(w, e, DecideLifecycle(w, p, e, now, later));
        case ChannelCall(p, e, now) =>
          ChannelFrame(w, e, DecideChannel(w, p, e, now));
      }
    }
  }

  lemma {:induction false} RunInspectsAsAnswered(calls: seq<Call>)
    requires Typed(calls)
    ensures PreparesInspectAsAnswered(WorldAfter(calls))
    decreases |calls|
  {
    if calls != [] {
      RunInspectsAsAnswered(calls[..|calls| - 1]);
      StepInspectsAsAnswered(WorldAfter(calls[..|calls| - 1]), calls[|calls| - 1]);
    }
  }

  /** An answer that reports nothing: ABSENT, or UNKNOWN with a reason. */
  predicate ReportsNothing(o: Observation, k: Kind, id: Id, now: string, reason: Option<string>) {
    var status := if reason.None? then Absent else Unknown;
    var evidence := if reason.None? then [] else [reason.value];
    match k
    case Prepare =>
      o == Attempt(id, status, now, if reason.None? then NoAttempt else UnknownAttempt, None, None, None, None, None,
                   None, evidence)
    case Check => o == Checked(id, status, now, None, None, None, None, None, evidence)
    case Finish => o == Finished(id, status, now, None, None, None, None, None, evidence)
    case Reserve => o == Channel(id, status, now, None, None, None, None, None, evidence)
    case _ =>
      o == Turn(id, status, now, if reason.None? then NoTurn else UnknownTurn, None, None, None, None, None, None,
                evidence)
  }

  /** What a lifecycle inspection must say of an id, given its first use and whether its uses clash.  An id whose first
      use went to this port inspects as that use was answered, if all uses agree and the inspection asks for the same
      command; otherwise the answer is UNKNOWN.  An id that was never used is ABSENT, and an id first used on the other
      port is never reported as applied. */
  ghost predicate LifecycleAnswerFits(entry: Option<Entry>, clash: bool, k: Kind, id: Id, expected: Option<string>,
                                      now: string, answer: Observation) {
    match entry
    case None => ReportsNothing(answer, k, id, now, None)
    case Some(first) =>
      if !first.lifecycle then
        ReportsNothing(answer, k, id, now, None)
        || (clash && ReportsNothing(answer, k, id, now, Some("operation_id_collision:" + id)))
      else if clash then ReportsNothing(answer, k, id, now, Some("operation_id_collision:" + id))
      else if first.use.0 != k then ReportsNothing(answer, k, id, now, Some("operation_kind_mismatch:" + id))
      else if expected.Some? && expected.value != first.use.1
        then ReportsNothing(answer, k, id, now, Some("request_hash_mismatch:" + id))
      else answer == first.answer
  }

  lemma LifecycleInspectionFits(w: World, clash: bool, k: Kind, id: Id, expected: Option<string>, now: string)
    requires IsLifecycle(k) && PreparesInspectAsAnswered(w) && !(id in w.lifecycleRecords && id in w.channelRecords)
    requires (clash <==> MarkedByOwner(w, id)) && (EntryOf(w, id).None? ==> !clash)
    requires id in w.lifecycleConflicts || id in w.channelConflicts ==> clash
    ensures LifecycleAnswerFits(EntryOf(w, id), clash, k, id, expected, now,
                                LifecycleInspection(w, k, id, expected, now))
  {
  }

  /** What a lifecycle inspection says after any run. */
  lemma LifecycleInspectionFollowsHistory(calls: seq<Call>, k: Kind, id: Id, expected: Option<string>, now: string)
    requires Typed(calls) && IsLifecycle(k)
    ensures LifecycleAnswerFits(FirstEntry(calls, id), Clash(calls, id), k, id, expected, now,
                                LifecycleInspection(WorldAfter(calls), k, id, expected, now))
  {
    RunAgrees(calls, id);
    RunInspectsAsAnswered(calls);
    if FirstEntry(calls, id).None? {
      NoUseNoClash(calls, id);
    }
    LifecycleInspectionFits(WorldAfter(calls), Clash(calls, id), k, id, expected, now);
  }

  lemma NoUseNoClash(calls: seq<Call>, id: Id)
    requires Typed(calls) && FirstEntry(calls, id).None?
    ensures !Clash(calls, id)
  {
    if Clash(calls, id) {
      var j :| 0 <= j < |calls| && IdOf(calls[j]) == id;
      UsedHasEntry(calls, id, j);
    }
  }

  /** What a channel inspection must say of an id, given its first use and whether its uses clash. */
  ghost predicate ChannelAnswerFits(entry: Option<Entry>, clash: bool, k: Kind, id: Id, now: string,
                                    answer: Observation) {
    match entry
    case None => ReportsNothing(answer, k, id, now, None)
    case Some(first) =>
      if first.lifecycle then
        ReportsNothing(answer, k, id, now, None)
        || (clash && ReportsNothing(answer, k, id, now, Some("operation_id_collision:" + id)))
      else if clash then ReportsNothing(answer, k, id, now, Some("operation_id_collision:" + id))
      else if first.use.0 == k || (k.Send? && first.use.0.Cancel?) then answer == first.answer
      else ReportsNothing(answer, k, id, now, Some((if k.Reserve? then "operation_is_not_a_reservation:"
                                                    else "operation_is_not_a_turn:") + id))
  }

  lemma ChannelInspectionFits(w: World, clash: bool, k: Kind, id: Id, now: string)
    requires (k.Reserve? || k.Send?) && !(id in w.lifecycleRecords && id in w.channelRecords)
    requires id in w.channelRecords ==>
               var r := w.channelRecords[id]; AnswersKind(r.response, r.kind) && !IsLifecycle(r.kind)
    requires (clash <==> MarkedByOwner(w, id)) && (EntryOf(w, id).None? ==> !clash)
    requires id in w.lifecycleConflicts || id in w.channelConflicts ==> clash
    ensures ChannelAnswerFits(EntryOf(w, id), clash, k, id, now, ChannelInspection(w, k, id, now))
  {
  }

  /** The same for the channel port. */
  lemma ChannelInspectionFollowsHistory(calls: seq<Call>, k: Kind, id: Id, now: string)
    requires Typed(calls) && (k.Reserve? || k.Send?)
    ensures ChannelAnswerFits(FirstEntry(calls, id), Clash(calls, id), k, id, now,
                              ChannelInspection(WorldAfter(calls), k, id, now))
  {
    RunAgrees(calls, id);
    if FirstEntry(calls, id).None? {
      NoUseNoClash(calls, id);
    }
    ChannelInspectionFits(WorldAfter(calls), Clash(calls, id), k, id, now);
  }
}
