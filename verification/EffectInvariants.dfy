/** What every run keeps true of the shared state's tables. */
module EffectInvariants {
  import opened Options
  import opened ExternalState
  import opened EffectHistory

  // ---- Records ----

  ghost predicate LifecycleRecordFits(op: Id, r: LifecycleRecord) {
    IsLifecycle(r.kind) && AnswersKind(r.response, r.kind) && r.response.operationId == op
    && (r.applied <==> r.response.status == Applied)
  }

  ghost predicate ChannelRecordFits(op: Id, r: ChannelRecord) {
    !IsLifecycle(r.kind) && AnswersKind(r.response, r.kind) && r.response.operationId == op
    && (r.applied <==> r.response.status == Applied)
  }

  ghost predicate RecordsFit(lifecycle: map<Id, LifecycleRecord>, channel: map<Id, ChannelRecord>) {
    && (forall op :: op in lifecycle ==> LifecycleRecordFits(op, lifecycle[op]))
    && (forall op :: op in channel ==> ChannelRecordFits(op, channel[op]))
    && (forall op :: op in lifecycle ==> op !in channel)
  }

  ghost predicate AppliedLifecycle(records: map<Id, LifecycleRecord>, op: Id, k: Kind) {
    op in records && records[op].applied && records[op].kind == k
  }

  ghost predicate AppliedChannel(records: map<Id, ChannelRecord>, op: Id, k: Kind) {
    op in records && records[op].applied && records[op].kind == k
  }

  // ---- The lifecycle tables ----

  ghost predicate CheckOf(records: map<Id, LifecycleRecord>, op: Id, attempt: Id) {
    AppliedLifecycle(records, op, Check) && records[op].response.Checked?
    && records[op].response.attemptId == Some(attempt)
  }

  ghost predicate FinishOf(records: map<Id, LifecycleRecord>, op: Id, attempt: Id) {
    AppliedLifecycle(records, op, Finish) && records[op].response.Finished?
    && records[op].response.attemptId == Some(attempt)
  }

  /** Prepared attempts are the applied prepares. */
  ghost predicate PrepareTable(records: map<Id, LifecycleRecord>, prepared: map<Id, Observation>) {
    && (forall a :: a in prepared ==> AppliedLifecycle(records, a, Prepare) && prepared[a] == records[a].response)
    && (forall op :: AppliedLifecycle(records, op, Prepare) ==> op in prepared)
  }

  /** An attempt is checked exactly when some applied check names it, and checks name prepared attempts. */
  ghost predicate CheckTable(records: map<Id, LifecycleRecord>, prepared: map<Id, Observation>, checked: set<Id>) {
    && (forall a :: a in checked ==> a in prepared && exists op :: CheckOf(records, op, a))
    && (forall op :: AppliedLifecycle(records, op, Check) ==> exists a :: a in checked && CheckOf(records, op, a))
  }

  /** Finishes name checked attempts. */
  ghost predicate FinishTable(records: map<Id, LifecycleRecord>, checked: set<Id>) {
    forall op :: AppliedLifecycle(records, op, Finish) ==> exists a :: a in checked && FinishOf(records, op, a)
  }

  ghost predicate LifecycleTables(records: map<Id, LifecycleRecord>, prepared: map<Id, Observation>, checked: set<Id>) {
    PrepareTable(records, prepared) && CheckTable(records, prepared, checked) && FinishTable(records, checked)
  }

  // ---- The channel tables ----

  /** The two reservation tables are inverse to each other. */
  ghost predicate Inverse(reservations: map<Id, Id>, attempts: map<Id, Id>) {
    && (forall c :: c in reservations ==> reservations[c] in attempts && attempts[reservations[c]] == c)
    && (forall a :: a in attempts ==> attempts[a] in reservations && reservations[attempts[a]] == a)
  }

  ghost predicate IsSend(records: map<Id, ChannelRecord>, op: Id, attempt: Id, channel: Id, message: Id, turn: Id) {
    && AppliedChannel(records, op, Send)
    && var o := records[op].response;
       o.Turn? && o.attemptId == Some(attempt) && o.channelId == Some(channel) && o.messageId == Some(message)
       && o.turnId == Some(turn)
  }

  ghost predicate At(table: map<Id, Id>, key: Id, value: Id) {
    key in table && table[key] == value
  }

  /** An applied send carries ids under which it is registered, on the channel reserved for its attempt. */
  ghost predicate SendRegistered(records: map<Id, ChannelRecord>, reservations: map<Id, Id>, turns: map<Id, Id>,
                                 messages: map<Id, Id>, op: Id) {
    exists attempt, channel, message, turn ::
      IsSend(records, op, attempt, channel, message, turn)
      && At(turns, turn, op) && At(messages, message, op) && At(reservations, channel, attempt)
  }

  ghost predicate SentTurn(records: map<Id, ChannelRecord>, op: Id, turn: Id) {
    AppliedChannel(records, op, Send) && records[op].response.Turn? && records[op].response.turnId == Some(turn)
  }

  ghost predicate SentMessage(records: map<Id, ChannelRecord>, op: Id, message: Id) {
    AppliedChannel(records, op, Send) && records[op].response.Turn? && records[op].response.messageId == Some(message)
  }

  /** Turn and message ids correspond one to one to the applied sends. */
  ghost predicate SendTables(records: map<Id, ChannelRecord>, reservations: map<Id, Id>, turns: map<Id, Id>,
                             messages: map<Id, Id>) {
    && (forall op :: AppliedChannel(records, op, Send) ==> SendRegistered(records, reservations, turns, messages, op))
    && (forall t :: t in turns ==> SentTurn(records, turns[t], t))
    && (forall m :: m in messages ==> SentMessage(records, messages[m], m))
  }

  /** A cancellation of a sent turn repeats its identities and result, and replaces only an open state. */
  ghost predicate CancelsTurn(sent: Observation, cancelled: Observation, t: Id) {
    && sent.Turn? && cancelled.Turn?
    && cancelled.turnId == Some(t) == sent.turnId
    && cancelled.attemptId == sent.attemptId && cancelled.channelId == sent.channelId
    && cancelled.messageId == sent.messageId && cancelled.resultDigest == sent.resultDigest
    && cancelled.state == (if sent.state.Terminal() then sent.state else Cancelled)
  }

  ghost predicate CancelledTurn(records: map<Id, ChannelRecord>, turns: map<Id, Id>, op: Id, t: Id) {
    && AppliedChannel(records, op, Cancel) && t in turns && AppliedChannel(records, turns[t], Send)
    && CancelsTurn(records[turns[t]].response, records[op].response, t)
  }

  /** Each turn has at most one applied cancellation, recorded under the turn. */
  ghost predicate CancelTables(records: map<Id, ChannelRecord>, turns: map<Id, Id>, cancellations: map<Id, Id>) {
    && (forall op :: AppliedChannel(records, op, Cancel) ==> exists t :: At(cancellations, t, op))
    && (forall t :: t in cancellations ==> CancelledTurn(records, turns, cancellations[t], t))
  }

  ghost predicate ChannelTables(w: World) {
    && Inverse(w.channelReservations, w.attemptChannels)
    && SendTables(w.channelRecords, w.channelReservations, w.turnOperations, w.messageOperations)
    && CancelTables(w.channelRecords, w.turnOperations, w.turnCancellations)
  }

  ghost predicate Inv(w: World) {
    && RecordsFit(w.lifecycleRecords, w.channelRecords)
    && LifecycleTables(w.lifecycleRecords, w.preparedAttempts, w.checkedAttempts)
    && ChannelTables(w)
  }

  // ---- Adding a lifecycle record ----

  lemma AddToPrepared(records: map<Id, LifecycleRecord>, prepared: map<Id, Observation>, id: Id, r: LifecycleRecord)
    requires PrepareTable(records, prepared) && id !in records
    ensures PrepareTable(records[id := r],
                         if r.applied && r.kind == Prepare then prepared[id := r.response] else prepared)
  {
    var records' := records[id := r];
    forall a | a in prepared
      ensures a != id && AppliedLifecycle(records', a, Prepare)
    {
      assert AppliedLifecycle(records, a, Prepare);
    }
    forall op | op != id && AppliedLifecycle(records', op, Prepare)
      ensures op in prepared
    {
      assert AppliedLifecycle(records, op, Prepare);
    }
  }

  lemma AddToChecked(records: map<Id, LifecycleRecord>, prepared: map<Id, Observation>, checked: set<Id>,
                     id: Id, r: LifecycleRecord, prepared': map<Id, Observation>, checked': set<Id>)
    requires CheckTable(records, prepared, checked) && id !in records && prepared.Keys <= prepared'.Keys
    requires if r.applied && r.kind == Check
             then exists a :: CheckOf(records[id := r], id, a) && a in prepared && checked' == checked + {a}
             else checked' == checked
    ensures CheckTable(records[id := r], prepared', checked')
  {
    var records' := records[id := r];
    forall op | AppliedLifecycle(records', op, Check)
      ensures exists a :: a in checked' && CheckOf(records', op, a)
    {
      if op != id {
        assert AppliedLifecycle(records, op, Check);
        var a :| a in checked && CheckOf(records, op, a);
        assert CheckOf(records', op, a);
      }
    }
    forall a | a in checked'
      ensures a in prepared' && exists op :: CheckOf(records', op, a)
    {
      if a in checked {
        var op :| CheckOf(records, op, a);
        assert CheckOf(records', op, a);
      }
    }
  }

  lemma AddToFinished(records: map<Id, LifecycleRecord>, checked: set<Id>, id: Id, r: LifecycleRecord,
                      checked': set<Id>)
    requires FinishTable(records, checked) && id !in records && checked <= checked'
    requires r.applied && r.kind == Finish ==> exists a :: FinishOf(records[id := r], id, a) && a in checked
    ensures FinishTable(records[id := r], checked')
  {
    var records' := records[id := r];
    forall op | AppliedLifecycle(records', op, Finish)
      ensures exists a :: a in checked' && FinishOf(records', op, a)
    {
      if op != id {
        assert AppliedLifecycle(records, op, Finish);
        var a :| a in checked && FinishOf(records, op, a);
        assert FinishOf(records', op, a);
      }
    }
  }

  /** A new record fits the tables when an applied one brings its own table entry. */
  lemma AddLifecycleRecord(records: map<Id, LifecycleRecord>, prepared: map<Id, Observation>, checked: set<Id>,
                           id: Id, r: LifecycleRecord, prepared': map<Id, Observation>, checked': set<Id>)
    requires LifecycleTables(records, prepared, checked) && id !in records
    requires prepared' == if r.applied && r.kind == Prepare then prepared[id := r.response] else prepared
    requires if r.applied && r.kind == Check
             then exists a :: CheckOf(records[id := r], id, a) && a in prepared && checked' == checked + {a}
             else checked' == checked
    requires r.applied && r.kind == Finish ==> exists a :: FinishOf(records[id := r], id, a) && a in checked
    ensures LifecycleTables(records[id := r], prepared', checked')
  {
    AddToPrepared(records, prepared, id, r);
    AddToChecked(records, prepared, checked, id, r, prepared', checked');
    AddToFinished(records, checked, id, r, checked');
  }

  lemma LifecycleKeepsTables(w: World, p: LifecyclePort, e: Effect, now: string, later: string)
    requires LifecycleTables(w.lifecycleRecords, w.preparedAttempts, w.checkedAttempts)
    requires IsLifecycle(KindOf(e.command)) && e.command.operationId !in w.lifecycleRecords
    ensures var w' := ApplyLifecycle(w, e, DecideLifecycle(w, p, e, now, later));
      LifecycleTables(w'.lifecycleRecords, w'.preparedAttempts, w'.checkedAttempts)
  {
    var r := DecideLifecycle(w, p, e, now, later);
    var id, w' := e.command.operationId, ApplyLifecycle(w, e, r);
    LifecycleFrame(w, e, r);
    if r.applied && r.kind == Check {
      assert CheckOf(w.lifecycleRecords[id := r], id, e.command.attemptId);
    }
    if r.applied && r.kind == Finish {
      assert FinishOf(w.lifecycleRecords[id := r], id, e.command.attemptId);
    }
    AddLifecycleRecord(w.lifecycleRecords, w.preparedAttempts, w.checkedAttempts, id, r, w'.preparedAttempts,
                       w'.checkedAttempts);
  }

  // ---- Adding a channel record ----

  lemma SendStaysRegistered(records: map<Id, ChannelRecord>, reservations: map<Id, Id>, turns: map<Id, Id>,
                            messages: map<Id, Id>, id: Id, r: ChannelRecord, reservations': map<Id, Id>,
                            turns': map<Id, Id>, messages': map<Id, Id>, op: Id)
    requires id !in records && op != id
    requires SendRegistered(records, reservations, turns, messages, op)
    requires forall k, v :: At(reservations, k, v) ==> At(reservations', k, v)
    requires forall k, v :: At(turns, k, v) ==> At(turns', k, v)
    requires forall k, v :: At(messages, k, v) ==> At(messages', k, v)
    ensures SendRegistered(records[id := r], reservations', turns', messages', op)
  {
    var attempt, channel, message, turn :|
      IsSend(records, op, attempt, channel, message, turn)
      && At(turns, turn, op) && At(messages, message, op) && At(reservations, channel, attempt);
    assert IsSend(records[id := r], op, attempt, channel, message, turn);
  }

  /** A record that is not an applied send leaves the send tables in order, whatever is newly reserved. */
  lemma AddOtherRecord(records: map<Id, ChannelRecord>, reservations: map<Id, Id>, turns: map<Id, Id>,
                       messages: map<Id, Id>, id: Id, r: ChannelRecord, reservations': map<Id, Id>)
    requires SendTables(records, reservations, turns, messages) && id !in records && !(r.applied && r.kind == Send)
    requires forall k, v :: At(reservations, k, v) ==> At(reservations', k, v)
    ensures SendTables(records[id := r], reservations', turns, messages)
  {
    var records' := records[id := r];
    forall op | AppliedChannel(records', op, Send)
      ensures SendRegistered(records', reservations', turns, messages, op)
    {
      assert AppliedChannel(records, op, Send);
      SendStaysRegistered(records, reservations, turns, messages, id, r, reservations', turns, messages, op);
    }
    forall t | t in turns
      ensures SentTurn(records[id := r], turns[t], t)
    {
      assert SentTurn(records, turns[t], t);
    }
    forall m | m in messages
      ensures SentMessage(records[id := r], messages[m], m)
    {
      assert SentMessage(records, messages[m], m);
    }
  }

  lemma AddSend(records: map<Id, ChannelRecord>, reservations: map<Id, Id>, turns: map<Id, Id>, messages: map<Id, Id>,
                id: Id, r: ChannelRecord, attempt: Id, channel: Id, message: Id, turn: Id)
    requires SendTables(records, reservations, turns, messages) && id !in records
    requires IsSend(records[id := r], id, attempt, channel, message, turn)
    requires turn !in turns && message !in messages && At(reservations, channel, attempt)
    ensures SendTables(records[id := r], reservations, turns[turn := id], messages[message := id])
  {
    var records', turns', messages' := records[id := r], turns[turn := id], messages[message := id];
    forall op | AppliedChannel(records', op, Send)
      ensures SendRegistered(records', reservations, turns', messages', op)
    {
      if op == id {
        assert At(turns', turn, id) && At(messages', message, id);
      } else {
        assert AppliedChannel(records, op, Send);
        SendStaysRegistered(records, reservations, turns, messages, id, r, reservations, turns', messages', op);
      }
    }
    forall t | t in turns'
      ensures SentTurn(records', turns'[t], t)
    {
      if t != turn {
        assert SentTurn(records, turns[t], t);
      }
    }
    forall m | m in messages'
      ensures SentMessage(records', messages'[m], m)
    {
      if m != message {
        assert SentMessage(records, messages[m], m);
      }
    }
  }

  lemma AddBesideCancellations(records: map<Id, ChannelRecord>, turns: map<Id, Id>, cancellations: map<Id, Id>,
                               id: Id, r: ChannelRecord, turns': map<Id, Id>)
    requires CancelTables(records, turns, cancellations) && id !in records && !(r.applied && r.kind == Cancel)
    requires forall k, v :: At(turns, k, v) ==> At(turns', k, v)
    ensures CancelTables(records[id := r], turns', cancellations)
  {
    var records' := records[id := r];
    forall op | AppliedChannel(records', op, Cancel)
      ensures exists t :: At(cancellations, t, op)
    {
      assert AppliedChannel(records, op, Cancel);
    }
    forall t | t in cancellations
      ensures CancelledTurn(records[id := r], turns', cancellations[t], t)
    {
      assert CancelledTurn(records, turns, cancellations[t], t);
      assert At(turns, t, turns[t]);
    }
  }

  lemma AddCancellation(records: map<Id, ChannelRecord>, turns: map<Id, Id>, cancellations: map<Id, Id>,
                        id: Id, r: ChannelRecord, turn: Id)
    requires CancelTables(records, turns, cancellations) && id !in records && turn !in cancellations
    requires CancelledTurn(records[id := r], turns, id, turn)
    ensures CancelTables(records[id := r], turns, cancellations[turn := id])
  {
    var records', cancellations' := records[id := r], cancellations[turn := id];
    forall op | AppliedChannel(records', op, Cancel)
      ensures exists t :: At(cancellations', t, op)
    {
      if op == id {
        assert At(cancellations', turn, id);
      } else {
        assert AppliedChannel(records, op, Cancel);
        var t :| At(cancellations, t, op);
        assert At(cancellations', t, op);
      }
    }
    forall t | t in cancellations'
      ensures CancelledTurn(records', turns, cancellations'[t], t)
    {
      if t != turn {
        assert CancelledTurn(records, turns, cancellations[t], t);
      }
    }
  }

  /** A record without an effect. */
  lemma RefusalKeepsTables(w: World, e: Effect, r: ChannelRecord)
    requires ChannelTables(w) && e.command.operationId !in w.channelRecords && !r.applied
    ensures ChannelTables(ApplyChannel(w, e, r))
  {
    var id := e.command.operationId;
    ChannelFrame(w, e, r);
    AddOtherRecord(w.channelRecords, w.channelReservations, w.turnOperations, w.messageOperations, id, r,
                   w.channelReservations);
    AddBesideCancellations(w.channelRecords, w.turnOperations, w.turnCancellations, id, r, w.turnOperations);
  }

  lemma ReserveKeepsTables(w: World, p: ChannelPort, e: Effect, now: string)
    requires ChannelTables(w) && e.command.operationId !in w.channelRecords
    requires e.command.ReserveChannel? && DecideChannel(w, p, e, now).applied
    ensures ChannelTables(ApplyChannel(w, e, DecideChannel(w, p, e, now)))
  {
    var id, r := e.command.operationId, DecideChannel(w, p, e, now);
    var channel, attempt := e.command.channelId, e.command.attemptId;
    ChannelFrame(w, e, r);
    AddOtherRecord(w.channelRecords, w.channelReservations, w.turnOperations, w.messageOperations, id, r,
                   w.channelReservations[channel := attempt]);
    AddBesideCancellations(w.channelRecords, w.turnOperations, w.turnCancellations, id, r, w.turnOperations);
  }

  lemma SendKeepsTables(w: World, p: ChannelPort, e: Effect, now: string)
    requires ChannelTables(w) && e.command.operationId !in w.channelRecords
    requires e.command.SendTaskPacket? && DecideChannel(w, p, e, now).applied
    ensures ChannelTables(ApplyChannel(w, e, DecideChannel(w, p, e, now)))
  {
    var c, id, r := e.command, e.command.operationId, DecideChannel(w, p, e, now);
    ChannelFrame(w, e, r);
    AddSend(w.channelRecords, w.channelReservations, w.turnOperations, w.messageOperations, id, r,
            c.attemptId, c.channelId, c.messageId, c.turnId);
    AddBesideCancellations(w.channelRecords, w.turnOperations, w.turnCancellations, id, r,
                           w.turnOperations[c.turnId := id]);
  }

  lemma CancelKeepsTables(w: World, p: ChannelPort, e: Effect, now: string)
    requires ChannelTables(w) && e.command.operationId !in w.channelRecords
    requires e.command.CancelTurn? && DecideChannel(w, p, e, now).applied
    ensures ChannelTables(ApplyChannel(w, e, DecideChannel(w, p, e, now)))
  {
    var c, id, r := e.command, e.command.operationId, DecideChannel(w, p, e, now);
    ChannelFrame(w, e, r);
    assert SentTurn(w.channelRecords, w.turnOperations[c.turnId], c.turnId);
    AddOtherRecord(w.channelRecords, w.channelReservations, w.turnOperations, w.messageOperations, id, r,
                   w.channelReservations);
    AddCancellation(w.channelRecords, w.turnOperations, w.turnCancellations, id, r, c.turnId);
  }

  // ---- Every step ----

  lemma ChannelStepKeepsTables(w: World, p: ChannelPort, e: Effect, now: string)
    requires ChannelTables(w) && !IsLifecycle(KindOf(e.command)) && e.command.operationId !in w.channelRecords
    ensures ChannelTables(ApplyChannel(w, e, DecideChannel(w, p, e, now)))
  {
    var r := DecideChannel(w, p, e, now);
    if !r.applied {
      RefusalKeepsTables(w, e, r);
    } else {
      match e.command {
        case ReserveChannel(_, _, _, _, _, _, _) => ReserveKeepsTables(w, p, e, now);
        case SendTaskPacket(_, _, _, _, _, _) => SendKeepsTables(w, p, e, now);
        case CancelTurn(_, _, _, _) => CancelKeepsTables(w, p, e, now);
      }
    }
  }

  lemma LookupKeepsTables(w: World, c: Call)
    requires LookupOf(w, c).Seen?
    ensures Tables(LookupOf(w, c).world) == Tables(w)
  {
    var lifecycle, channel := LookupMarks(w, c);
  }

  lemma OnlyTablesMatter(w: World, w': World)
    requires Inv(w) && Tables(w') == Tables(w)
    ensures Inv(w')
  {
  }

  /** What a lifecycle effect leaves alone. */
  lemma LifecycleLeavesChannels(w: World, e: Effect, r: LifecycleRecord)
    requires ChannelTables(w)
    ensures ChannelTables(ApplyLifecycle(w, e, r))
  {
  }

  lemma ChannelLeavesLifecycle(w: World, e: Effect, r: ChannelRecord)
    ensures var w' := ApplyChannel(w, e, r);
      w'.lifecycleRecords == w.lifecycleRecords && w'.preparedAttempts == w.preparedAttempts
      && w'.checkedAttempts == w.checkedAttempts
  {
  }

  lemma FirstLifecycleKeepsInv(w: World, p: LifecyclePort, e: Effect, now: string, later: string)
    requires Inv(w) && IsLifecycle(KindOf(e.command))
    requires e.command.operationId !in w.lifecycleRecords && e.command.operationId !in w.channelRecords
    ensures Inv(ApplyLifecycle(w, e, DecideLifecycle(w, p, e, now, later)))
  {
    var r := DecideLifecycle(w, p, e, now, later);
    LifecycleFrame(w, e, r);
    LifecycleKeepsTables(w, p, e, now, later);
    LifecycleLeavesChannels(w, e, r);
  }

  lemma FirstChannelKeepsInv(w: World, p: ChannelPort, e: Effect, now: string)
    requires Inv(w) && !IsLifecycle(KindOf(e.command))
    requires e.command.operationId !in w.lifecycleRecords && e.command.operationId !in w.channelRecords
    ensures Inv(ApplyChannel(w, e, DecideChannel(w, p, e, now)))
  {
    var r := DecideChannel(w, p, e, now);
    ChannelFrame(w, e, r);
    ChannelStepKeepsTables(w, p, e, now);
    ChannelLeavesLifecycle(w, e, r);
  }

  lemma NotSeenIsFresh(w: World, c: Call)
    requires LookupOf(w, c).NotSeen?
    ensures IdOf(c) !in w.lifecycleRecords && IdOf(c) !in w.channelRecords
  {
  }

  lemma StepKeepsInv(w: World, c: Call)
    requires Inv(w) && WellTyped(c)
    ensures Inv(Step(w, c).0)
  {
    if LookupOf(w, c).Seen? {
      LookupKeepsTables(w, c);
      OnlyTablesMatter(w, Step(w, c).0);
    } else {
      NotSeenIsFresh(w, c);
      match c {
        case LifecycleCall(p, e, now, later) => FirstLifecycleKeepsInv(w, p, e, now, later);
        case ChannelCall(p, e, now) => FirstChannelKeepsInv(w, p, e, now);
      }
    }
  }

  lemma {:induction false} RunKeepsInv(calls: seq<Call>)
    requires Typed(calls)
    ensures Inv(WorldAfter(calls))
    decreases |calls|
  {
    if calls != [] {
      RunKeepsInv(calls[..|calls| - 1]);
      StepKeepsInv(WorldAfter(calls[..|calls| - 1]), calls[|calls| - 1]);
    }
  }

  // ---- What that means ----

  /** Each applied finish follows an applied check of the same attempt, which is an applied prepare. */
  lemma FinishesWereChecked(calls: seq<Call>, op: Id) returns (attempt: Id, check: Id)
    requires Typed(calls) && AppliedLifecycle(WorldAfter(calls).lifecycleRecords, op, Finish)
    ensures var records := WorldAfter(calls).lifecycleRecords;
      FinishOf(records, op, attempt) && CheckOf(records, check, attempt) && AppliedLifecycle(records, attempt, Prepare)
  {
    RunKeepsInv(calls);
    var w := WorldAfter(calls);
    attempt :| attempt in w.checkedAttempts && FinishOf(w.lifecycleRecords, op, attempt);
    check :| CheckOf(w.lifecycleRecords, check, attempt);
    assert attempt in w.preparedAttempts;
  }

  /** An applied send of any run answers with a turn and a message on the channel reserved for its attempt, and no
      other applied send answers with that turn or that message. */
  lemma SendsAreExclusive(calls: seq<Call>, op: Id) returns (attempt: Id, channel: Id, message: Id, turn: Id)
    requires Typed(calls) && AppliedChannel(WorldAfter(calls).channelRecords, op, Send)
    ensures var w := WorldAfter(calls);
      && IsSend(w.channelRecords, op, attempt, channel, message, turn)
      && At(w.turnOperations, turn, op) && At(w.messageOperations, message, op)
      && At(w.channelReservations, channel, attempt) && At(w.attemptChannels, attempt, channel)
      && forall other :: other != op && AppliedChannel(w.channelRecords, other, Send) ==>
           var o := w.channelRecords[other].response;
           o.Turn? && o.turnId != Some(turn) && o.messageId != Some(message)
  {
    RunKeepsInv(calls);
    var w := WorldAfter(calls);
    assert SendRegistered(w.channelRecords, w.channelReservations, w.turnOperations, w.messageOperations, op);
    attempt, channel, message, turn :|
      IsSend(w.channelRecords, op, attempt, channel, message, turn)
      && At(w.turnOperations, turn, op) && At(w.messageOperations, message, op)
      && At(w.channelReservations, channel, attempt);
    forall other | other != op && AppliedChannel(w.channelRecords, other, Send)
      ensures var o := w.channelRecords[other].response;
        o.Turn? && o.turnId != Some(turn) && o.messageId != Some(message)
    {
      assert SendRegistered(w.channelRecords, w.channelReservations, w.turnOperations, w.messageOperations, other);
    }
  }

  /** An applied cancellation of any run repeats the turn it cancels: the identities and the result digest of the
      applied send, and its state if that was terminal.  No other applied cancellation names that turn. */
  lemma CancellationsAreExclusive(calls: seq<Call>, op: Id) returns (turn: Id)
    requires Typed(calls) && AppliedChannel(WorldAfter(calls).channelRecords, op, Cancel)
    ensures var w := WorldAfter(calls);
      && CancelledTurn(w.channelRecords, w.turnOperations, op, turn)
      && forall other :: other != op && AppliedChannel(w.channelRecords, other, Cancel) ==>
           var o := w.channelRecords[other].response;
           o.Turn? && o.turnId != Some(turn)
  {
    RunKeepsInv(calls);
    var w := WorldAfter(calls);
    turn :| At(w.turnCancellations, turn, op);
    assert CancelledTurn(w.channelRecords, w.turnOperations, op, turn);
    forall other | other != op && AppliedChannel(w.channelRecords, other, Cancel)
      ensures var o := w.channelRecords[other].response; o.Turn? && o.turnId != Some(turn)
    {
      var otherTurn :| At(w.turnCancellations, otherTurn, other);
      assert CancelledTurn(w.channelRecords, w.turnOperations, other, otherTurn);
    }
  }

  /** The tables of turns, messages and cancellations hold exactly what the applied sends and cancellations of the run
      answered. */
  lemma TablesAreAnswers(calls: seq<Call>, key: Id, op: Id)
    requires Typed(calls)
    ensures var w := WorldAfter(calls);
      && (At(w.turnOperations, key, op) <==> SentTurn(w.channelRecords, op, key))
      && (At(w.messageOperations, key, op) <==> SentMessage(w.channelRecords, op, key))
      && (At(w.turnCancellations, key, op) <==> CancelledTurn(w.channelRecords, w.turnOperations, op, key))
  {
    RunKeepsInv(calls);
    var w := WorldAfter(calls);
    if AppliedChannel(w.channelRecords, op, Send) {
      assert SendRegistered(w.channelRecords, w.channelReservations, w.turnOperations, w.messageOperations, op);
    }
    if AppliedChannel(w.channelRecords, op, Cancel) {
      var turn :| At(w.turnCancellations, turn, op);
      assert CancelledTurn(w.channelRecords, w.turnOperations, op, turn);
    }
  }

  /** The channel tables of a run are inverse to each other, so no attempt holds two channels and no channel
      serves two attempts. */
  lemma ReservationsAreInverse(calls: seq<Call>, channel: Id, attempt: Id)
    requires Typed(calls)
    ensures At(WorldAfter(calls).channelReservations, channel, attempt) <==>
              At(WorldAfter(calls).attemptChannels, attempt, channel)
  {
    RunKeepsInv(calls);
  }

  // ---- Records are written once ----

  lemma StepKeepsRecord(w: World, c: Call, op: Id)
    requires WellTyped(c)
    ensures op in w.lifecycleRecords ==>
              op in Step(w, c).0.lifecycleRecords && Step(w, c).0.lifecycleRecords[op] == w.lifecycleRecords[op]
    ensures op in w.channelRecords ==>
              op in Step(w, c).0.channelRecords && Step(w, c).0.channelRecords[op] == w.channelRecords[op]
  {
    if LookupOf(w, c).NotSeen? {
      DecideFrame(w, c);
    } else {
      LookupKeepsTables(w, c);
    }
  }

  /** Once written, a record never changes in the rest of the run. */
  lemma {:induction false} RecordsAreWriteOnce(calls: seq<Call>, i: nat, op: Id)
    requires Typed(calls) && i <= |calls|
    ensures var w, w' := WorldAfter(calls[..i]), WorldAfter(calls);
      && (op in w.lifecycleRecords ==> op in w'.lifecycleRecords && w'.lifecycleRecords[op] == w.lifecycleRecords[op])
      && (op in w.channelRecords ==> op in w'.channelRecords && w'.channelRecords[op] == w.channelRecords[op])
    decreases |calls|
  {
    if i == |calls| {
      assert calls[..i] == calls;
    } else {
      var front := calls[..|calls| - 1];
      assert front[..i] == calls[..i];
      RecordsAreWriteOnce(front, i, op);
      StepKeepsRecord(WorldAfter(front), calls[|calls| - 1], op);
    }
  }

  // ---- The number of applied effects ----

  function AppliedIds(w: World): set<Id> {
    (set op | op in w.lifecycleRecords && w.lifecycleRecords[op].applied)
    + (set op | op in w.channelRecords && w.channelRecords[op].applied)
  }

  /** A call applies at most one effect, the one of its own operation id, and only on its first use. */
  lemma StepAppliesAtMostOne(w: World, c: Call)
    requires WellTyped(c)
    ensures |AppliedIds(w)| <= |AppliedIds(Step(w, c).0)| <= |AppliedIds(w)| + 1
    ensures EntryOf(w, IdOf(c)).Some? ==> AppliedIds(Step(w, c).0) == AppliedIds(w)
  {
    if LookupOf(w, c).NotSeen? {
      NotSeenIsFresh(w, c);
      FirstUseApplies(w, c);
      Cardinalities(AppliedIds(w), AppliedIds(Decide(w, c).0), IdOf(c));
    } else {
      LookupKeepsTables(w, c);
      SameRecordsSameApplied(w, Step(w, c).0);
    }
  }

  lemma SameRecordsSameApplied(w: World, w': World)
    requires Tables(w') == Tables(w)
    ensures AppliedIds(w') == AppliedIds(w)
  {
    assert w'.lifecycleRecords == w.lifecycleRecords && w'.channelRecords == w.channelRecords;
  }

  lemma FirstUseApplies(w: World, c: Call)
    requires WellTyped(c) && IdOf(c) !in w.lifecycleRecords && IdOf(c) !in w.channelRecords
    ensures AppliedIds(w) <= AppliedIds(Decide(w, c).0) <= AppliedIds(w) + {IdOf(c)}
  {
    DecideFrame(w, c);
  }

  lemma Cardinalities(a: set<Id>, b: set<Id>, x: Id)
    requires a <= b <= a + {x}
    ensures |a| <= |b| <= |a| + 1
  {
    assert b == a || b == a + {x};
  }
}
