/** Every run of mutating calls, on any mix of port instances, answers as a history of uses prescribes. */
module EffectHistory {
  import opened Options
  import opened ExternalState

  function WorldAfter(calls: seq<Call>): World
    requires forall i :: 0 <= i < |calls| ==> WellTyped(calls[i])
  {
    if calls == [] then EMPTY else Step(WorldAfter(calls[..|calls| - 1]), calls[|calls| - 1]).0
  }

  ghost predicate Typed(calls: seq<Call>) {
    forall i :: 0 <= i < |calls| ==> WellTyped(calls[i])
  }

  /** The answer to the call at position `i` of the run. */
  function AnswerAt(calls: seq<Call>, i: nat): Observation
    requires Typed(calls) && i < |calls|
  {
    Step(WorldAfter(calls[..i]), calls[i]).1
  }

  /** What a call uses an operation id for. */
  function UseOf(c: Call): (Kind, string) {
    (KindOf(c.effect.command), c.effect.commandHash)
  }

  // ---- The history of one operation id ----

  /** What was decided at the first use of the id: the use, the answer, and which port took it. */
  datatype Entry = Entry(use: (Kind, string), answer: Observation, lifecycle: bool)

  function FirstEntry(calls: seq<Call>, id: Id): Option<Entry>
    requires Typed(calls)
  {
    if calls == [] then None
    else
      var front, c := calls[..|calls| - 1], calls[|calls| - 1];
      var earlier := FirstEntry(front, id);
      if earlier.Some? then earlier
      else if IdOf(c) == id then Some(Entry(UseOf(c), Decide(WorldAfter(front), c).1, c.LifecycleCall?))
      else None
  }

  /** Two calls of the run use the id differently. */
  ghost predicate Clash(calls: seq<Call>, id: Id) {
    exists j, k :: 0 <= j < |calls| && 0 <= k < |calls| && IdOf(calls[j]) == id && IdOf(calls[k]) == id
      && UseOf(calls[j]) != UseOf(calls[k])
  }

  /** The record of the id, in whichever table holds it. */
  function EntryOf(w: World, id: Id): Option<Entry> {
    if id in w.lifecycleRecords then
      var r := w.lifecycleRecords[id];
      Some(Entry((r.kind, r.commandHash), r.response, true))
    else if id in w.channelRecords then
      var r := w.channelRecords[id];
      Some(Entry((r.kind, r.commandHash), r.response, false))
    else None
  }

  /** The id is marked as conflicting by the port that holds its record. */
  predicate MarkedByOwner(w: World, id: Id) {
    if id in w.lifecycleRecords then id in w.lifecycleConflicts else id in w.channelConflicts
  }

  /** The shared state knows about one operation id exactly what the history says. */
  ghost predicate Agrees(calls: seq<Call>, id: Id)
    requires Typed(calls)
  {
    var w := WorldAfter(calls);
    && !(id in w.lifecycleRecords && id in w.channelRecords)
    && EntryOf(w, id) == FirstEntry(calls, id)
    && (FirstEntry(calls, id).Some? ==>
          AnswersKind(FirstEntry(calls, id).value.answer, FirstEntry(calls, id).value.use.0))
    && (FirstEntry(calls, id).Some? ==>
          FirstEntry(calls, id).value.lifecycle == IsLifecycle(FirstEntry(calls, id).value.use.0))
    && (Clash(calls, id) <==> MarkedByOwner(w, id))
    && (id in w.lifecycleConflicts || id in w.channelConflicts ==> Clash(calls, id))
  }

  // ---- Facts about histories ----

  lemma {:induction false} EntryIsSomeUse(calls: seq<Call>, id: Id) returns (j: nat)
    requires Typed(calls) && FirstEntry(calls, id).Some?
    ensures j < |calls| && IdOf(calls[j]) == id && UseOf(calls[j]) == FirstEntry(calls, id).value.use
    ensures forall k :: 0 <= k < j ==> IdOf(calls[k]) != id
    ensures FirstEntry(calls, id).value.answer == Decide(WorldAfter(calls[..j]), calls[j]).1
  {
    var front, c := calls[..|calls| - 1], calls[|calls| - 1];
    if FirstEntry(front, id).Some? {
      j := EntryIsSomeUse(front, id);
      assert front[..j] == calls[..j];
      assert forall k :: 0 <= k < j ==> front[k] == calls[k];
    } else {
      j := |calls| - 1;
      forall k | 0 <= k < j
        ensures IdOf(calls[k]) != id
      {
        if IdOf(calls[k]) == id {
          UsedHasEntry(front, id, k);
        }
      }
    }
  }

  lemma EntryNeedsUse(calls: seq<Call>, id: Id)
    requires Typed(calls)
    ensures FirstEntry(calls, id).Some? ==> exists k :: 0 <= k < |calls| && IdOf(calls[k]) == id
  {
    if FirstEntry(calls, id).Some? {
      var k := EntryIsSomeUse(calls, id);
    }
  }

  lemma {:induction false} UsedHasEntry(calls: seq<Call>, id: Id, k: nat)
    requires Typed(calls) && k < |calls| && IdOf(calls[k]) == id
    ensures FirstEntry(calls, id).Some?
    decreases |calls|
  {
    if k < |calls| - 1 {
      UsedHasEntry(calls[..|calls| - 1], id, k);
    }
  }

  /** A call adds a clash on its own id exactly when its use differs from the recorded one. */
  lemma ClashAfter(calls: seq<Call>, c: Call, id: Id)
    requires Typed(calls)
    ensures IdOf(c) != id ==> (Clash(calls + [c], id) <==> Clash(calls, id))
    ensures IdOf(c) == id && FirstEntry(calls, id).None? ==> !Clash(calls + [c], id)
    ensures IdOf(c) == id && FirstEntry(calls, id).Some? ==>
              (Clash(calls + [c], id) <==> Clash(calls, id) || UseOf(c) != FirstEntry(calls, id).value.use)
  {
    var all := calls + [c];
    if Clash(calls, id) {
      var j, k :| 0 <= j < |calls| && 0 <= k < |calls| && IdOf(calls[j]) == id && IdOf(calls[k]) == id
        && UseOf(calls[j]) != UseOf(calls[k]);
      assert all[j] == calls[j] && all[k] == calls[k];
      UsedHasEntry(calls, id, j);
    }
    if IdOf(c) == id && FirstEntry(calls, id).Some? {
      var j := EntryIsSomeUse(calls, id);
      assert all[j] == calls[j] && all[|calls|] == c;
    }
    if Clash(all, id) {
      var j, k :| 0 <= j < |all| && 0 <= k < |all| && IdOf(all[j]) == id && IdOf(all[k]) == id
        && UseOf(all[j]) != UseOf(all[k]);
      var used := if j < |calls| then j else k;
      assert used < |calls| && all[used] == calls[used];
      UsedHasEntry(calls, id, used);
      var first := EntryIsSomeUse(calls, id);
      assert UseOf(calls[used]) != UseOf(calls[first]) ==> Clash(calls, id);
      assert j < |calls| && k < |calls| ==> all[j] == calls[j] && all[k] == calls[k];
    }
  }

  // ---- One step ----

  /** Deciding a first lifecycle command touches one record and no conflict set. */
  lemma LifecycleFrame(w: World, e: Effect, r: LifecycleRecord)
    ensures var w' := ApplyLifecycle(w, e, r);
      && w'.lifecycleRecords == w.lifecycleRecords[e.command.operationId := r]
      && w'.channelRecords == w.channelRecords
      && w'.lifecycleConflicts == w.lifecycleConflicts && w'.channelConflicts == w.channelConflicts
  {
  }

  lemma ChannelFrame(w: World, e: Effect, r: ChannelRecord)
    ensures var w' := ApplyChannel(w, e, r);
      && w'.channelRecords == w.channelRecords[e.command.operationId := r]
      && w'.lifecycleRecords == w.lifecycleRecords
      && w'.lifecycleConflicts == w.lifecycleConflicts && w'.channelConflicts == w.channelConflicts
  {
  }

  predicate SameConflicts(w: World, w': World) {
    w'.lifecycleConflicts == w.lifecycleConflicts && w'.channelConflicts == w.channelConflicts
  }

  lemma DecideFrame(w: World, c: Call)
    requires WellTyped(c)
    ensures SameConflicts(w, Decide(w, c).0)
    ensures c.LifecycleCall? ==> Decide(w, c).0.channelRecords == w.channelRecords
    ensures c.LifecycleCall? ==> exists r ::
              && Decide(w, c).0.lifecycleRecords == w.lifecycleRecords[IdOf(c) := r]
              && (r.kind, r.commandHash) == UseOf(c) && r.response == Decide(w, c).1 && AnswersKind(r.response, r.kind)
    ensures c.ChannelCall? ==> Decide(w, c).0.lifecycleRecords == w.lifecycleRecords
    ensures c.ChannelCall? ==> exists r ::
              && Decide(w, c).0.channelRecords == w.channelRecords[IdOf(c) := r]
              && (r.kind, r.commandHash) == UseOf(c) && r.response == Decide(w, c).1 && AnswersKind(r.response, r.kind)
  {
    match c {
      case LifecycleCall(p, e, now, later) => LifecycleFrame(w, e, DecideLifecycle(w, p, e, now, later));
      case ChannelCall(p, e, now) => ChannelFrame(w, e, DecideChannel(w, p, e, now));
    }
  }

  lemma DecideRecords(w: World, c: Call)
    requires WellTyped(c) && IdOf(c) !in w.lifecycleRecords && IdOf(c) !in w.channelRecords
    ensures var w' := Decide(w, c).0;
      && EntryOf(w', IdOf(c)) == Some(Entry(UseOf(c), Decide(w, c).1, c.LifecycleCall?))
      && !(IdOf(c) in w'.lifecycleRecords && IdOf(c) in w'.channelRecords)
      && AnswersKind(Decide(w, c).1, UseOf(c).0)
      && w'.lifecycleConflicts == w.lifecycleConflicts && w'.channelConflicts == w.channelConflicts
  {
    DecideFrame(w, c);
  }

  /** The two states hold the same record and the same marks for one id. */
  predicate SameAt(w: World, w': World, id: Id) {
    && EntryOf(w', id) == EntryOf(w, id)
    && (id in w'.lifecycleRecords <==> id in w.lifecycleRecords)
    && (id in w'.channelRecords <==> id in w.channelRecords)
    && (id in w'.lifecycleConflicts <==> id in w.lifecycleConflicts)
    && (id in w'.channelConflicts <==> id in w.channelConflicts)
  }

  /** The state with an operation id marked in some of the conflict sets. */
  function Marked(w: World, id: Id, lifecycle: bool, channel: bool): World {
    w.(lifecycleConflicts := if lifecycle then w.lifecycleConflicts + {id} else w.lifecycleConflicts,
       channelConflicts := if channel then w.channelConflicts + {id} else w.channelConflicts)
  }

  lemma LifecycleLookupMarks(w: World, e: Effect, now: string) returns (lifecycle: bool, channel: bool)
    requires ExistingLifecycle(w, e, now).Seen?
    ensures ExistingLifecycle(w, e, now).world == Marked(w, e.command.operationId, lifecycle, channel)
  {
    var id := e.command.operationId;
    channel := id !in w.lifecycleConflicts && id in w.channelRecords;
    lifecycle := ExistingLifecycle(w, e, now).world.lifecycleConflicts != w.lifecycleConflicts;
  }

  lemma ChannelLookupMarks(w: World, e: Effect, now: string) returns (lifecycle: bool, channel: bool)
    requires ExistingChannel(w, e, now).Seen?
    ensures ExistingChannel(w, e, now).world == Marked(w, e.command.operationId, lifecycle, channel)
  {
    var id := e.command.operationId;
    lifecycle := id !in w.channelConflicts && id in w.lifecycleRecords;
    channel := ExistingChannel(w, e, now).world.channelConflicts != w.channelConflicts;
  }

  /** Looking an id up changes the conflict sets only, and only at that id. */
  lemma LookupMarks(w: World, c: Call) returns (lifecycle: bool, channel: bool)
    requires LookupOf(w, c).Seen?
    ensures LookupOf(w, c).world == Marked(w, IdOf(c), lifecycle, channel)
  {
    match c {
      case LifecycleCall(_, e, now, _) => lifecycle, channel := LifecycleLookupMarks(w, e, now);
      case ChannelCall(_, e, now) => lifecycle, channel := ChannelLookupMarks(w, e, now);
    }
  }

  lemma MarkedElsewhere(w: World, marked: Id, lifecycle: bool, channel: bool, id: Id)
    requires id != marked
    ensures SameAt(w, Marked(w, marked, lifecycle, channel), id)
  {
  }

  lemma LookupElsewhere(w: World, c: Call, id: Id)
    requires id != IdOf(c) && LookupOf(w, c).Seen?
    ensures SameAt(w, LookupOf(w, c).world, id)
  {
    var lifecycle, channel := LookupMarks(w, c);
    MarkedElsewhere(w, IdOf(c), lifecycle, channel, id);
  }

  lemma DecideElsewhere(w: World, c: Call, id: Id)
    requires WellTyped(c) && id != IdOf(c)
    ensures SameAt(w, Decide(w, c).0, id)
  {
    DecideFrame(w, c);
  }

  lemma StepElsewhere(w: World, c: Call, id: Id)
    requires WellTyped(c) && id != IdOf(c)
    ensures SameAt(w, Step(w, c).0, id)
  {
    if LookupOf(w, c).NotSeen? {
      DecideElsewhere(w, c, id);
    } else {
      LookupElsewhere(w, c, id);
    }
  }

  /** A repeated use: the same use gets the recorded answer, any other marks the id at its owner. */
  lemma StepOnRecorded(w: World, c: Call)
    requires WellTyped(c) && EntryOf(w, IdOf(c)).Some?
    requires !(IdOf(c) in w.lifecycleRecords && IdOf(c) in w.channelRecords)
    requires var e := EntryOf(w, IdOf(c)).value;
      AnswersKind(e.answer, e.use.0) && e.lifecycle == IsLifecycle(e.use.0)
    requires IdOf(c) in w.lifecycleConflicts || IdOf(c) in w.channelConflicts ==> MarkedByOwner(w, IdOf(c))
    ensures var (w', answer) := Step(w, c);
      && w' == w.(lifecycleConflicts := w'.lifecycleConflicts, channelConflicts := w'.channelConflicts)
      && (MarkedByOwner(w', IdOf(c)) <==> MarkedByOwner(w, IdOf(c)) || UseOf(c) != EntryOf(w, IdOf(c)).value.use)
      && (IdOf(c) in w'.lifecycleConflicts || IdOf(c) in w'.channelConflicts ==> MarkedByOwner(w', IdOf(c)))
      && answer == (if MarkedByOwner(w', IdOf(c)) then Collision(UseOf(c).0, IdOf(c), c.now)
                    else EntryOf(w, IdOf(c)).value.answer)
  {
  }

  lemma AgreesAfter(calls: seq<Call>, c: Call, id: Id)
    requires Typed(calls) && WellTyped(c) && Agrees(calls, id) && Agrees(calls, IdOf(c))
    ensures Agrees(calls + [c], id)
  {
    var all, w := calls + [c], WorldAfter(calls);
    assert all[..|all| - 1] == calls && all[|all| - 1] == c;
    assert WorldAfter(all) == Step(w, c).0;
    ClashAfter(calls, c, id);
    if id != IdOf(c) {
      StepElsewhere(w, c, id);
      assert FirstEntry(all, id) == FirstEntry(calls, id);
    } else if FirstEntry(calls, id).None? {
      assert !Clash(calls, id) by {
        if Clash(calls, id) {
          var j :| 0 <= j < |calls| && IdOf(calls[j]) == id;
          UsedHasEntry(calls, id, j);
        }
      }
      DecideRecords(w, c);
    } else {
      StepOnRecorded(w, c);
      assert FirstEntry(all, id) == FirstEntry(calls, id);
    }
  }

  lemma {:induction false} RunAgrees(calls: seq<Call>, id: Id)
    requires Typed(calls)
    ensures Agrees(calls, id)
    decreases |calls|
  {
    if calls == [] {
    } else {
      var front, c := calls[..|calls| - 1], calls[|calls| - 1];
      RunAgrees(front, id);
      RunAgrees(front, IdOf(c));
      AgreesAfter(front, c, id);
      assert front + [c] == calls;
    }
  }

  // ---- The refinement ----

  /** Everything but the two conflict sets. */
  function Tables(w: World): World {
    w.(lifecycleConflicts := {}, channelConflicts := {})
  }

  ghost predicate FirstUse(calls: seq<Call>, i: nat)
    requires i < |calls|
  {
    forall j :: 0 <= j < i ==> IdOf(calls[j]) != IdOf(calls[i])
  }

  /** Every earlier call on this call's id used it for the same command. */
  ghost predicate ConsistentUse(calls: seq<Call>, i: nat)
    requires i < |calls|
  {
    forall j :: 0 <= j < i && IdOf(calls[j]) == IdOf(calls[i]) ==> UseOf(calls[j]) == UseOf(calls[i])
  }

  /** The history specification.  The first use of an operation id is decided on the tables as they are.
      A repeat gets the first answer while all uses so far agree.  From the first differing use on, from
      either port, the answer is UNKNOWN for a collision.  Nothing but a first use changes a table. */
  lemma AnswersFollowHistory(calls: seq<Call>, i: nat)
    requires Typed(calls) && i < |calls|
    ensures FirstUse(calls, i) ==>
              && WorldAfter(calls[..i + 1]) == Decide(WorldAfter(calls[..i]), calls[i]).0
              && AnswerAt(calls, i) == Decide(WorldAfter(calls[..i]), calls[i]).1
    ensures !FirstUse(calls, i) && ConsistentUse(calls, i) ==>
              forall f :: 0 <= f < i && IdOf(calls[f]) == IdOf(calls[i]) && FirstUse(calls, f) ==>
                AnswerAt(calls, i) == AnswerAt(calls, f)
    ensures !ConsistentUse(calls, i) ==>
              AnswerAt(calls, i) == Collision(UseOf(calls[i]).0, IdOf(calls[i]), calls[i].now)
    ensures !FirstUse(calls, i) ==> Tables(WorldAfter(calls[..i + 1])) == Tables(WorldAfter(calls[..i]))
  {
    var before, c := calls[..i], calls[i];
    var id := IdOf(c);
    assert calls[..i + 1][..i] == before && calls[..i + 1][i] == c;
    RunAgrees(before, id);
    if FirstUse(calls, i) {
      EntryNeedsUse(before, id);
    } else {
      var j :| 0 <= j < i && IdOf(calls[j]) == id;
      assert before[j] == calls[j];
      UsedHasEntry(before, id, j);
      StepOnRecorded(WorldAfter(before), c);
      UsesSoFar(calls, i);
      if ConsistentUse(calls, i) {
        forall f | 0 <= f < i && IdOf(calls[f]) == id && FirstUse(calls, f)
          ensures AnswerAt(calls, i) == AnswerAt(calls, f)
        {
          FirstAnswer(calls, i, f);
        }
      }
    }
  }

  lemma UsesSoFar(calls: seq<Call>, i: nat)
    requires Typed(calls) && i < |calls| && FirstEntry(calls[..i], IdOf(calls[i])).Some?
    ensures ConsistentUse(calls, i) <==>
            !Clash(calls[..i], IdOf(calls[i])) && FirstEntry(calls[..i], IdOf(calls[i])).value.use == UseOf(calls[i])
  {
    var before, id := calls[..i], IdOf(calls[i]);
    var first := EntryIsSomeUse(before, id);
    assert calls[first] == before[first];
    if ConsistentUse(calls, i) {
      forall j | 0 <= j < |before| && IdOf(before[j]) == id
        ensures UseOf(before[j]) == UseOf(calls[i])
      {
        assert calls[j] == before[j];
      }
    } else {
      var j :| 0 <= j < i && IdOf(calls[j]) == id && UseOf(calls[j]) != UseOf(calls[i]);
      assert before[j] == calls[j];
      if UseOf(before[first]) == UseOf(calls[i]) {
        assert UseOf(before[j]) != UseOf(before[first]);
      }
    }
  }

  lemma FirstAnswer(calls: seq<Call>, i: nat, f: nat)
    requires Typed(calls) && f < i < |calls| && FirstUse(calls, f) && IdOf(calls[f]) == IdOf(calls[i])
    ensures FirstEntry(calls[..i], IdOf(calls[i])).Some?
    ensures FirstEntry(calls[..i], IdOf(calls[i])).value.answer == AnswerAt(calls, f)
  {
    var before, id := calls[..i], IdOf(calls[i]);
    assert before[f] == calls[f];
    UsedHasEntry(before, id, f);
    var first := EntryIsSomeUse(before, id);
    assert before[first] == calls[first];
    assert first == f;
    assert before[..f] == calls[..f];
    RunAgrees(calls[..f], id);
    EntryNeedsUse(calls[..f], id);
  }
}
