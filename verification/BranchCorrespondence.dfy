/** What the matching of old and new branches guarantees. */
module BranchCorrespondence {
  import opened BranchMatching

  /** The result of the two passes, first by correspondence key and then by structural key. */
  ghost predicate IsMatching(olds: seq<Projection>, news: seq<Projection>, first: map<string, string>,
                             mapping: map<string, string>, unmatched: seq<Projection>, available: set<string>) {
    var rest, left := Remaining(olds, news), Left(olds, news);
    && Records(map[], first, olds, news, Ids(news), ByCorrespondence, |olds|)
    && Records(first, mapping, rest, news, left, ByStructure, |rest|)
    && unmatched == Unmatched(rest, news, left, ByStructure, |rest|)
    && available == left - Taken(rest, news, left, ByStructure, |rest|)
  }

  /** The old branches and the new branches that the first pass leaves. */
  function Remaining(olds: seq<Projection>, news: seq<Projection>): seq<Projection> {
    Unmatched(olds, news, Ids(news), ByCorrespondence, |olds|)
  }

  function Left(olds: seq<Projection>, news: seq<Projection>): set<string> {
    Ids(news) - Taken(olds, news, Ids(news), ByCorrespondence, |olds|)
  }

  method MatchBranches(olds: seq<Projection>, news: seq<Projection>)
    returns (mapping: map<string, string>, unmatched: seq<Projection>, available: set<string>)
    requires DistinctIds(olds) && DistinctIds(news)
    ensures Splits(Ids(olds), mapping, Ids(unmatched))
    ensures Injective(mapping) && available == Ids(news) - mapping.Values
    ensures forall id :: id in mapping ==> Agree(olds, news, id, mapping[id])
    ensures exists first :: IsMatching(olds, news, first, mapping, unmatched, available)
  {
    var first, rest, left := MatchByCorrespondence(olds, news);
    RemainingAreOld(olds, news, first);
    mapping, unmatched, available := MatchByStructure(first, rest, news, left);
    assert IsMatching(olds, news, first, mapping, unmatched, available);
    MatchingIsOneToOne(olds, news, first, mapping, unmatched, available);
    forall id | id in mapping
      ensures Agree(olds, news, id, mapping[id])
    {
      MatchedAgree(olds, news, first, mapping, unmatched, available, id);
    }
  }

  // ---- One pass ----

  lemma {:induction false} UnmatchedAre(olds: seq<Projection>, news: seq<Projection>, ids: set<string>, pass: Pass,
                                        n: nat, p: Projection)
    requires n <= |olds|
    ensures p in Unmatched(olds, news, ids, pass, n) <==>
            exists i :: 0 <= i < n && olds[i] == p && !Matched(olds, news, ids, pass, i)
  {
    if n > 0 {
      UnmatchedAre(olds, news, ids, pass, n - 1, p);
    }
  }

  lemma {:induction false} TakenAre(olds: seq<Projection>, news: seq<Projection>, ids: set<string>, pass: Pass, n: nat,
                                    id: string)
    requires n <= |olds|
    ensures id in Taken(olds, news, ids, pass, n) <==>
            exists i :: 0 <= i < n && Matched(olds, news, ids, pass, i) && Mate(olds, news, ids, pass, i).branchId == id
  {
    if n > 0 {
      TakenAre(olds, news, ids, pass, n - 1, id);
    }
  }

  lemma {:induction false} UnmatchedAreDistinct(olds: seq<Projection>, news: seq<Projection>, ids: set<string>,
                                                pass: Pass, n: nat)
    requires n <= |olds| && DistinctIds(olds)
    ensures DistinctIds(Unmatched(olds, news, ids, pass, n))
  {
    if n > 0 {
      UnmatchedAreDistinct(olds, news, ids, pass, n - 1);
      var before := Unmatched(olds, news, ids, pass, n - 1);
      forall i | 0 <= i < |before|
        ensures before[i].branchId != olds[n - 1].branchId
      {
        UnmatchedAre(olds, news, ids, pass, n - 1, before[i]);
      }
    }
  }

  /** The mate of a matched branch is an available new branch with the same key. */
  lemma MateAgrees(olds: seq<Projection>, news: seq<Projection>, ids: set<string>, pass: Pass, i: nat)
    requires i < |olds| && Matched(olds, news, ids, pass, i)
    ensures var mate := Mate(olds, news, ids, pass, i);
      mate in news && mate.branchId in ids && KeyOf(pass, mate) == KeyOf(pass, olds[i])
  {
    BearersBear(news, ids, pass, KeyOf(pass, olds[i]), Mate(olds, news, ids, pass, i));
  }

  lemma MatesDiffer(olds: seq<Projection>, news: seq<Projection>, ids: set<string>, pass: Pass, i: nat, j: nat)
    requires DistinctIds(news) && i < j < |olds|
    requires Matched(olds, news, ids, pass, i) && Matched(olds, news, ids, pass, j)
    ensures Mate(olds, news, ids, pass, i).branchId != Mate(olds, news, ids, pass, j).branchId
  {
    MateAgrees(olds, news, ids, pass, i);
    MateAgrees(olds, news, ids, pass, j);
    assert olds[..j][i] == olds[i];
  }

  lemma IdsOf(ps: seq<Projection>, id: string)
    ensures id in Ids(ps) <==> exists i :: 0 <= i < |ps| && ps[i].branchId == id
  {
    if id in Ids(ps) {
      var p :| p in ps && p.branchId == id;
    }
  }

  /** One pass adds matches for some of the old branches, one to one, and leaves the others. */
  ghost predicate OnePass(before: map<string, string>, after: map<string, string>, olds: set<string>, rest: set<string>,
                          ids: set<string>, left: set<string>) {
    && rest <= olds && left <= ids && after.Keys == before.Keys + (olds - rest)
    && (forall id :: id in before ==> id in after && after[id] == before[id])
    && (forall id :: id in after && id !in before ==> after[id] in ids - left)
    && (forall new_ :: new_ in ids - left ==> exists id :: id in after && id !in before && after[id] == new_)
    && (forall a, b :: a in after && a !in before && b in after && b !in before && after[a] == after[b] ==> a == b)
  }

  ghost predicate HasMatch(olds: seq<Projection>, news: seq<Projection>, ids: set<string>, pass: Pass, id: string,
                           matched: bool) {
    exists i :: 0 <= i < |olds| && Matched(olds, news, ids, pass, i) == matched && olds[i].branchId == id
  }

  lemma OldIsMatchedOrNot(olds: seq<Projection>, news: seq<Projection>, ids: set<string>, pass: Pass, id: string)
    requires DistinctIds(olds)
    ensures id in Ids(olds) <==> HasMatch(olds, news, ids, pass, id, true) || HasMatch(olds, news, ids, pass, id, false)
    ensures !(HasMatch(olds, news, ids, pass, id, true) && HasMatch(olds, news, ids, pass, id, false))
  {
    if id in Ids(olds) {
      var p :| p in olds && p.branchId == id;
      var i :| 0 <= i < |olds| && olds[i] == p;
      assert Matched(olds, news, ids, pass, i) || !Matched(olds, news, ids, pass, i);
    }
  }

  lemma RestHasNoMatch(olds: seq<Projection>, news: seq<Projection>, ids: set<string>, pass: Pass, id: string)
    ensures id in Ids(Unmatched(olds, news, ids, pass, |olds|)) <==> HasMatch(olds, news, ids, pass, id, false)
  {
    var rest := Unmatched(olds, news, ids, pass, |olds|);
    if id in Ids(rest) {
      var p :| p in rest && p.branchId == id;
      UnmatchedAre(olds, news, ids, pass, |olds|, p);
    }
    if HasMatch(olds, news, ids, pass, id, false) {
      var i :| 0 <= i < |olds| && Matched(olds, news, ids, pass, i) == false && olds[i].branchId == id;
      UnmatchedAre(olds, news, ids, pass, |olds|, olds[i]);
    }
  }

  lemma AddedHasMatch(before: map<string, string>, after: map<string, string>, olds: seq<Projection>,
                      news: seq<Projection>, ids: set<string>, pass: Pass, id: string)
    requires Records(before, after, olds, news, ids, pass, |olds|) && id !in before
    ensures id in after <==> HasMatch(olds, news, ids, pass, id, true)
  {
    if id in after {
      var i :| 0 <= i < |olds| && MateList(olds, news, ids, pass)[i].Some? && IdList(olds)[i] == id;
      assert Matched(olds, news, ids, pass, i) == true;
    }
    if HasMatch(olds, news, ids, pass, id, true) {
      var i :| 0 <= i < |olds| && Matched(olds, news, ids, pass, i) == true && olds[i].branchId == id;
      assert MateList(olds, news, ids, pass)[i].Some? && IdList(olds)[i] == id;
    }
  }

  lemma PassKeys(before: map<string, string>, after: map<string, string>, olds: seq<Projection>, news: seq<Projection>,
                 ids: set<string>, pass: Pass, id: string)
    requires DistinctIds(olds) && Records(before, after, olds, news, ids, pass, |olds|)
    ensures id in Ids(Unmatched(olds, news, ids, pass, |olds|)) ==> id in Ids(olds)
    ensures id !in before ==>
              (id in after <==> id in Ids(olds) && id !in Ids(Unmatched(olds, news, ids, pass, |olds|)))
  {
    OldIsMatchedOrNot(olds, news, ids, pass, id);
    RestHasNoMatch(olds, news, ids, pass, id);
    if id !in before {
      AddedHasMatch(before, after, olds, news, ids, pass, id);
    }
  }

  lemma PassValues(before: map<string, string>, after: map<string, string>, olds: seq<Projection>,
                   news: seq<Projection>, ids: set<string>, pass: Pass, id: string) returns (i: nat)
    requires Records(before, after, olds, news, ids, pass, |olds|) && id in after && id !in before
    ensures i < |olds| && Matched(olds, news, ids, pass, i) && olds[i].branchId == id
    ensures after[id] == Mate(olds, news, ids, pass, i).branchId
    ensures after[id] in ids && after[id] in Taken(olds, news, ids, pass, |olds|)
    ensures KeyOf(pass, Mate(olds, news, ids, pass, i)) == KeyOf(pass, olds[i])
            && Mate(olds, news, ids, pass, i) in news
  {
    i :| 0 <= i < |olds| && Matched(olds, news, ids, pass, i) && olds[i].branchId == id;
    MateAgrees(olds, news, ids, pass, i);
    TakenAre(olds, news, ids, pass, |olds|, after[id]);
  }

  lemma PassIsOnePass(before: map<string, string>, after: map<string, string>, olds: seq<Projection>,
                      news: seq<Projection>, ids: set<string>, pass: Pass)
    requires DistinctIds(olds) && DistinctIds(news) && Records(before, after, olds, news, ids, pass, |olds|)
    requires before.Keys !! Ids(olds)
    ensures OnePass(before, after, Ids(olds), Ids(Unmatched(olds, news, ids, pass, |olds|)),
                    ids, ids - Taken(olds, news, ids, pass, |olds|))
  {
    forall id
      ensures id in Ids(Unmatched(olds, news, ids, pass, |olds|)) ==> id in Ids(olds)
      ensures id !in before ==>
                (id in after <==> id in Ids(olds) && id !in Ids(Unmatched(olds, news, ids, pass, |olds|)))
    {
      PassKeys(before, after, olds, news, ids, pass, id);
    }
    forall a, b | a in after && a !in before && b in after && b !in before
      ensures after[a] in ids && after[a] in Taken(olds, news, ids, pass, |olds|)
      ensures after[a] == after[b] ==> a == b
    {
      PassIsInjective(before, after, olds, news, ids, pass, a, b);
    }
    forall new_ | new_ in ids && new_ in Taken(olds, news, ids, pass, |olds|)
      ensures exists id :: id in after && id !in before && after[id] == new_
    {
      var id := TakenIsRecorded(before, after, olds, news, ids, pass, new_);
    }
  }

  lemma PassIsInjective(before: map<string, string>, after: map<string, string>, olds: seq<Projection>,
                        news: seq<Projection>, ids: set<string>, pass: Pass, a: string, b: string)
    requires DistinctIds(news) && Records(before, after, olds, news, ids, pass, |olds|)
    requires a in after && a !in before && b in after && b !in before
    ensures after[a] in ids && after[a] in Taken(olds, news, ids, pass, |olds|)
    ensures after[a] == after[b] ==> a == b
  {
    var i := PassValues(before, after, olds, news, ids, pass, a);
    var j := PassValues(before, after, olds, news, ids, pass, b);
    if i < j {
      MatesDiffer(olds, news, ids, pass, i, j);
    } else if j < i {
      MatesDiffer(olds, news, ids, pass, j, i);
    }
  }

  lemma TakenIsRecorded(before: map<string, string>, after: map<string, string>, olds: seq<Projection>,
                        news: seq<Projection>, ids: set<string>, pass: Pass, new_: string) returns (id: string)
    requires Records(before, after, olds, news, ids, pass, |olds|) && before.Keys !! Ids(olds)
    requires new_ in Taken(olds, news, ids, pass, |olds|)
    ensures id in after && id !in before && after[id] == new_
  {
    TakenAre(olds, news, ids, pass, |olds|, new_);
    var i :| 0 <= i < |olds| && Matched(olds, news, ids, pass, i) && Mate(olds, news, ids, pass, i).branchId == new_;
    id := olds[i].branchId;
    IdsOf(olds, id);
  }

  // ---- Both passes ----

  ghost predicate Injective(mapping: map<string, string>) {
    forall a, b :: a in mapping && b in mapping && mapping[a] == mapping[b] ==> a == b
  }

  /** Every old branch is matched or unmatched, never both, and nothing else is. */
  predicate Splits(olds: set<string>, mapping: map<string, string>, unmatched: set<string>) {
    mapping.Keys + unmatched == olds && mapping.Keys !! unmatched
  }

  lemma TwoPasses(first: map<string, string>, mapping: map<string, string>, olds: set<string>, rest: set<string>,
                  unmatched: set<string>, ids: set<string>, left: set<string>, available: set<string>)
    requires OnePass(map[], first, olds, rest, ids, left) && OnePass(first, mapping, rest, unmatched, left, available)
    ensures Splits(olds, mapping, unmatched) && Injective(mapping) && available == ids - mapping.Values
  {
    forall v
      ensures v in available <==> v in ids && v !in mapping.Values
    {
      if v in mapping.Values {
        var id :| id in mapping && mapping[id] == v;
      }
      if v in ids - left {
        var id :| id in first && first[id] == v;
        assert mapping[id] == v;
      } else if v in left - available {
        var id :| id in mapping && id !in first && mapping[id] == v;
      }
    }
  }

  /** The two branches have one kind and one owner, and agree on both digests or on the path. */
  ghost predicate Agree(olds: seq<Projection>, news: seq<Projection>, oldId: string, newId: string) {
    exists p, q :: p in olds && q in news && p.branchId == oldId && q.branchId == newId && SameBranch(p, q)
  }

  predicate SameBranch(p: Projection, q: Projection) {
    && p.kind == q.kind && p.ownerKey == q.ownerKey
    && ((p.decisionDigest == q.decisionDigest && p.bodyDigest == q.bodyDigest) || p.astPath == q.astPath)
  }

  lemma RemainingAreOld(olds: seq<Projection>, news: seq<Projection>, first: map<string, string>)
    requires DistinctIds(olds) && Records(map[], first, olds, news, Ids(news), ByCorrespondence, |olds|)
    ensures DistinctIds(Remaining(olds, news)) && first.Keys !! Ids(Remaining(olds, news))
    ensures forall p :: p in Remaining(olds, news) ==> p in olds
  {
    UnmatchedAreDistinct(olds, news, Ids(news), ByCorrespondence, |olds|);
    forall p | p in Remaining(olds, news)
      ensures p in olds
    {
      UnmatchedAre(olds, news, Ids(news), ByCorrespondence, |olds|, p);
    }
    forall id | id in first
      ensures id !in Ids(Remaining(olds, news))
    {
      PassKeys(map[], first, olds, news, Ids(news), ByCorrespondence, id);
    }
  }

  lemma MatchedAgree(olds: seq<Projection>, news: seq<Projection>, first: map<string, string>,
                     mapping: map<string, string>, unmatched: seq<Projection>, available: set<string>, id: string)
    requires DistinctIds(olds) && IsMatching(olds, news, first, mapping, unmatched, available) && id in mapping
    ensures Agree(olds, news, id, mapping[id])
  {
    if id in first {
      var i := PassValues(map[], first, olds, news, Ids(news), ByCorrespondence, id);
      KeysAreFields(ByCorrespondence, olds[i], Mate(olds, news, Ids(news), ByCorrespondence, i));
      assert SameBranch(olds[i], Mate(olds, news, Ids(news), ByCorrespondence, i));
    } else {
      var rest, left := Remaining(olds, news), Left(olds, news);
      RemainingAreOld(olds, news, first);
      var i := PassValues(first, mapping, rest, news, left, ByStructure, id);
      KeysAreFields(ByStructure, rest[i], Mate(rest, news, left, ByStructure, i));
      assert SameBranch(rest[i], Mate(rest, news, left, ByStructure, i));
    }
  }

  lemma MatchingIsOneToOne(olds: seq<Projection>, news: seq<Projection>, first: map<string, string>,
                           mapping: map<string, string>, unmatched: seq<Projection>, available: set<string>)
    requires DistinctIds(olds) && DistinctIds(news) && IsMatching(olds, news, first, mapping, unmatched, available)
    ensures Splits(Ids(olds), mapping, Ids(unmatched))
    ensures Injective(mapping) && available == Ids(news) - mapping.Values
  {
    RemainingAreOld(olds, news, first);
    PassIsOnePass(map[], first, olds, news, Ids(news), ByCorrespondence);
    PassIsOnePass(first, mapping, Remaining(olds, news), news, Left(olds, news), ByStructure);
    TwoPasses(first, mapping, Ids(olds), Ids(Remaining(olds, news)), Ids(unmatched), Ids(news), Left(olds, news),
              available);
  }

  // ---- Unchanged inventories ----

  /** With pairwise distinct structural keys, a key has at most one bearer. */
  lemma {:induction false} OneBearer(ps: seq<Projection>, ids: set<string>, pass: Pass, p: Projection)
    requires DistinctKeys(ps, pass) && p in ps && p.branchId in ids
    ensures Bearers(ps, ids, pass, KeyOf(pass, p)) == [p]
    decreases |ps|
  {
    var last, rest := ps[|ps| - 1], ps[..|ps| - 1];
    if p == last {
      NoBearer(rest, ids, pass, KeyOf(pass, p));
    } else {
      OneBearer(rest, ids, pass, p);
      var i :| 0 <= i < |ps| && ps[i] == p;
      assert KeyOf(pass, ps[i]) != KeyOf(pass, ps[|ps| - 1]);
    }
  }

  lemma {:induction false} NoBearer(ps: seq<Projection>, ids: set<string>, pass: Pass, key: Key)
    requires forall p :: p in ps && p.branchId in ids ==> KeyOf(pass, p) != key
    ensures Bearers(ps, ids, pass, key) == []
    decreases |ps|
  {
    if ps != [] {
      NoBearer(ps[..|ps| - 1], ids, pass, key);
    }
  }

  /** In the first pass over identical inventories a branch can only be matched to itself. */
  lemma FirstPassIsIdentity(ps: seq<Projection>, i: nat)
    requires DistinctIds(ps) && i < |ps| && Matched(ps, ps, Ids(ps), ByCorrespondence, i)
    ensures Mate(ps, ps, Ids(ps), ByCorrespondence, i) == ps[i]
  {
    assert ps[i].branchId in Ids(ps);
    BearersBear(ps, Ids(ps), ByCorrespondence, KeyOf(ByCorrespondence, ps[i]), ps[i]);
  }

  lemma RemainingSlotsDiffer(olds: seq<Projection>, news: seq<Projection>, i: nat)
    requires DistinctIds(olds) && DistinctKeys(olds, ByStructure) && i < |Remaining(olds, news)|
    ensures !Bears(Remaining(olds, news)[..i], ByStructure, KeyOf(ByStructure, Remaining(olds, news)[i]))
  {
    var rest := Remaining(olds, news);
    UnmatchedAreDistinct(olds, news, Ids(news), ByCorrespondence, |olds|);
    UnmatchedAre(olds, news, Ids(news), ByCorrespondence, |olds|, rest[i]);
    var b :| 0 <= b < |olds| && olds[b] == rest[i];
    forall j | 0 <= j < i
      ensures KeyOf(ByStructure, rest[..i][j]) != KeyOf(ByStructure, rest[i])
    {
      UnmatchedAre(olds, news, Ids(news), ByCorrespondence, |olds|, rest[j]);
      var a :| 0 <= a < |olds| && olds[a] == rest[j];
      assert rest[j].branchId != rest[i].branchId;
    }
  }

  /** A branch that the first pass leaves over is still available, and the second pass matches it to itself. */
  lemma SecondPassIsIdentity(ps: seq<Projection>, i: nat)
    requires DistinctIds(ps) && DistinctKeys(ps, ByStructure) && i < |Remaining(ps, ps)|
    ensures var rest, left := Remaining(ps, ps), Left(ps, ps);
      Matched(rest, ps, left, ByStructure, i) && Mate(rest, ps, left, ByStructure, i) == rest[i]
  {
    var rest, left := Remaining(ps, ps), Left(ps, ps);
    var p := rest[i];
    UnmatchedAre(ps, ps, Ids(ps), ByCorrespondence, |ps|, p);
    assert p.branchId in Ids(ps);
    StillAvailable(ps, p);
    OneBearer(ps, left, ByStructure, p);
    RemainingSlotsDiffer(ps, ps, i);
  }

  lemma StillAvailable(ps: seq<Projection>, p: Projection)
    requires DistinctIds(ps) && p in Remaining(ps, ps)
    ensures p.branchId in Left(ps, ps)
  {
    UnmatchedAre(ps, ps, Ids(ps), ByCorrespondence, |ps|, p);
    TakenAre(ps, ps, Ids(ps), ByCorrespondence, |ps|, p.branchId);
    assert p.branchId in Ids(ps);
    if p.branchId in Taken(ps, ps, Ids(ps), ByCorrespondence, |ps|) {
      var i :| 0 <= i < |ps| && Matched(ps, ps, Ids(ps), ByCorrespondence, i)
               && Mate(ps, ps, Ids(ps), ByCorrespondence, i).branchId == p.branchId;
      FirstPassIsIdentity(ps, i);
    }
  }

  /** Identical inventories with distinct structural keys are matched branch by branch, with nothing left over. */
  lemma UnchangedIsMatchedToItself(ps: seq<Projection>, first: map<string, string>, mapping: map<string, string>,
                                   unmatched: seq<Projection>, available: set<string>)
    requires DistinctIds(ps) && DistinctKeys(ps, ByStructure)
    requires IsMatching(ps, ps, first, mapping, unmatched, available)
    ensures unmatched == [] && available == {}
    ensures forall p :: p in ps ==> p.branchId in mapping && mapping[p.branchId] == p.branchId
  {
    var rest, left := Remaining(ps, ps), Left(ps, ps);
    MatchingIsOneToOne(ps, ps, first, mapping, unmatched, available);
    if unmatched != [] {
      var p := unmatched[0];
      UnmatchedAre(rest, ps, left, ByStructure, |rest|, p);
      var i :| 0 <= i < |rest| && rest[i] == p && !Matched(rest, ps, left, ByStructure, i);
      SecondPassIsIdentity(ps, i);
    }
    forall p | p in ps
      ensures p.branchId in mapping && mapping[p.branchId] == p.branchId
    {
      MatchedToItself(ps, first, mapping, unmatched, available, p);
    }
    forall id | id in Ids(ps)
      ensures id in mapping.Values
    {
      assert mapping[id] == id;
    }
  }

  lemma MatchedToItself(ps: seq<Projection>, first: map<string, string>, mapping: map<string, string>,
                        unmatched: seq<Projection>, available: set<string>, p: Projection)
    requires DistinctIds(ps) && DistinctKeys(ps, ByStructure) && p in ps
    requires IsMatching(ps, ps, first, mapping, unmatched, available)
    ensures p.branchId in mapping && mapping[p.branchId] == p.branchId
  {
    var rest, left := Remaining(ps, ps), Left(ps, ps);
    UnmatchedAre(ps, ps, Ids(ps), ByCorrespondence, |ps|, p);
    if p in rest {
      var i :| 0 <= i < |rest| && rest[i] == p;
      SecondPassIsIdentity(ps, i);
    } else {
      var i :| 0 <= i < |ps| && ps[i] == p;
      FirstPassIsIdentity(ps, i);
    }
  }

  /** With distinct structural keys no match is missed: at the slot of an unmatched old branch there is no new
      branch, or another old branch has taken it. */
  lemma UnmatchedHasNoCounterpart(olds: seq<Projection>, news: seq<Projection>, first: map<string, string>,
                                  mapping: map<string, string>, unmatched: seq<Projection>, available: set<string>,
                                  p: Projection, q: Projection)
    requires DistinctIds(olds) && DistinctIds(news) && DistinctKeys(olds, ByStructure)
             && DistinctKeys(news, ByStructure)
    requires IsMatching(olds, news, first, mapping, unmatched, available)
    requires p in unmatched && q in news && KeyOf(ByStructure, q) == KeyOf(ByStructure, p)
    ensures q.branchId in mapping.Values
  {
    var rest, left := Remaining(olds, news), Left(olds, news);
    MatchingIsOneToOne(olds, news, first, mapping, unmatched, available);
    assert q.branchId in Ids(news);
    if q.branchId in available {
      UnmatchedAre(rest, news, left, ByStructure, |rest|, p);
      var i :| 0 <= i < |rest| && rest[i] == p && !Matched(rest, news, left, ByStructure, i);
      OneBearer(news, left, ByStructure, q);
      RemainingSlotsDiffer(olds, news, i);
    }
  }
}
