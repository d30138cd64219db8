/** Which old and new branches the two passes pair, written out in the fields of the branches. */
module BranchPairs {
  import opened Options
  import opened BranchMatching
  import opened BranchCorrespondence

  // ---- One pass, written out ----

  /** An old branch that is the first of its fields, and the only available new branch with them. */
  ghost predicate OnlyMate(olds: seq<Projection>, news: seq<Projection>, ids: set<string>, pass: Pass, i: nat,
                           q: Projection)
    requires i < |olds|
  {
    && q in news && q.branchId in ids && SameFields(pass, olds[i], q)
    && (forall r :: r in news && r.branchId in ids && SameFields(pass, olds[i], r) ==> r == q)
    && (forall j :: 0 <= j < i ==> !SameFields(pass, olds[j], olds[i]))
  }

  lemma {:induction false} BearersAreDistinct(ps: seq<Projection>, ids: set<string>, pass: Pass, key: Key)
    requires DistinctIds(ps)
    ensures DistinctIds(Bearers(ps, ids, pass, key))
    decreases |ps|
  {
    if ps != [] {
      var rest := ps[..|ps| - 1];
      BearersAreDistinct(rest, ids, pass, key);
      var found := Bearers(rest, ids, pass, key);
      forall i | 0 <= i < |found|
        ensures found[i].branchId != ps[|ps| - 1].branchId
      {
        BearersBear(rest, ids, pass, key, found[i]);
        assert found[i] in rest;
      }
    }
  }

  lemma SingleBearer(ps: seq<Projection>, ids: set<string>, pass: Pass, key: Key, q: Projection)
    requires DistinctIds(ps)
    ensures Bearers(ps, ids, pass, key) == [q] <==>
            && q in ps && q.branchId in ids && KeyOf(pass, q) == key
            && forall r :: r in ps && r.branchId in ids && KeyOf(pass, r) == key ==> r == q
  {
    var found := Bearers(ps, ids, pass, key);
    BearersAreDistinct(ps, ids, pass, key);
    BearersBear(ps, ids, pass, key, q);
    if found == [q] {
      forall r | r in ps && r.branchId in ids && KeyOf(pass, r) == key
        ensures r == q
      {
        BearersBear(ps, ids, pass, key, r);
      }
    }
    if q in found && forall r :: r in ps && r.branchId in ids && KeyOf(pass, r) == key ==> r == q {
      forall k | 0 <= k < |found|
        ensures found[k] == q
      {
        BearersBear(ps, ids, pass, key, found[k]);
        assert found[k] in found;
      }
      assert |found| > 1 ==> found[0].branchId != found[1].branchId;
    }
  }

  lemma FirstOfItsFields(olds: seq<Projection>, pass: Pass, i: nat)
    requires i < |olds|
    ensures Bears(olds[..i], pass, KeyOf(pass, olds[i])) <==>
            exists j :: 0 <= j < i && SameFields(pass, olds[j], olds[i])
  {
    forall j | 0 <= j < i
      ensures KeyOf(pass, olds[..i][j]) == KeyOf(pass, olds[i]) <==> SameFields(pass, olds[j], olds[i])
    {
      KeysAreFields(pass, olds[j], olds[i]);
    }
  }

  /** A pass matches an old branch to exactly its only mate. */
  lemma MatchedExactly(olds: seq<Projection>, news: seq<Projection>, ids: set<string>, pass: Pass, i: nat,
                       q: Projection)
    requires DistinctIds(news) && i < |olds|
    ensures OnlyMate(olds, news, ids, pass, i, q) <==>
            Matched(olds, news, ids, pass, i) && Mate(olds, news, ids, pass, i) == q
  {
    var key := KeyOf(pass, olds[i]);
    FirstOfItsFields(olds, pass, i);
    SingleBearer(news, ids, pass, key, q);
    forall r
      ensures KeyOf(pass, r) == key <==> SameFields(pass, olds[i], r)
    {
      KeysAreFields(pass, olds[i], r);
    }
    var found := Bearers(news, ids, pass, key);
    assert |found| == 1 && found[0] == q <==> found == [q];
  }

  /** What a pass adds to the dictionary. */
  lemma RecordedExactly(before: map<string, string>, after: map<string, string>, olds: seq<Projection>,
                        news: seq<Projection>, ids: set<string>, pass: Pass, i: nat, q: Projection)
    requires DistinctIds(olds) && DistinctIds(news) && i < |olds| && q in news && olds[i].branchId !in before
    requires Records(before, after, olds, news, ids, pass, |olds|)
    ensures OnlyMate(olds, news, ids, pass, i, q) <==>
            olds[i].branchId in after && after[olds[i].branchId] == q.branchId
  {
    var id := olds[i].branchId;
    MatchedExactly(olds, news, ids, pass, i, q);
    if OnlyMate(olds, news, ids, pass, i, q) {
      assert MateList(olds, news, ids, pass)[i].Some? && IdList(olds)[i] == id;
    }
    if id in after && after[id] == q.branchId {
      var k := PassValues(before, after, olds, news, ids, pass, id);
      assert k == i;
      assert Mate(olds, news, ids, pass, i) in news;
    }
  }

  // ---- Both passes, written out ----

  /** The pairs of the first pass: the first old branch of its kind, owner and digests, and the only new branch with
      them. */
  ghost predicate Moves(olds: seq<Projection>, news: seq<Projection>, i: nat, q: Projection)
    requires i < |olds|
  {
    && q in news && SameCode(olds[i], q) && (forall r :: r in news && SameCode(olds[i], r) ==> r == q)
    && (forall j :: 0 <= j < i ==> !SameCode(olds[j], olds[i]))
  }

  /** No new branch is paired with this old one in the first pass. */
  ghost predicate Stays(olds: seq<Projection>, news: seq<Projection>, i: nat)
    requires i < |olds|
  {
    forall q :: q in news ==> !Moves(olds, news, i, q)
  }

  /** A new branch that is in no pair of the first pass. */
  ghost predicate Free(olds: seq<Projection>, news: seq<Projection>, q: Projection) {
    q in news && forall i: nat :: i < |olds| ==> !Moves(olds, news, i, q)
  }

  /** The pairs of the second pass: among the branches left, the first old one of its kind, owner and path, and the only
      new one with them. */
  ghost predicate Keeps(olds: seq<Projection>, news: seq<Projection>, i: nat, q: Projection)
    requires i < |olds|
  {
    && Stays(olds, news, i) && Free(olds, news, q) && SameSlot(olds[i], q)
    && (forall r :: Free(olds, news, r) && SameSlot(olds[i], r) ==> r == q)
    && (forall j: nat :: j < i && Stays(olds, news, j) ==> !SameSlot(olds[j], olds[i]))
  }

  lemma MovesIsMate(olds: seq<Projection>, news: seq<Projection>, i: nat, q: Projection)
    requires i < |olds|
    ensures Moves(olds, news, i, q) <==> OnlyMate(olds, news, Ids(news), ByCorrespondence, i, q)
  {
  }

  lemma StaysIsUnmatched(olds: seq<Projection>, news: seq<Projection>, i: nat)
    requires DistinctIds(news) && i < |olds|
    ensures Stays(olds, news, i) <==> !Matched(olds, news, Ids(news), ByCorrespondence, i)
  {
    forall q
      ensures Moves(olds, news, i, q) <==> Matched(olds, news, Ids(news), ByCorrespondence, i)
                                           && Mate(olds, news, Ids(news), ByCorrespondence, i) == q
    {
      MovesIsMate(olds, news, i, q);
      MatchedExactly(olds, news, Ids(news), ByCorrespondence, i, q);
    }
    if Matched(olds, news, Ids(news), ByCorrespondence, i) {
      assert Moves(olds, news, i, Mate(olds, news, Ids(news), ByCorrespondence, i));
    }
  }

  lemma FreeIsLeft(olds: seq<Projection>, news: seq<Projection>, q: Projection)
    requires DistinctIds(news) && q in news
    ensures Free(olds, news, q) <==> q.branchId in Left(olds, news)
  {
    var ids := Ids(news);
    assert q.branchId in ids;
    TakenAre(olds, news, ids, ByCorrespondence, |olds|, q.branchId);
    forall i: nat | i < |olds|
      ensures Moves(olds, news, i, q) <==> Matched(olds, news, ids, ByCorrespondence, i)
                                           && Mate(olds, news, ids, ByCorrespondence, i).branchId == q.branchId
    {
      MovesIsMate(olds, news, i, q);
      MatchedExactly(olds, news, ids, ByCorrespondence, i, q);
      if Matched(olds, news, ids, ByCorrespondence, i) {
        MateAgrees(olds, news, ids, ByCorrespondence, i);
      }
    }
  }

  lemma {:induction false} UnmatchedGrows(olds: seq<Projection>, news: seq<Projection>, ids: set<string>, pass: Pass,
                                          m: nat, n: nat)
    requires m <= n <= |olds|
    ensures Unmatched(olds, news, ids, pass, m) <= Unmatched(olds, news, ids, pass, n)
    decreases n
  {
    if m < n {
      UnmatchedGrows(olds, news, ids, pass, m, n - 1);
    }
  }

  lemma UnmatchedIsAdded(olds: seq<Projection>, news: seq<Projection>, ids: set<string>, pass: Pass, i: nat)
    requires i < |olds| && !Matched(olds, news, ids, pass, i)
    ensures Unmatched(olds, news, ids, pass, i + 1) == Unmatched(olds, news, ids, pass, i) + [olds[i]]
  {
  }

  lemma LastOfPrefix<T>(before: seq<T>, x: T, all: seq<T>)
    requires before + [x] <= all
    ensures |before| < |all| && all[|before|] == x && all[..|before|] == before
  {
    assert (before + [x])[..|before|] == before;
  }

  /** The place of an unmatched old branch among the remaining ones: behind the unmatched ones before it. */
  lemma PlaceOf(olds: seq<Projection>, news: seq<Projection>, ids: set<string>, pass: Pass, n: nat, i: nat)
    returns (k: nat)
    requires i < n <= |olds| && !Matched(olds, news, ids, pass, i)
    ensures var rest := Unmatched(olds, news, ids, pass, n);
      k < |rest| && rest[k] == olds[i] && rest[..k] == Unmatched(olds, news, ids, pass, i)
  {
    k := |Unmatched(olds, news, ids, pass, i)|;
    UnmatchedIsAdded(olds, news, ids, pass, i);
    UnmatchedGrows(olds, news, ids, pass, i + 1, n);
    LastOfPrefix(Unmatched(olds, news, ids, pass, i), olds[i], Unmatched(olds, news, ids, pass, n));
  }

  lemma KeepsIsMate(olds: seq<Projection>, news: seq<Projection>, i: nat, k: nat, q: Projection)
    requires DistinctIds(news) && i < |olds| && k < |Remaining(olds, news)| && Stays(olds, news, i)
    requires Remaining(olds, news)[k] == olds[i]
    requires Remaining(olds, news)[..k] == Unmatched(olds, news, Ids(news), ByCorrespondence, i)
    ensures Keeps(olds, news, i, q) <==> OnlyMate(Remaining(olds, news), news, Left(olds, news), ByStructure, k, q)
  {
    var rest := Remaining(olds, news);
    forall r | r in news
      ensures Free(olds, news, r) <==> r.branchId in Left(olds, news)
    {
      FreeIsLeft(olds, news, r);
    }
    EarlierLeft(olds, news, i, k);
  }

  /** The same old branches come before: in the whole list and not moved, or among the remaining ones. */
  lemma EarlierLeft(olds: seq<Projection>, news: seq<Projection>, i: nat, k: nat)
    requires DistinctIds(news) && i < |olds| && k < |Remaining(olds, news)|
    requires Remaining(olds, news)[..k] == Unmatched(olds, news, Ids(news), ByCorrespondence, i)
    ensures (forall j: nat :: j < i && Stays(olds, news, j) ==> !SameSlot(olds[j], olds[i])) <==>
            (forall l :: 0 <= l < k ==> !SameSlot(Remaining(olds, news)[l], olds[i]))
  {
    var rest := Remaining(olds, news);
    forall j: nat | j < i && Stays(olds, news, j)
      ensures exists l :: 0 <= l < k && rest[l] == olds[j]
    {
      StaysIsUnmatched(olds, news, j);
      UnmatchedAre(olds, news, Ids(news), ByCorrespondence, i, olds[j]);
      assert olds[j] in rest[..k];
    }
    forall l | 0 <= l < k
      ensures exists j: nat :: j < i && olds[j] == rest[l] && Stays(olds, news, j)
    {
      UnmatchedAre(olds, news, Ids(news), ByCorrespondence, i, rest[l]);
      assert rest[l] in rest[..k];
      var j: nat :| j < i && olds[j] == rest[l] && !Matched(olds, news, Ids(news), ByCorrespondence, j);
      StaysIsUnmatched(olds, news, j);
    }
  }

  /** The pairs are exactly those of the first and of the second pass. */
  lemma PairedExactly(olds: seq<Projection>, news: seq<Projection>, first: map<string, string>,
                      mapping: map<string, string>, unmatched: seq<Projection>, available: set<string>, i: nat,
                      q: Projection)
    requires DistinctIds(olds) && DistinctIds(news) && IsMatching(olds, news, first, mapping, unmatched, available)
    requires i < |olds| && q in news
    ensures olds[i].branchId in mapping && mapping[olds[i].branchId] == q.branchId <==>
            Moves(olds, news, i, q) || Keeps(olds, news, i, q)
  {
    var id, rest, left := olds[i].branchId, Remaining(olds, news), Left(olds, news);
    MovesIsMate(olds, news, i, q);
    StaysIsUnmatched(olds, news, i);
    RecordedExactly(map[], first, olds, news, Ids(news), ByCorrespondence, i, q);
    RemainingAreOld(olds, news, first);
    if Stays(olds, news, i) {
      var k := PlaceOf(olds, news, Ids(news), ByCorrespondence, |olds|, i);
      KeepsIsMate(olds, news, i, k, q);
      assert rest[k] in rest && id in Ids(rest);
      RecordedExactly(first, mapping, rest, news, left, ByStructure, k, q);
    } else {
      var mate :| mate in news && Moves(olds, news, i, mate);
      MovesIsMate(olds, news, i, mate);
      RecordedExactly(map[], first, olds, news, Ids(news), ByCorrespondence, i, mate);
    }
  }
}
