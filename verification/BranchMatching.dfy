/** The two-pass matching of the branches of an old file version to those of a new one. */
module BranchMatching {
  import opened Options

  type Key = seq<string>

  datatype Projection = Projection(
    branchId: string, kind: string, ownerKey: string, astPath: string, bodyDigest: string, decisionDigest: string)

  datatype Pass = ByCorrespondence | ByStructure

  /** The correspondence key follows an unchanged branch that moved within its owner; the structural key names
      a control-flow slot. */
  function KeyOf(pass: Pass, p: Projection): Key {
    match pass
    case ByCorrespondence => [p.kind, p.ownerKey, p.decisionDigest, p.bodyDigest]
    case ByStructure => [p.kind, p.ownerKey, p.astPath]
  }

  /** What the correspondence key compares. */
  predicate SameCode(p: Projection, q: Projection) {
    p.kind == q.kind && p.ownerKey == q.ownerKey && p.decisionDigest == q.decisionDigest && p.bodyDigest == q.bodyDigest
  }

  /** What the structural key compares. */
  predicate SameSlot(p: Projection, q: Projection) {
    p.kind == q.kind && p.ownerKey == q.ownerKey && p.astPath == q.astPath
  }

  predicate SameFields(pass: Pass, p: Projection, q: Projection) {
    match pass
    case ByCorrespondence => SameCode(p, q)
    case ByStructure => SameSlot(p, q)
  }

  lemma KeysAreFields(pass: Pass, p: Projection, q: Projection)
    ensures KeyOf(pass, p) == KeyOf(pass, q) <==> SameFields(pass, p, q)
  {
    var k, l := KeyOf(pass, p), KeyOf(pass, q);
    if k == l {
      assert k[0] == l[0] && k[1] == l[1] && k[2] == l[2];
      if pass.ByCorrespondence? {
        assert k[3] == l[3];
      }
    }
  }

  function Ids(ps: seq<Projection>): set<string> {
    set p | p in ps :: p.branchId
  }

  predicate DistinctIds(ps: seq<Projection>) {
    forall i, j :: 0 <= i < j < |ps| ==> ps[i].branchId != ps[j].branchId
  }

  predicate DistinctKeys(ps: seq<Projection>, pass: Pass) {
    forall i, j :: 0 <= i < j < |ps| ==> KeyOf(pass, ps[i]) != KeyOf(pass, ps[j])
  }

  /** The branches among `ids` that bear a key, in order. */
  function Bearers(ps: seq<Projection>, ids: set<string>, pass: Pass, key: Key): seq<Projection> {
    if ps == [] then []
    else
      var p, rest := ps[|ps| - 1], Bearers(ps[..|ps| - 1], ids, pass, key);
      if p.branchId in ids && KeyOf(pass, p) == key then rest + [p] else rest
  }

  lemma {:induction false} BearersBear(ps: seq<Projection>, ids: set<string>, pass: Pass, key: Key, p: Projection)
    ensures p in Bearers(ps, ids, pass, key) <==> p in ps && p.branchId in ids && KeyOf(pass, p) == key
    decreases |ps|
  {
    if ps != [] {
      BearersBear(ps[..|ps| - 1], ids, pass, key, p);
      assert ps == ps[..|ps| - 1] + [ps[|ps| - 1]];
    }
  }

  /** Taking one branch away takes away one bearer of its own key only. */
  lemma {:induction false} BearersWithout(ps: seq<Projection>, ids: set<string>, pass: Pass, key: Key, gone: Projection)
    requires DistinctIds(ps) && gone in ps
    ensures KeyOf(pass, gone) != key ==>
              Bearers(ps, ids - {gone.branchId}, pass, key) == Bearers(ps, ids, pass, key)
    ensures Bearers(ps, ids, pass, key) == [gone] ==> Bearers(ps, ids - {gone.branchId}, pass, key) == []
    decreases |ps|
  {
    var p, rest := ps[|ps| - 1], ps[..|ps| - 1];
    if gone == p {
      Unnamed(rest, ids, pass, key, gone.branchId);
      if Bearers(ps, ids, pass, key) == [gone] {
        BearersBear(ps, ids, pass, key, gone);
        assert Bearers(ps, ids, pass, key) == Bearers(rest, ids, pass, key) + [p];
      }
    } else {
      assert gone in rest;
      BearersWithout(rest, ids, pass, key, gone);
      var all := Bearers(ps, ids, pass, key);
      assert p.branchId in ids && KeyOf(pass, p) == key ==> all[|all| - 1] == p;
    }
  }

  lemma {:induction false} Unnamed(ps: seq<Projection>, ids: set<string>, pass: Pass, key: Key, id: string)
    requires forall p :: p in ps ==> p.branchId != id
    ensures Bearers(ps, ids - {id}, pass, key) == Bearers(ps, ids, pass, key)
    decreases |ps|
  {
    if ps != [] {
      Unnamed(ps[..|ps| - 1], ids, pass, key, id);
    }
  }

  // ---- What one pass decides ----

  predicate Bears(ps: seq<Projection>, pass: Pass, key: Key) {
    exists i :: 0 <= i < |ps| && KeyOf(pass, ps[i]) == key
  }

  /** An old branch is matched in a pass when it is the first old branch with its key and exactly one available
      new branch bears that key. */
  predicate Matched(olds: seq<Projection>, news: seq<Projection>, ids: set<string>, pass: Pass, i: int)
    requires 0 <= i < |olds|
  {
    !Bears(olds[..i], pass, KeyOf(pass, olds[i])) && |Bearers(news, ids, pass, KeyOf(pass, olds[i]))| == 1
  }

  function Mate(olds: seq<Projection>, news: seq<Projection>, ids: set<string>, pass: Pass, i: int): Projection
    requires 0 <= i < |olds| && Matched(olds, news, ids, pass, i)
  {
    Bearers(news, ids, pass, KeyOf(pass, olds[i]))[0]
  }

  /** The old branches before `n` that a pass leaves unmatched, in order. */
  function Unmatched(olds: seq<Projection>, news: seq<Projection>, ids: set<string>, pass: Pass,
                     n: nat): seq<Projection>
    requires n <= |olds|
  {
    if n == 0 then []
    else Unmatched(olds, news, ids, pass, n - 1) + if Matched(olds, news, ids, pass, n - 1) then [] else [olds[n - 1]]
  }

  /** The new branches that the old branches before `n` take in a pass. */
  function Taken(olds: seq<Projection>, news: seq<Projection>, ids: set<string>, pass: Pass, n: nat): set<string>
    requires n <= |olds|
  {
    if n == 0 then {}
    else Taken(olds, news, ids, pass, n - 1)
         + if Matched(olds, news, ids, pass, n - 1) then {Mate(olds, news, ids, pass, n - 1).branchId} else {}
  }

  function IdList(ps: seq<Projection>): (r: seq<string>)
    ensures |r| == |ps| && forall i :: 0 <= i < |ps| ==> r[i] == ps[i].branchId
  {
    seq(|ps|, i requires 0 <= i < |ps| => ps[i].branchId)
  }

  /** The mate of every old branch in a pass, if it has one. */
  function MateList(olds: seq<Projection>, news: seq<Projection>, ids: set<string>,
                    pass: Pass): (r: seq<Option<string>>)
    ensures |r| == |olds|
    ensures forall i :: 0 <= i < |olds| ==>
              r[i] == if Matched(olds, news, ids, pass, i) then Some(Mate(olds, news, ids, pass, i).branchId) else None
  {
    seq(|olds|, i requires 0 <= i < |olds| =>
      if Matched(olds, news, ids, pass, i) then Some(Mate(olds, news, ids, pass, i).branchId) else None)
  }

  /** `after` is `before` with the first `n` of these pairs added. */
  ghost predicate Pairs(before: map<string, string>, after: map<string, string>, ids: seq<string>,
                        mates: seq<Option<string>>, n: nat)
    requires n <= |ids| == |mates|
  {
    && (forall i :: 0 <= i < n && mates[i].Some? ==> ids[i] in after && after[ids[i]] == mates[i].value)
    && (forall id :: id in after && id !in before ==> exists i :: 0 <= i < n && mates[i].Some? && ids[i] == id)
    && (forall id :: id in before ==> id in after && after[id] == before[id])
  }

  lemma PairsStep(before: map<string, string>, after: map<string, string>, ids: seq<string>,
                  mates: seq<Option<string>>, n: nat)
    requires n < |ids| == |mates| && Pairs(before, after, ids, mates, n)
    requires ids[n] !in before && forall i :: 0 <= i < n ==> ids[i] != ids[n]
    ensures Pairs(before, if mates[n].Some? then after[ids[n] := mates[n].value] else after, ids, mates, n + 1)
  {
  }

  /** `after` is `before` with the matches of the old branches before `n` added. */
  ghost predicate Records(before: map<string, string>, after: map<string, string>,
                          olds: seq<Projection>, news: seq<Projection>, ids: set<string>, pass: Pass, n: nat)
    requires n <= |olds|
  {
    Pairs(before, after, IdList(olds), MateList(olds, news, ids, pass), n)
  }

  /** What is left of the bearers of a key when the old branches before `n` have been served. */
  function Leftover(olds: seq<Projection>, news: seq<Projection>, ids: set<string>, pass: Pass, n: nat,
                    key: Key): seq<Projection>
    requires n <= |olds|
  {
    var bearers := Bearers(news, ids, pass, key);
    if Bears(olds[..n], pass, key) && |bearers| == 1 then [] else bearers
  }

  lemma LeftoverStep(olds: seq<Projection>, news: seq<Projection>, ids: set<string>, pass: Pass, n: nat, key: Key)
    requires n < |olds|
    ensures Leftover(olds, news, ids, pass, n + 1, key) ==
            if KeyOf(pass, olds[n]) == key && Matched(olds, news, ids, pass, n) then []
            else Leftover(olds, news, ids, pass, n, key)
    ensures |Leftover(olds, news, ids, pass, n, KeyOf(pass, olds[n]))| == 1 <==> Matched(olds, news, ids, pass, n)
    ensures Matched(olds, news, ids, pass, n) ==>
              Leftover(olds, news, ids, pass, n, KeyOf(pass, olds[n])) == [Mate(olds, news, ids, pass, n)]
  {
    assert olds[..n + 1] == olds[..n] + [olds[n]];
    assert Bears(olds[..n + 1], pass, key) <==> Bears(olds[..n], pass, key) || KeyOf(pass, olds[n]) == key by {
      if Bears(olds[..n], pass, key) {
        var i :| 0 <= i < n && KeyOf(pass, olds[..n][i]) == key;
        assert KeyOf(pass, olds[..n + 1][i]) == key;
      }
      if KeyOf(pass, olds[n]) == key {
        assert KeyOf(pass, olds[..n + 1][n]) == key;
      }
      if Bears(olds[..n + 1], pass, key) {
        var i :| 0 <= i < n + 1 && KeyOf(pass, olds[..n + 1][i]) == key;
        if i < n {
          assert KeyOf(pass, olds[..n][i]) == key;
        }
      }
    }
  }

  /** The available branches after a turn still bear what is left over. */
  lemma AvailableStep(olds: seq<Projection>, news: seq<Projection>, ids: set<string>, pass: Pass, n: nat,
                      available: set<string>, key: Key)
    requires DistinctIds(news) && n < |olds| && Matched(olds, news, ids, pass, n)
    requires forall k :: Bearers(news, available, pass, k) == Leftover(olds, news, ids, pass, n, k)
    ensures Bearers(news, available - {Mate(olds, news, ids, pass, n).branchId}, pass, key)
            == Leftover(olds, news, ids, pass, n + 1, key)
  {
    var own := KeyOf(pass, olds[n]);
    var mate := Mate(olds, news, ids, pass, n);
    LeftoverStep(olds, news, ids, pass, n, key);
    LeftoverStep(olds, news, ids, pass, n, own);
    assert Bearers(news, available, pass, own) == [mate];
    BearersBear(news, available, pass, own, mate);
    BearersWithout(news, available, pass, key, mate);
  }

  /** What the loop of a pass knows of the available branches before turn `n`. */
  ghost predicate Serves(available: set<string>, olds: seq<Projection>, news: seq<Projection>, ids: set<string>,
                         pass: Pass, n: nat)
    requires n <= |olds|
  {
    forall key :: Bearers(news, available, pass, key) == Leftover(olds, news, ids, pass, n, key)
  }

  function Candidates(p: Projection, news: seq<Projection>, available: set<string>): seq<Projection> {
    Bearers(news, available, ByStructure, KeyOf(ByStructure, p))
  }

  lemma CandidatesServe(available: set<string>, olds: seq<Projection>, news: seq<Projection>, ids: set<string>,
                        pass: Pass, n: nat)
    requires pass == ByStructure && n < |olds| && Serves(available, olds, news, ids, pass, n)
    ensures |Candidates(olds[n], news, available)| == 1 <==> Matched(olds, news, ids, pass, n)
    ensures Matched(olds, news, ids, pass, n) ==>
              Candidates(olds[n], news, available) == [Mate(olds, news, ids, pass, n)]
  {
    LeftoverStep(olds, news, ids, pass, n, KeyOf(pass, olds[n]));
  }

  lemma ServesStep(available: set<string>, olds: seq<Projection>, news: seq<Projection>, ids: set<string>, pass: Pass,
                   n: nat)
    requires DistinctIds(news) && n < |olds| && Serves(available, olds, news, ids, pass, n)
    ensures Matched(olds, news, ids, pass, n) ==>
              Serves(available - {Mate(olds, news, ids, pass, n).branchId}, olds, news, ids, pass, n + 1)
    ensures !Matched(olds, news, ids, pass, n) ==> Serves(available, olds, news, ids, pass, n + 1)
  {
    forall key
      ensures Matched(olds, news, ids, pass, n) ==>
                Bearers(news, available - {Mate(olds, news, ids, pass, n).branchId}, pass, key)
                  == Leftover(olds, news, ids, pass, n + 1, key)
      ensures !Matched(olds, news, ids, pass, n) ==>
                Bearers(news, available, pass, key) == Leftover(olds, news, ids, pass, n + 1, key)
    {
      LeftoverStep(olds, news, ids, pass, n, key);
      if Matched(olds, news, ids, pass, n) {
        AvailableStep(olds, news, ids, pass, n, available, key);
      }
    }
  }

  function Listed(byKey: map<Key, seq<Projection>>, key: Key): seq<Projection> {
    if key in byKey then byKey[key] else []
  }

  /** The same for a dictionary of candidate lists. */
  ghost predicate Lists(byKey: map<Key, seq<Projection>>, olds: seq<Projection>, news: seq<Projection>,
                        ids: set<string>, pass: Pass, n: nat)
    requires n <= |olds|
  {
    forall key :: Listed(byKey, key) == Leftover(olds, news, ids, pass, n, key)
  }

  lemma ListsStep(byKey: map<Key, seq<Projection>>, olds: seq<Projection>, news: seq<Projection>, ids: set<string>,
                  pass: Pass, n: nat)
    requires n < |olds| && Lists(byKey, olds, news, ids, pass, n)
    ensures Lists(if Matched(olds, news, ids, pass, n) then byKey[KeyOf(pass, olds[n]) := []] else byKey,
                  olds, news, ids, pass, n + 1)
  {
    var after := if Matched(olds, news, ids, pass, n) then byKey[KeyOf(pass, olds[n]) := []] else byKey;
    forall key
      ensures Listed(after, key) == Leftover(olds, news, ids, pass, n + 1, key)
    {
      LeftoverStep(olds, news, ids, pass, n, key);
      assert Listed(byKey, key) == Leftover(olds, news, ids, pass, n, key);
    }
  }

  lemma RecordsStep(before: map<string, string>, mapping: map<string, string>,
                    olds: seq<Projection>, news: seq<Projection>, ids: set<string>, pass: Pass, n: nat)
    requires n < |olds| && DistinctIds(olds) && olds[n].branchId !in before
             && Records(before, mapping, olds, news, ids, pass, n)
    ensures Matched(olds, news, ids, pass, n) ==>
              Records(before, mapping[olds[n].branchId := Mate(olds, news, ids, pass, n).branchId], olds, news, ids,
                      pass, n + 1)
    ensures !Matched(olds, news, ids, pass, n) ==> Records(before, mapping, olds, news, ids, pass, n + 1)
  {
    PairsStep(before, mapping, IdList(olds), MateList(olds, news, ids, pass), n);
  }

  /** One turn of the second pass, in terms of the candidates it finds. */
  lemma StructureTurn(before: map<string, string>, mapping: map<string, string>, available: set<string>,
                      olds: seq<Projection>, news: seq<Projection>, ids: set<string>, n: nat)
    requires n < |olds| && DistinctIds(olds) && DistinctIds(news) && olds[n].branchId !in before
    requires Serves(available, olds, news, ids, ByStructure, n)
             && Records(before, mapping, olds, news, ids, ByStructure, n)
    ensures var found := Candidates(olds[n], news, available);
      if |found| == 1 then
        && Serves(available - {found[0].branchId}, olds, news, ids, ByStructure, n + 1)
        && Records(before, mapping[olds[n].branchId := found[0].branchId], olds, news, ids, ByStructure, n + 1)
        && Unmatched(olds, news, ids, ByStructure, n + 1) == Unmatched(olds, news, ids, ByStructure, n)
        && Taken(olds, news, ids, ByStructure, n + 1) == Taken(olds, news, ids, ByStructure, n) + {found[0].branchId}
      else
        && Serves(available, olds, news, ids, ByStructure, n + 1)
        && Records(before, mapping, olds, news, ids, ByStructure, n + 1)
        && Unmatched(olds, news, ids, ByStructure, n + 1) == Unmatched(olds, news, ids, ByStructure, n) + [olds[n]]
        && Taken(olds, news, ids, ByStructure, n + 1) == Taken(olds, news, ids, ByStructure, n)
  {
    CandidatesServe(available, olds, news, ids, ByStructure, n);
    ServesStep(available, olds, news, ids, ByStructure, n);
    RecordsStep(before, mapping, olds, news, ids, ByStructure, n);
  }

  // ---- The two passes ----

  /** The dictionary of lists of the first pass. */
  method GroupByCorrespondence(news: seq<Projection>) returns (byKey: map<Key, seq<Projection>>)
    ensures forall key :: Listed(byKey, key) == Bearers(news, Ids(news), ByCorrespondence, key)
  {
    byKey := map[];
    for j := 0 to |news|
      invariant forall key :: Listed(byKey, key) == Bearers(news[..j], Ids(news), ByCorrespondence, key)
    {
      assert news[..j + 1][..j] == news[..j] && news[..j + 1][j] == news[j] && news[j].branchId in Ids(news);
      var key := KeyOf(ByCorrespondence, news[j]);
      byKey := byKey[key := Listed(byKey, key) + [news[j]]];
    }
    assert news[..|news|] == news;
  }

  /** The first pass looks candidates up in the dictionary, and empties a list when it is used. */
  method MatchByCorrespondence(olds: seq<Projection>, news: seq<Projection>)
    returns (mapping: map<string, string>, unmatched: seq<Projection>, available: set<string>)
    requires DistinctIds(olds)
    ensures Records(map[], mapping, olds, news, Ids(news), ByCorrespondence, |olds|)
    ensures unmatched == Unmatched(olds, news, Ids(news), ByCorrespondence, |olds|)
    ensures available == Ids(news) - Taken(olds, news, Ids(news), ByCorrespondence, |olds|)
  {
    var byKey := GroupByCorrespondence(news);
    mapping, unmatched, available := map[], [], Ids(news);
    for i := 0 to |olds|
      invariant Lists(byKey, olds, news, Ids(news), ByCorrespondence, i)
      invariant Records(map[], mapping, olds, news, Ids(news), ByCorrespondence, i)
      invariant unmatched == Unmatched(olds, news, Ids(news), ByCorrespondence, i)
      invariant available == Ids(news) - Taken(olds, news, Ids(news), ByCorrespondence, i)
    {
      var key := KeyOf(ByCorrespondence, olds[i]);
      LeftoverStep(olds, news, Ids(news), ByCorrespondence, i, key);
      ListsStep(byKey, olds, news, Ids(news), ByCorrespondence, i);
      RecordsStep(map[], mapping, olds, news, Ids(news), ByCorrespondence, i);
      var candidates := Listed(byKey, key);
      if |candidates| == 1 {
        var candidate := candidates[0];
        byKey := byKey[key := []];
        mapping := mapping[olds[i].branchId := candidate.branchId];
        available := available - {candidate.branchId};
      } else {
        unmatched := unmatched + [olds[i]];
      }
    }
  }

  /** The second pass filters what is still available for every remaining old branch. */
  method MatchByStructure(before: map<string, string>, olds: seq<Projection>, news: seq<Projection>, left: set<string>)
    returns (mapping: map<string, string>, unmatched: seq<Projection>, available: set<string>)
    requires DistinctIds(olds) && DistinctIds(news) && forall p :: p in olds ==> p.branchId !in before
    ensures Records(before, mapping, olds, news, left, ByStructure, |olds|)
    ensures unmatched == Unmatched(olds, news, left, ByStructure, |olds|)
    ensures available == left - Taken(olds, news, left, ByStructure, |olds|)
  {
    mapping, unmatched, available := before, [], left;
    for i := 0 to |olds|
      invariant Serves(available, olds, news, left, ByStructure, i)
      invariant Records(before, mapping, olds, news, left, ByStructure, i)
      invariant unmatched == Unmatched(olds, news, left, ByStructure, i)
      invariant available == left - Taken(olds, news, left, ByStructure, i)
    {
      StructureTurn(before, mapping, available, olds, news, left, i);
      var candidates := Candidates(olds[i], news, available);
      if |candidates| == 1 {
        var candidate := candidates[0];
        mapping := mapping[olds[i].branchId := candidate.branchId];
        available := available - {candidate.branchId};
      } else {
        unmatched := unmatched + [olds[i]];
      }
    }
  }
}
