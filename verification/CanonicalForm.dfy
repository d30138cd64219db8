/** The canonical form of a value: normalising again changes nothing, the order of dictionary entries does
    not matter, and equal canonical texts come from equal normalised values. */
module CanonicalForm {
  import opened JsonText
  import opened JsonRoundTrip
  import opened Normalize

  // ---- Normalised strings ----

  ghost predicate HasCarriageReturn(s: Str) {
    exists i :: 0 <= i < |s| && s[i] == CARRIAGE_RETURN
  }

  /** What is used of canonical composition: it is idempotent and introduces no carriage return. */
  ghost predicate NfcLaws(nfc: Nfc) {
    && (forall s :: nfc(nfc(s)) == nfc(s))
    && (forall s :: !HasCarriageReturn(s) ==> !HasCarriageReturn(nfc(s)))
  }

  lemma {:induction false} UnifiedHasNoReturn(s: Str)
    ensures !HasCarriageReturn(UnifyNewlines(s))
    decreases |s|
  {
    if s != [] {
      var rest := if s[0] == CARRIAGE_RETURN && |s| >= 2 && s[1] == LINE_FEED then s[2..] else s[1..];
      UnifiedHasNoReturn(rest);
      assert UnifyNewlines(s)[1..] == UnifyNewlines(rest);
      assert forall i :: 0 < i < |UnifyNewlines(s)| ==> UnifyNewlines(s)[i] == UnifyNewlines(rest)[i - 1];
    }
  }

  lemma {:induction false} UnifyLeavesAlone(s: Str)
    requires !HasCarriageReturn(s)
    ensures UnifyNewlines(s) == s
    decreases |s|
  {
    if s != [] {
      assert s[0] != CARRIAGE_RETURN;
      assert forall i :: 0 <= i < |s[1..]| ==> s[1..][i] == s[i + 1];
      UnifyLeavesAlone(s[1..]);
    }
  }

  /** `str.replace`: every occurrence, from the left. */
  function Replace(s: Str, part: Str, substitute: Str): Str
    requires part != []
  {
    if |s| < |part| then s
    else if s[..|part|] == part then substitute + Replace(s[|part|..], part, substitute)
    else [s[0]] + Replace(s[1..], part, substitute)
  }

  /** The one pass over a string is the two replacements after each other. */
  lemma {:induction false} UnifyIsReplace(s: Str)
    ensures UnifyNewlines(s) == Replace(Replace(s, [0x0D, 0x0A], [0x0A]), [0x0D], [0x0A])
    decreases |s|
  {
    if s == [] {
    } else if |s| >= 2 && s[0] == 0x0D && s[1] == 0x0A {
      var rest := Replace(s[2..], [0x0D, 0x0A], [0x0A]);
      UnifyIsReplace(s[2..]);
      assert s[..2] == [0x0D, 0x0A];
      ReplaceStep([0x0A], rest);
    } else {
      var rest := Replace(s[1..], [0x0D, 0x0A], [0x0A]);
      UnifyIsReplace(s[1..]);
      assert |s| >= 2 ==> s[..2][0] == s[0] && s[..2][1] == s[1];
      assert |s| == 1 ==> s == [s[0]] + rest;
      ReplaceStep([s[0]], rest);
    }
  }

  lemma ReplaceStep(head: Str, rest: Str)
    requires |head| == 1
    ensures Replace(head + rest, [0x0D], [0x0A]) ==
              [if head[0] == 0x0D then 0x0A else head[0]] + Replace(rest, [0x0D], [0x0A])
  {
    assert (head + rest)[..1] == head && (head + rest)[1..] == rest;
  }

  lemma NormalizedStringIsFixed(nfc: Nfc, s: Str)
    requires NfcLaws(nfc) && NormalizedString(nfc, s).Ok?
    ensures NormalizedString(nfc, NormalizedString(nfc, s).value) == NormalizedString(nfc, s)
  {
    UnifiedHasNoReturn(s);
    var r := nfc(UnifyNewlines(s));
    UnifyLeavesAlone(r);
  }

  // ---- Canonical values ----

  /** A value that normalisation returns at the given depth: strings and keys are fixed points, integers are
      in range, nothing has a fraction, and nothing lies deeper than the limit. */
  ghost predicate IsCanonical(nfc: Nfc, j: Json, depth: nat)
    decreases j
  {
    depth <= 128 &&
    match j
    case Null => true
    case Bool(_) => true
    case Int(n) => -9223372036854775808 <= n <= 9223372036854775807
    case String(s) => NormalizedString(nfc, s) == Ok(s)
    case Array(items) => forall i :: 0 <= i < |items| ==> IsCanonical(nfc, items[i], depth + 1)
    case Object(members) =>
      forall k :: k in members ==> NormalizedString(nfc, k) == Ok(k) && IsCanonical(nfc, members[k], depth + 1)
    case Float(_) => false
  }

  ghost predicate AllCanonical(nfc: Nfc, items: seq<Json>, depth: nat) {
    forall i :: 0 <= i < |items| ==> IsCanonical(nfc, items[i], depth)
  }

  ghost predicate CanonicalMembers(nfc: Nfc, members: map<Str, Json>, depth: nat) {
    forall k :: k in members ==> NormalizedString(nfc, k) == Ok(k) && IsCanonical(nfc, members[k], depth)
  }

  lemma {:induction false} UnfoldIsCanonical(h: Heap, nfc: Nfc, v: Val, depth: nat)
    requires Closed(h) && Known(h, v) && depth <= MAX_DEPTH + 1 && NfcLaws(nfc)
    requires Unfold(h, nfc, v, depth).Ok?
    ensures IsCanonical(nfc, Unfold(h, nfc, v, depth).value, depth)
    decreases MAX_DEPTH + 1 - depth, 0
  {
    match v {
      case RefVal(id) =>
        match h[id] {
          case ListNode(items) => UnfoldItemsAreCanonical(h, nfc, items, depth + 1);
          case DictNode(entries) => UnfoldEntriesAreCanonical(h, nfc, entries, map[], depth + 1);
        }
      case StrVal(s) => NormalizedStringIsFixed(nfc, s);
      case _ =>
    }
  }

  lemma {:induction false} UnfoldItemsAreCanonical(h: Heap, nfc: Nfc, items: seq<Val>, depth: nat)
    requires Closed(h) && (forall i :: 0 <= i < |items| ==> Known(h, items[i])) && depth <= MAX_DEPTH + 1
             && NfcLaws(nfc)
    requires UnfoldItems(h, nfc, items, depth).Ok?
    ensures AllCanonical(nfc, UnfoldItems(h, nfc, items, depth).value, depth)
    decreases MAX_DEPTH + 1 - depth, 1 + |items|
  {
    if items != [] {
      UnfoldIsCanonical(h, nfc, items[0], depth);
      UnfoldItemsAreCanonical(h, nfc, items[1..], depth);
    }
  }

  lemma {:induction false} UnfoldEntriesAreCanonical(h: Heap, nfc: Nfc, entries: seq<(Val, Val)>,
                                                     result: map<Str, Json>, depth: nat)
    requires Closed(h) && (forall i :: 0 <= i < |entries| ==> Known(h, entries[i].1)) && depth <= MAX_DEPTH + 1
             && NfcLaws(nfc)
    requires UnfoldEntries(h, nfc, entries, result, depth).Ok? && CanonicalMembers(nfc, result, depth)
    ensures CanonicalMembers(nfc, UnfoldEntries(h, nfc, entries, result, depth).value, depth)
    decreases MAX_DEPTH + 1 - depth, 1 + |entries|
  {
    if entries != [] {
      NormalizedStringIsFixed(nfc, entries[0].0.s);
      UnfoldIsCanonical(h, nfc, entries[0].1, depth);
      var key := NormalizedString(nfc, entries[0].0.s).value;
      var item := Unfold(h, nfc, entries[0].1, depth).value;
      UnfoldEntriesAreCanonical(h, nfc, entries[1..], result[key := item], depth);
    }
  }

  /** Normalisation returns canonical values. */
  lemma NormalizeIsCanonical(h: Heap, nfc: Nfc, v: Val)
    requires Closed(h) && Known(h, v) && NfcLaws(nfc) && Norm(h, nfc, v, {}, 0).Ok?
    ensures IsCanonical(nfc, Norm(h, nfc, v, {}, 0).value, 0)
  {
    NormalizeUnfolds(h, nfc, v);
    UnfoldIsCanonical(h, nfc, v, 0);
  }

  lemma {:induction false} CanonicalIsFloatFree(nfc: Nfc, j: Json, depth: nat)
    requires IsCanonical(nfc, j, depth)
    ensures FloatFree(j)
    decreases j
  {
    match j {
      case Array(items) =>
        forall i | 0 <= i < |items|
          ensures FloatFree(items[i])
        {
          CanonicalIsFloatFree(nfc, items[i], depth + 1);
        }
      case Object(members) =>
        forall k | k in members
          ensures FloatFree(members[k])
        {
          CanonicalIsFloatFree(nfc, members[k], depth + 1);
        }
      case _ =>
    }
  }

  // ---- Normalising again ----

  /** The graph below `v` is a Python representation of the value `j`, with dictionaries in any order. */
  ghost predicate Represents(h: Heap, v: Val, j: Json)
    decreases j
  {
    match j
    case Null => v == NoneVal
    case Bool(b) => v == BoolVal(b)
    case Int(n) => v == IntVal(n)
    case String(s) => v == StrVal(s)
    case Array(items) =>
      v.RefVal? && v.id in h && h[v.id].ListNode? && |h[v.id].items| == |items|
      && forall i :: 0 <= i < |items| ==> Represents(h, h[v.id].items[i], items[i])
    case Object(members) =>
      v.RefVal? && v.id in h && h[v.id].DictNode? && ListsKeys(h[v.id].entries, members)
      && forall i :: 0 <= i < |h[v.id].entries| ==> Represents(h, h[v.id].entries[i].1, members[h[v.id].entries[i].0.s])
    case Float(_) => false
  }

  /** The entries list every key of the dictionary once. */
  ghost predicate ListsKeys(entries: seq<(Val, Val)>, members: map<Str, Json>) {
    && (forall i :: 0 <= i < |entries| ==> entries[i].0.StrVal? && entries[i].0.s in members)
    && (forall i, k :: 0 <= i < k < |entries| ==> entries[i].0 != entries[k].0)
    && (forall key :: key in members ==> exists i :: 0 <= i < |entries| && entries[i].0 == StrVal(key))
  }

  lemma {:induction false} CanonicalUnfoldsToItself(h: Heap, nfc: Nfc, v: Val, j: Json, depth: nat)
    requires Closed(h) && Known(h, v) && depth <= MAX_DEPTH && IsCanonical(nfc, j, depth) && Represents(h, v, j)
    ensures Unfold(h, nfc, v, depth) == Ok(j)
    decreases j, 1
  {
    match j {
      case Array(items) => CanonicalListUnfolds(h, nfc, v.id, items, j, depth);
      case Object(members) => CanonicalDictUnfolds(h, nfc, v.id, members, j, depth);
      case _ =>
    }
  }

  lemma {:induction false} CanonicalListUnfolds(h: Heap, nfc: Nfc, id: Ref, items: seq<Json>, j: Json, depth: nat)
    requires Closed(h) && depth <= MAX_DEPTH && j == Array(items)
    requires AllCanonical(nfc, items, depth + 1) && Represents(h, RefVal(id), j)
    ensures UnfoldItems(h, nfc, h[id].items, depth + 1) == Ok(items)
    decreases j, 0
  {
    var node := h[id].items;
    forall i | 0 <= i < |items|
      ensures Unfold(h, nfc, node[i], depth + 1) == Ok(items[i])
    {
      assert IsCanonical(nfc, items[i], depth + 1);
      assert items[i] < j;
      CanonicalUnfoldsToItself(h, nfc, node[i], items[i], depth + 1);
    }
    ItemsUnfoldTo(h, nfc, node, items, depth + 1);
  }

  lemma {:induction false} CanonicalDictUnfolds(h: Heap, nfc: Nfc, id: Ref, members: map<Str, Json>, j: Json,
                                                depth: nat)
    requires Closed(h) && depth <= MAX_DEPTH && j == Object(members)
    requires CanonicalMembers(nfc, members, depth + 1) && Represents(h, RefVal(id), j)
    ensures UnfoldEntries(h, nfc, h[id].entries, map[], depth + 1) == Ok(members)
    decreases j, 0
  {
    var entries := h[id].entries;
    forall i | 0 <= i < |entries|
      ensures UnfoldsToMember(h, nfc, entries[i], members, depth + 1)
    {
      var key := entries[i].0.s;
      assert IsCanonical(nfc, members[key], depth + 1);
      CanonicalUnfoldsToItself(h, nfc, entries[i].1, members[key], depth + 1);
    }
    ListedEntriesUnfold(h, nfc, entries, members, depth + 1);
  }

  /** The entry's key is normal, and its value unfolds to the member of that key. */
  ghost predicate UnfoldsToMember(h: Heap, nfc: Nfc, e: (Val, Val), members: map<Str, Json>, depth: nat)
    requires Closed(h) && Known(h, e.1) && depth <= MAX_DEPTH + 1
  {
    && e.0.StrVal? && e.0.s in members && NormalizedString(nfc, e.0.s) == Ok(e.0.s)
    && Unfold(h, nfc, e.1, depth) == Ok(members[e.0.s])
  }

  lemma ListedEntriesUnfold(h: Heap, nfc: Nfc, entries: seq<(Val, Val)>, members: map<Str, Json>, depth: nat)
    requires Closed(h) && (forall i :: 0 <= i < |entries| ==> Known(h, entries[i].1)) && depth <= MAX_DEPTH + 1
    requires ListsKeys(entries, members)
    requires forall i :: 0 <= i < |entries| ==> UnfoldsToMember(h, nfc, entries[i], members, depth)
    ensures UnfoldEntries(h, nfc, entries, map[], depth) == Ok(members)
  {
    EntriesUnfoldTo(h, nfc, entries, map[], members, depth);
  }

  lemma {:induction false} ItemsUnfoldTo(h: Heap, nfc: Nfc, vals: seq<Val>, items: seq<Json>, depth: nat)
    requires Closed(h) && (forall i :: 0 <= i < |vals| ==> Known(h, vals[i])) && depth <= MAX_DEPTH + 1
    requires |vals| == |items| && forall i :: 0 <= i < |vals| ==> Unfold(h, nfc, vals[i], depth) == Ok(items[i])
    ensures UnfoldItems(h, nfc, vals, depth) == Ok(items)
    decreases |vals|
  {
    if vals != [] {
      ItemsUnfoldTo(h, nfc, vals[1..], items[1..], depth);
      assert items == [items[0]] + items[1..];
    }
  }

  /** Entries whose keys are normal and new, and whose values unfold, fill the dictionary with those members. */
  lemma {:induction false} EntriesUnfoldTo(h: Heap, nfc: Nfc, entries: seq<(Val, Val)>, result: map<Str, Json>,
                                           members: map<Str, Json>, depth: nat)
    requires Closed(h) && (forall i :: 0 <= i < |entries| ==> Known(h, entries[i].1)) && depth <= MAX_DEPTH + 1
    requires forall i :: 0 <= i < |entries| ==>
               UnfoldsToMember(h, nfc, entries[i], members, depth) && entries[i].0.s !in result
    requires forall i, k :: 0 <= i < k < |entries| ==> entries[i].0 != entries[k].0
    requires forall k :: k in result ==> k in members && result[k] == members[k]
    requires forall k :: k in members ==> k in result || exists i :: 0 <= i < |entries| && entries[i].0 == StrVal(k)
    ensures UnfoldEntries(h, nfc, entries, result, depth) == Ok(members)
    decreases |entries|
  {
    if entries == [] {
      assert result == members;
    } else {
      var key, rest := entries[0].0.s, entries[1..];
      var result' := result[key := members[key]];
      assert UnfoldsToMember(h, nfc, entries[0], members, depth);
      forall i | 0 <= i < |rest|
        ensures UnfoldsToMember(h, nfc, rest[i], members, depth) && rest[i].0.s !in result'
      {
        assert rest[i] == entries[i + 1];
      }
      forall k | k in members
        ensures k in result' || exists i :: 0 <= i < |rest| && rest[i].0 == StrVal(k)
      {
        if k !in result' {
          var i :| 0 <= i < |entries| && entries[i].0 == StrVal(k);
          assert rest[i - 1] == entries[i];
        }
      }
      EntriesUnfoldTo(h, nfc, rest, result', members, depth);
    }
  }

  /** Normalisation is idempotent: any Python representation of a normalised value normalises to that value,
      in whatever order its dictionaries list their entries. */
  lemma NormalizeIsIdempotent(h: Heap, nfc: Nfc, v: Val, h': Heap, v': Val)
    requires Closed(h) && Known(h, v) && NfcLaws(nfc) && Norm(h, nfc, v, {}, 0).Ok?
    requires Closed(h') && Known(h', v') && Represents(h', v', Norm(h, nfc, v, {}, 0).value)
    ensures Norm(h', nfc, v', {}, 0) == Norm(h, nfc, v, {}, 0)
  {
    NormalizeIsCanonical(h, nfc, v);
    CanonicalUnfoldsToItself(h', nfc, v', Norm(h, nfc, v, {}, 0).value, 0);
    NormalizeUnfolds(h', nfc, v');
  }

  // ---- Insertion order ----

  /** The same graph, except that dictionaries may list their entries in another order. */
  ghost predicate Reordered(h: Heap, h': Heap) {
    && h.Keys == h'.Keys
    && forall id :: id in h ==>
         match h[id]
         case ListNode(items) => h'[id] == h[id]
         case DictNode(entries) => h'[id].DictNode? && multiset(h'[id].entries) == multiset(entries)
  }

  /** The entries are acceptable and the dictionary they make is `members`, stated without any order. */
  ghost predicate EntriesMean(h: Heap, nfc: Nfc, entries: seq<(Val, Val)>, members: map<Str, Json>, depth: nat)
    requires Closed(h) && (forall i :: 0 <= i < |entries| ==> Known(h, entries[i].1)) && depth <= MAX_DEPTH + 1
  {
    && (forall i :: 0 <= i < |entries| ==> EntryMeans(h, nfc, entries[i], members, depth))
    && (forall i, k :: 0 <= i < k < |entries| ==> KeyOf(nfc, entries[i]) != KeyOf(nfc, entries[k]))
    && (forall key :: key in members ==> exists i :: 0 <= i < |entries| && KeyOf(nfc, entries[i]) == key)
  }

  function KeyOf(nfc: Nfc, e: (Val, Val)): Str {
    if e.0.StrVal? then nfc(UnifyNewlines(e.0.s)) else []
  }

  ghost predicate EntryMeans(h: Heap, nfc: Nfc, e: (Val, Val), members: map<Str, Json>, depth: nat)
    requires Closed(h) && Known(h, e.1) && depth <= MAX_DEPTH + 1
  {
    && e.0.StrVal? && NormalizedString(nfc, e.0.s) == Ok(KeyOf(nfc, e)) && KeyOf(nfc, e) in members
    && Unfold(h, nfc, e.1, depth) == Ok(members[KeyOf(nfc, e)])
  }

  lemma HasKeyFromRest(nfc: Nfc, entries: seq<(Val, Val)>, k: Str)
    requires entries != []
    requires k == KeyOf(nfc, entries[0]) || exists i :: 0 <= i < |entries[1..]| && KeyOf(nfc, entries[1..][i]) == k
    ensures exists i :: 0 <= i < |entries| && KeyOf(nfc, entries[i]) == k
  {
    if k == KeyOf(nfc, entries[0]) {
      assert KeyOf(nfc, entries[0]) == k;
    } else {
      var i :| 0 <= i < |entries[1..]| && KeyOf(nfc, entries[1..][i]) == k;
      assert entries[i + 1] == entries[1..][i];
    }
  }

  lemma {:induction false} UnfoldedEntriesMean(h: Heap, nfc: Nfc, entries: seq<(Val, Val)>, result: map<Str, Json>,
                                               depth: nat)
    requires Closed(h) && (forall i :: 0 <= i < |entries| ==> Known(h, entries[i].1)) && depth <= MAX_DEPTH + 1
    requires UnfoldEntries(h, nfc, entries, result, depth).Ok?
    ensures var members := UnfoldEntries(h, nfc, entries, result, depth).value;
      && (forall i :: 0 <= i < |entries| ==>
            EntryMeans(h, nfc, entries[i], members, depth) && KeyOf(nfc, entries[i]) !in result)
      && (forall i, k :: 0 <= i < k < |entries| ==> KeyOf(nfc, entries[i]) != KeyOf(nfc, entries[k]))
      && (forall key :: key in result ==> key in members && members[key] == result[key])
      && (forall key :: key in members ==>
            key in result || exists i :: 0 <= i < |entries| && KeyOf(nfc, entries[i]) == key)
    decreases |entries|
  {
    if entries != [] {
      var key, rest := KeyOf(nfc, entries[0]), entries[1..];
      var item := Unfold(h, nfc, entries[0].1, depth).value;
      UnfoldedEntriesMean(h, nfc, rest, result[key := item], depth);
      var members := UnfoldEntries(h, nfc, entries, result, depth).value;
      forall k | k in members && k !in result
        ensures exists i :: 0 <= i < |entries| && KeyOf(nfc, entries[i]) == k
      {
        HasKeyFromRest(nfc, entries, k);
      }
      forall i | 0 <= i < |entries|
        ensures EntryMeans(h, nfc, entries[i], members, depth) && KeyOf(nfc, entries[i]) !in result
      {
        if i > 0 {
          assert entries[i] == rest[i - 1];
        }
      }
    }
  }

  lemma {:induction false} MeaningUnfolds(h: Heap, nfc: Nfc, entries: seq<(Val, Val)>, result: map<Str, Json>,
                                          members: map<Str, Json>, depth: nat)
    requires Closed(h) && (forall i :: 0 <= i < |entries| ==> Known(h, entries[i].1)) && depth <= MAX_DEPTH + 1
    requires forall i :: 0 <= i < |entries| ==>
               EntryMeans(h, nfc, entries[i], members, depth) && KeyOf(nfc, entries[i]) !in result
    requires forall i, k :: 0 <= i < k < |entries| ==> KeyOf(nfc, entries[i]) != KeyOf(nfc, entries[k])
    requires forall k :: k in result ==> k in members && result[k] == members[k]
    requires forall k :: k in members ==> k in result || exists i :: 0 <= i < |entries| && KeyOf(nfc, entries[i]) == k
    ensures UnfoldEntries(h, nfc, entries, result, depth) == Ok(members)
    decreases |entries|
  {
    if entries == [] {
      assert result == members;
    } else {
      var key, rest := KeyOf(nfc, entries[0]), entries[1..];
      var result' := result[key := members[key]];
      assert EntryMeans(h, nfc, entries[0], members, depth);
      forall i | 0 <= i < |rest|
        ensures EntryMeans(h, nfc, rest[i], members, depth) && KeyOf(nfc, rest[i]) !in result'
      {
        assert rest[i] == entries[i + 1];
      }
      forall k | k in members
        ensures k in result' || exists i :: 0 <= i < |rest| && KeyOf(nfc, rest[i]) == k
      {
        if k !in result' {
          var i :| 0 <= i < |entries| && KeyOf(nfc, entries[i]) == k;
          assert rest[i - 1] == entries[i];
        }
      }
      MeaningUnfolds(h, nfc, rest, result', members, depth);
    }
  }

  lemma {:induction false} DistinctMeansOnce(s: seq<(Val, Val)>)
    requires forall i, k :: 0 <= i < k < |s| ==> s[i] != s[k]
    ensures forall x :: multiset(s)[x] <= 1
  {
    if s != [] {
      var rest := s[1..];
      assert forall i, k :: 0 <= i < k < |rest| ==> rest[i] != rest[k];
      DistinctMeansOnce(rest);
      assert s == [s[0]] + rest;
      assert s[0] !in rest;
    }
  }

  lemma TwiceMeansTwo(s: seq<(Val, Val)>, i: nat, k: nat)
    requires i < k < |s| && s[i] == s[k]
    ensures multiset(s)[s[i]] >= 2
  {
    assert s == s[..k] + [s[k]] + s[k + 1..];
    assert s[i] in multiset(s[..k]);
  }

  lemma ReorderedMeans(h: Heap, nfc: Nfc, entries: seq<(Val, Val)>, entries': seq<(Val, Val)>, members: map<Str, Json>,
                       depth: nat)
    requires Closed(h) && (forall i :: 0 <= i < |entries| ==> Known(h, entries[i].1)) && depth <= MAX_DEPTH + 1
    requires (forall i :: 0 <= i < |entries'| ==> Known(h, entries'[i].1))
    requires multiset(entries') == multiset(entries) && EntriesMean(h, nfc, entries, members, depth)
    ensures EntriesMean(h, nfc, entries', members, depth)
  {
    forall i | 0 <= i < |entries'|
      ensures exists k :: 0 <= k < |entries| && entries[k] == entries'[i]
    {
      assert entries'[i] in multiset(entries');
      assert entries'[i] in multiset(entries);
    }
    DistinctMeansOnce(entries);
    forall i, k | 0 <= i < k < |entries'|
      ensures KeyOf(nfc, entries'[i]) != KeyOf(nfc, entries'[k])
    {
      if entries'[i] == entries'[k] {
        TwiceMeansTwo(entries', i, k);
      } else {
        var a :| 0 <= a < |entries| && entries[a] == entries'[i];
        var b :| 0 <= b < |entries| && entries[b] == entries'[k];
      }
    }
    forall key | key in members
      ensures exists i :: 0 <= i < |entries'| && KeyOf(nfc, entries'[i]) == key
    {
      var k :| 0 <= k < |entries| && KeyOf(nfc, entries[k]) == key;
      assert entries[k] in multiset(entries);
      assert entries[k] in multiset(entries');
      var i :| 0 <= i < |entries'| && entries'[i] == entries[k];
    }
  }

  lemma {:induction false} ReorderedUnfolds(h: Heap, h': Heap, nfc: Nfc, v: Val, depth: nat)
    requires Closed(h) && Closed(h') && Reordered(h, h') && Known(h, v) && depth <= MAX_DEPTH + 1
    requires Unfold(h, nfc, v, depth).Ok?
    ensures Unfold(h', nfc, v, depth) == Unfold(h, nfc, v, depth)
    decreases MAX_DEPTH + 1 - depth, 0
  {
    if v.RefVal? {
      match h[v.id] {
        case ListNode(items) => ReorderedItemsUnfold(h, h', nfc, items, depth + 1);
        case DictNode(entries) => ReorderedEntriesUnfold(h, h', nfc, entries, h'[v.id].entries, depth + 1);
      }
    }
  }

  lemma {:induction false} ReorderedItemsUnfold(h: Heap, h': Heap, nfc: Nfc, items: seq<Val>, depth: nat)
    requires Closed(h) && Closed(h') && Reordered(h, h') && depth <= MAX_DEPTH + 1
    requires forall i :: 0 <= i < |items| ==> Known(h, items[i])
    requires UnfoldItems(h, nfc, items, depth).Ok?
    ensures UnfoldItems(h', nfc, items, depth) == UnfoldItems(h, nfc, items, depth)
    decreases MAX_DEPTH + 1 - depth, 1 + |items|
  {
    if items != [] {
      ReorderedUnfolds(h, h', nfc, items[0], depth);
      ReorderedItemsUnfold(h, h', nfc, items[1..], depth);
    }
  }

  lemma {:induction false} ReorderedEntriesUnfold(h: Heap, h': Heap, nfc: Nfc, entries: seq<(Val, Val)>,
                                                  entries': seq<(Val, Val)>, depth: nat)
    requires Closed(h) && Closed(h') && Reordered(h, h') && depth <= MAX_DEPTH + 1
    requires forall i :: 0 <= i < |entries| ==> Known(h, entries[i].1)
    requires forall i :: 0 <= i < |entries'| ==> Known(h', entries'[i].1)
    requires multiset(entries') == multiset(entries)
    requires UnfoldEntries(h, nfc, entries, map[], depth).Ok?
    ensures UnfoldEntries(h', nfc, entries', map[], depth) == UnfoldEntries(h, nfc, entries, map[], depth)
    decreases MAX_DEPTH + 1 - depth, 1 + |entries|
  {
    var members := UnfoldEntries(h, nfc, entries, map[], depth).value;
    UnfoldedEntriesMean(h, nfc, entries, map[], depth);
    ReorderedMeans(h, nfc, entries, entries', members, depth);
    forall i | 0 <= i < |entries'|
      ensures EntryMeans(h', nfc, entries'[i], members, depth)
    {
      assert EntryMeans(h, nfc, entries'[i], members, depth);
      ReorderedUnfolds(h, h', nfc, entries'[i].1, depth);
    }
    MeaningUnfolds(h', nfc, entries', map[], members, depth);
  }

  /** The order in which dictionaries list their entries does not affect the normalised value, nor whether
      there is one. */
  lemma OrderDoesNotMatter(h: Heap, h': Heap, nfc: Nfc, v: Val)
    requires Closed(h) && Closed(h') && Reordered(h, h') && Known(h, v)
    ensures Norm(h, nfc, v, {}, 0).Ok? <==> Norm(h', nfc, v, {}, 0).Ok?
    ensures Norm(h, nfc, v, {}, 0).Ok? ==> Norm(h', nfc, v, {}, 0) == Norm(h, nfc, v, {}, 0)
  {
    NormalizeUnfolds(h, nfc, v);
    NormalizeUnfolds(h', nfc, v);
    if Unfold(h, nfc, v, 0).Ok? {
      ReorderedUnfolds(h, h', nfc, v, 0);
    }
    if Unfold(h', nfc, v, 0).Ok? {
      ReorderedIsSymmetric(h, h');
      ReorderedUnfolds(h', h, nfc, v, 0);
    }
  }

  lemma ReorderedIsSymmetric(h: Heap, h': Heap)
    requires Reordered(h, h')
    ensures Reordered(h', h)
  {
  }

  // ---- Canonical text ----

  /** Reading back the canonical text of a Python value gives its normalised value, so two Python values with
      the same canonical text have the same normalised value. */
  lemma CanonicalTextDetermines(h: Heap, nfc: Nfc, v: Val, h': Heap, v': Val)
    requires Closed(h) && Known(h, v) && Closed(h') && Known(h', v') && NfcLaws(nfc)
    requires Norm(h, nfc, v, {}, 0).Ok? && Norm(h', nfc, v', {}, 0).Ok?
    ensures Loads(CanonicalText(Norm(h, nfc, v, {}, 0).value)) == Value(Norm(h, nfc, v, {}, 0).value)
    ensures CanonicalText(Norm(h, nfc, v, {}, 0).value) == CanonicalText(Norm(h', nfc, v', {}, 0).value)
            <==> Norm(h, nfc, v, {}, 0) == Norm(h', nfc, v', {}, 0)
  {
    var j, j' := Norm(h, nfc, v, {}, 0).value, Norm(h', nfc, v', {}, 0).value;
    NormalizeIsCanonical(h, nfc, v);
    NormalizeIsCanonical(h', nfc, v');
    CanonicalIsFloatFree(nfc, j, 0);
    CanonicalIsFloatFree(nfc, j', 0);
    CanonicalTextLoads(j);
    if CanonicalText(j) == CanonicalText(j') {
      CanonicalTextIsInjective(j, j');
    }
  }
}
