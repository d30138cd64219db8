/** What `_normalize` makes of an object graph, written out. */
module NormalForms {
  import opened JsonText
  import opened Normalize
  import opened CanonicalForm

  /** A string with unified line ends, composed. */
  function NormalText(nfc: Nfc, s: Str): Str {
    nfc(Replace(Replace(s, [0x0D, 0x0A], [0x0A]), [0x0D], [0x0A]))
  }

  /** A string that UTF-8 can encode: no surrogates. */
  predicate Encodable(s: Str) {
    forall c :: c in s ==> c < 0xD800 || 0xDFFF < c
  }

  lemma StringExactly(nfc: Nfc, s: Str, t: Str)
    ensures NormalizedString(nfc, s) == Ok(t) <==> t == NormalText(nfc, s) && Encodable(t)
  {
    UnifyIsReplace(s);
    var r := NormalText(nfc, s);
    if i :| 0 <= i < |r| && (HighSurrogate(r[i]) || LowSurrogate(r[i])) {
      assert r[i] in r;
    }
  }

  /** The normalised texts of the keys of a dictionary are encodable and differ. */
  ghost predicate KeysFit(nfc: Nfc, entries: seq<(Val, Val)>) {
    && (forall i :: 0 <= i < |entries| ==> entries[i].0.StrVal? && Encodable(NormalText(nfc, entries[i].0.s)))
    && (forall i, k :: 0 <= i < k < |entries| ==>
          NormalText(nfc, entries[i].0.s) != NormalText(nfc, entries[k].0.s))
  }

  /** The value is the normal form of the graph below `v`, at this depth: nothing lies deeper than 128, integers fit 64
      bits, strings and keys are normalised, and keys do not collide. */
  ghost predicate IsForm(h: Heap, nfc: Nfc, v: Val, j: Json, depth: nat)
    requires Closed(h) && Known(h, v)
    decreases if depth <= 128 then 129 - depth else 0
  {
    depth <= 128 &&
    match v
    case NoneVal => j == Null
    case BoolVal(b) => j == Bool(b)
    case IntVal(n) => j == Int(n) && -9223372036854775808 <= n <= 9223372036854775807
    case StrVal(s) => j == String(NormalText(nfc, s)) && Encodable(NormalText(nfc, s))
    case FloatVal => false
    case OtherVal => false
    case RefVal(id) =>
      match h[id]
      case ListNode(items) =>
        && j.Array? && |j.items| == |items|
        && forall i :: 0 <= i < |items| ==> IsForm(h, nfc, items[i], j.items[i], depth + 1)
      case DictNode(entries) =>
        && j.Object? && KeysFit(nfc, entries)
        && (forall t :: t in j.members <==> exists i :: 0 <= i < |entries| && NormalText(nfc, entries[i].0.s) == t)
        && (forall i :: 0 <= i < |entries| ==>
              IsForm(h, nfc, entries[i].1, j.members[NormalText(nfc, entries[i].0.s)], depth + 1))
  }

  // ---- Lists ----

  ghost predicate AreForms(h: Heap, nfc: Nfc, items: seq<Val>, js: seq<Json>, depth: nat)
    requires Closed(h) && forall i :: 0 <= i < |items| ==> Known(h, items[i])
  {
    |js| == |items| && forall i :: 0 <= i < |items| ==> IsForm(h, nfc, items[i], js[i], depth)
  }

  lemma FormsUnfold(h: Heap, nfc: Nfc, items: seq<Val>, js: seq<Json>, depth: nat)
    requires Closed(h) && (forall i :: 0 <= i < |items| ==> Known(h, items[i])) && items != []
    ensures AreForms(h, nfc, items, js, depth) <==>
            js != [] && IsForm(h, nfc, items[0], js[0], depth) && AreForms(h, nfc, items[1..], js[1..], depth)
  {
    if js != [] && IsForm(h, nfc, items[0], js[0], depth) && AreForms(h, nfc, items[1..], js[1..], depth) {
      forall i | 0 <= i < |items|
        ensures IsForm(h, nfc, items[i], js[i], depth)
      {
        if i > 0 {
          assert items[1..][i - 1] == items[i] && js[1..][i - 1] == js[i];
        }
      }
    }
  }

  // ---- Dictionaries ----

  /** What the entries add to a dictionary. */
  ghost predicate Adds(h: Heap, nfc: Nfc, entries: seq<(Val, Val)>, before: map<Str, Json>, after: map<Str, Json>,
                       depth: nat)
    requires Closed(h) && forall i :: 0 <= i < |entries| ==> Known(h, entries[i].1)
  {
    && KeysFit(nfc, entries)
    && (forall i :: 0 <= i < |entries| ==> AddsOne(h, nfc, entries[i], before, after, depth))
    && (forall t :: t in before ==> t in after && after[t] == before[t])
    && (forall t :: t in after && t !in before ==> IsKey(nfc, entries, t))
  }

  ghost predicate AddsOne(h: Heap, nfc: Nfc, e: (Val, Val), before: map<Str, Json>, after: map<Str, Json>, depth: nat)
    requires Closed(h) && Known(h, e.1)
  {
    e.0.StrVal? &&
    var t := NormalText(nfc, e.0.s);
    t !in before && t in after && IsForm(h, nfc, e.1, after[t], depth)
  }

  ghost predicate IsKey(nfc: Nfc, entries: seq<(Val, Val)>, t: Str) {
    exists i :: 0 <= i < |entries| && entries[i].0.StrVal? && NormalText(nfc, entries[i].0.s) == t
  }

  lemma AddsRest(h: Heap, nfc: Nfc, entries: seq<(Val, Val)>, before: map<Str, Json>, after: map<Str, Json>,
                 depth: nat, t: Str)
    requires Closed(h) && (forall i :: 0 <= i < |entries| ==> Known(h, entries[i].1)) && entries != []
    requires Adds(h, nfc, entries, before, after, depth) && t == NormalText(nfc, entries[0].0.s)
    ensures t !in before && t in after && IsForm(h, nfc, entries[0].1, after[t], depth)
    ensures Adds(h, nfc, entries[1..], before[t := after[t]], after, depth)
  {
    var rest := entries[1..];
    assert AddsOne(h, nfc, entries[0], before, after, depth);
    forall i | 0 <= i < |rest|
      ensures AddsOne(h, nfc, rest[i], before[t := after[t]], after, depth)
    {
      assert AddsOne(h, nfc, entries[i + 1], before, after, depth);
    }
    forall u | u in after && u !in before[t := after[t]]
      ensures IsKey(nfc, rest, u)
    {
      KeyOfRest(nfc, entries, u);
    }
  }

  lemma KeyOfRest(nfc: Nfc, entries: seq<(Val, Val)>, u: Str)
    requires entries != [] && IsKey(nfc, entries, u)
    requires entries[0].0.StrVal? ==> NormalText(nfc, entries[0].0.s) != u
    ensures IsKey(nfc, entries[1..], u)
  {
    var i :| 0 <= i < |entries| && entries[i].0.StrVal? && NormalText(nfc, entries[i].0.s) == u;
    assert entries[1..][i - 1] == entries[i];
  }

  lemma RestAdds(h: Heap, nfc: Nfc, entries: seq<(Val, Val)>, before: map<Str, Json>, after: map<Str, Json>,
                 depth: nat, t: Str, j: Json)
    requires Closed(h) && (forall i :: 0 <= i < |entries| ==> Known(h, entries[i].1)) && entries != []
    requires entries[0].0.StrVal? && t == NormalText(nfc, entries[0].0.s) && Encodable(t) && t !in before
    requires IsForm(h, nfc, entries[0].1, j, depth) && Adds(h, nfc, entries[1..], before[t := j], after, depth)
    ensures Adds(h, nfc, entries, before, after, depth)
  {
    var rest := entries[1..];
    assert t in before[t := j] && after[t] == j;
    forall i | 0 <= i < |entries|
      ensures AddsOne(h, nfc, entries[i], before, after, depth)
      ensures Encodable(NormalText(nfc, entries[i].0.s))
      ensures i > 0 ==> NormalText(nfc, entries[i].0.s) != t
    {
      if i > 0 {
        assert rest[i - 1] == entries[i];
        assert AddsOne(h, nfc, rest[i - 1], before[t := j], after, depth);
      }
    }
    forall i, k | 0 <= i < k < |entries|
      ensures NormalText(nfc, entries[i].0.s) != NormalText(nfc, entries[k].0.s)
    {
      if i > 0 {
        assert rest[i - 1] == entries[i] && rest[k - 1] == entries[k];
      }
    }
    forall u | u in before
      ensures u in after && after[u] == before[u]
    {
      assert u in before[t := j] && before[t := j][u] == before[u];
    }
    forall u | u in after && u !in before
      ensures IsKey(nfc, entries, u)
    {
      if u != t {
        assert u !in before[t := j] && IsKey(nfc, rest, u);
        var i :| 0 <= i < |rest| && rest[i].0.StrVal? && NormalText(nfc, rest[i].0.s) == u;
        assert entries[i + 1] == rest[i];
      }
    }
  }

  // ---- The form is what unfolding returns ----

  lemma ListForm(h: Heap, nfc: Nfc, id: Ref, items: seq<Val>, j: Json, depth: nat)
    requires Closed(h) && id in h && h[id] == ListNode(items)
    ensures IsForm(h, nfc, RefVal(id), j, depth) <==>
            depth <= 128 && j.Array? && AreForms(h, nfc, items, j.items, depth + 1)
  {
  }

  lemma DictForm(h: Heap, nfc: Nfc, id: Ref, entries: seq<(Val, Val)>, j: Json, depth: nat)
    requires Closed(h) && id in h && h[id] == DictNode(entries)
    ensures IsForm(h, nfc, RefVal(id), j, depth) <==>
            depth <= 128 && j.Object? && Adds(h, nfc, entries, map[], j.members, depth + 1)
  {
    if IsForm(h, nfc, RefVal(id), j, depth) {
      FormAdds(h, nfc, entries, j.members, depth + 1);
    }
    if depth <= 128 && j.Object? && Adds(h, nfc, entries, map[], j.members, depth + 1) {
      forall i | 0 <= i < |entries|
        ensures NormalText(nfc, entries[i].0.s) in j.members
        ensures IsForm(h, nfc, entries[i].1, j.members[NormalText(nfc, entries[i].0.s)], depth + 1)
      {
        assert AddsOne(h, nfc, entries[i], map[], j.members, depth + 1);
      }
      forall t | t in j.members
        ensures exists i :: 0 <= i < |entries| && NormalText(nfc, entries[i].0.s) == t
      {
        assert IsKey(nfc, entries, t);
      }
    }
  }

  lemma FormAdds(h: Heap, nfc: Nfc, entries: seq<(Val, Val)>, members: map<Str, Json>, depth: nat)
    requires Closed(h) && (forall i :: 0 <= i < |entries| ==> Known(h, entries[i].1)) && KeysFit(nfc, entries)
    requires forall t :: t in members <==> exists i :: 0 <= i < |entries| && NormalText(nfc, entries[i].0.s) == t
    requires forall i :: 0 <= i < |entries| ==>
               IsForm(h, nfc, entries[i].1, members[NormalText(nfc, entries[i].0.s)], depth)
    ensures Adds(h, nfc, entries, map[], members, depth)
  {
    forall t | t in members
      ensures IsKey(nfc, entries, t)
    {
      var i :| 0 <= i < |entries| && NormalText(nfc, entries[i].0.s) == t;
      assert entries[i].0.StrVal?;
    }
  }

  /** A graph unfolds to a value exactly when the value is its normal form. */
  lemma {:induction false} UnfoldsExactly(h: Heap, nfc: Nfc, v: Val, j: Json, depth: nat)
    requires Closed(h) && Known(h, v) && depth <= MAX_DEPTH + 1
    ensures Unfold(h, nfc, v, depth) == Ok(j) <==> IsForm(h, nfc, v, j, depth)
    decreases MAX_DEPTH + 1 - depth, 0
  {
    if depth <= MAX_DEPTH {
      if v.RefVal? {
        match h[v.id] {
          case ListNode(items) =>
            ListForm(h, nfc, v.id, items, j, depth);
            if j.Array? {
              ItemsUnfoldExactly(h, nfc, items, j.items, depth + 1);
            }
          case DictNode(entries) =>
            DictForm(h, nfc, v.id, entries, j, depth);
            if j.Object? {
              EntriesUnfoldExactly(h, nfc, entries, map[], j.members, depth + 1);
            }
        }
      } else {
        ScalarsExactly(h, nfc, v, j, depth);
      }
    }
  }

  lemma ScalarsExactly(h: Heap, nfc: Nfc, v: Val, j: Json, depth: nat)
    requires Closed(h) && !v.RefVal? && depth <= MAX_DEPTH
    ensures Unfold(h, nfc, v, depth) == Ok(j) <==> IsForm(h, nfc, v, j, depth)
  {
    if v.StrVal? {
      StringExactly(nfc, v.s, NormalText(nfc, v.s));
      if NormalizedString(nfc, v.s).Ok? {
        StringExactly(nfc, v.s, NormalizedString(nfc, v.s).value);
      }
    }
  }

  lemma {:induction false} ItemsUnfoldExactly(h: Heap, nfc: Nfc, items: seq<Val>, js: seq<Json>, depth: nat)
    requires Closed(h) && (forall i :: 0 <= i < |items| ==> Known(h, items[i])) && depth <= MAX_DEPTH + 1
    ensures UnfoldItems(h, nfc, items, depth) == Ok(js) <==> AreForms(h, nfc, items, js, depth)
    decreases MAX_DEPTH + 1 - depth, 1 + |items|
  {
    if items != [] {
      FormsUnfold(h, nfc, items, js, depth);
      if js != [] {
        UnfoldsExactly(h, nfc, items[0], js[0], depth);
        ItemsUnfoldExactly(h, nfc, items[1..], js[1..], depth);
        assert js == [js[0]] + js[1..];
      }
    }
  }

  lemma {:induction false} EntriesUnfoldExactly(h: Heap, nfc: Nfc, entries: seq<(Val, Val)>, before: map<Str, Json>,
                                                after: map<Str, Json>, depth: nat)
    requires Closed(h) && (forall i :: 0 <= i < |entries| ==> Known(h, entries[i].1)) && depth <= MAX_DEPTH + 1
    ensures UnfoldEntries(h, nfc, entries, before, depth) == Ok(after) <==> Adds(h, nfc, entries, before, after, depth)
    decreases MAX_DEPTH + 1 - depth, 1 + |entries|
  {
    if entries == [] {
      assert Adds(h, nfc, entries, before, after, depth) ==> after == before;
    } else if FirstFits(nfc, entries, before) {
      var t := NormalText(nfc, entries[0].0.s);
      var item := Unfold(h, nfc, entries[0].1, depth);
      StringExactly(nfc, entries[0].0.s, t);
      if item.Ok? {
        UnfoldsExactly(h, nfc, entries[0].1, item.value, depth);
        EntriesUnfoldExactly(h, nfc, entries[1..], before[t := item.value], after, depth);
        if Adds(h, nfc, entries[1..], before[t := item.value], after, depth) {
          RestAdds(h, nfc, entries, before, after, depth, t, item.value);
        }
      }
      if Adds(h, nfc, entries, before, after, depth) {
        AddsRest(h, nfc, entries, before, after, depth, t);
        UnfoldsExactly(h, nfc, entries[0].1, after[t], depth);
      }
    } else {
      MisfitFails(h, nfc, entries, before, after, depth);
    }
  }

  /** The first key is a string that can be added. */
  predicate FirstFits(nfc: Nfc, entries: seq<(Val, Val)>, before: map<Str, Json>)
    requires entries != []
  {
    && entries[0].0.StrVal? && Encodable(NormalText(nfc, entries[0].0.s))
    && NormalText(nfc, entries[0].0.s) !in before
  }

  lemma MisfitFails(h: Heap, nfc: Nfc, entries: seq<(Val, Val)>, before: map<Str, Json>, after: map<Str, Json>,
                    depth: nat)
    requires Closed(h) && (forall i :: 0 <= i < |entries| ==> Known(h, entries[i].1)) && depth <= MAX_DEPTH + 1
    requires entries != [] && !FirstFits(nfc, entries, before)
    ensures UnfoldEntries(h, nfc, entries, before, depth).Fail? && !Adds(h, nfc, entries, before, after, depth)
  {
    assert Adds(h, nfc, entries, before, after, depth) ==> AddsOne(h, nfc, entries[0], before, after, depth);
    if entries[0].0.StrVal? && NormalizedString(nfc, entries[0].0.s).Ok? {
      StringExactly(nfc, entries[0].0.s, NormalizedString(nfc, entries[0].0.s).value);
    }
  }

  /** `_normalize` returns a value exactly when that is the normal form of the graph, cycles and all. */
  lemma NormalizesExactly(h: Heap, nfc: Nfc, v: Val, j: Json)
    requires Closed(h) && Known(h, v)
    ensures Norm(h, nfc, v, {}, 0) == Ok(j) <==> IsForm(h, nfc, v, j, 0)
  {
    NormalizeUnfolds(h, nfc, v);
    UnfoldsExactly(h, nfc, v, j, 0);
  }
}
