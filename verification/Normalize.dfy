/** Normalisation of Python object graphs to canonical JSON values: `_normalized_string` and `_normalize`. */
module Normalize {
  import opened JsonText
  import opened JsonRoundTrip

  const MIN_INTEGER: int := -0x8000_0000_0000_0000
  const MAX_INTEGER: int := 0x7fff_ffff_ffff_ffff
  const MAX_DEPTH: nat := 128
  const CARRIAGE_RETURN: CodePoint := 0x0D

  /** The identity of a list, tuple or dictionary object. */
  type Ref = int

  datatype Val = NoneVal | BoolVal(b: bool) | IntVal(n: int) | StrVal(s: Str) | FloatVal | OtherVal | RefVal(id: Ref)

  /** A container: a list or tuple, or a dictionary in insertion order.  Containers may share and cycle. */
  datatype Node = ListNode(items: seq<Val>) | DictNode(entries: seq<(Val, Val)>)

  type Heap = map<Ref, Node>

  /** Every reference in the graph refers to an object. */
  ghost predicate Closed(h: Heap) {
    forall id :: id in h ==>
      match h[id]
      case ListNode(items) => forall i :: 0 <= i < |items| && items[i].RefVal? ==> items[i].id in h
      case DictNode(entries) => forall i :: 0 <= i < |entries| && entries[i].1.RefVal? ==> entries[i].1.id in h
  }

  predicate Known(h: Heap, v: Val) {
    v.RefVal? ==> v.id in h
  }

  datatype Error = TooDeep | IntegerRange | BadString | Cycle | KeyNotString | KeyCollision | FloatNotAllowed | NotJson

  datatype Outcome<T> = Ok(value: T) | Fail(error: Error)

  /** Canonical composition (NFC of UAX #15), as a parameter. */
  type Nfc = Str -> Str

  // ---- Strings ----

  /** `\r\n` and `\r` become `\n`. */
  function UnifyNewlines(s: Str): Str {
    if s == [] then []
    else if s[0] == CARRIAGE_RETURN then
      [LINE_FEED] + UnifyNewlines(if |s| >= 2 && s[1] == LINE_FEED then s[2..] else s[1..])
    else [s[0]] + UnifyNewlines(s[1..])
  }

  predicate HasSurrogate(s: Str) {
    exists i :: 0 <= i < |s| && (HighSurrogate(s[i]) || LowSurrogate(s[i]))
  }

  function NormalizedString(nfc: Nfc, s: Str): Outcome<Str> {
    var r := nfc(UnifyNewlines(s));
    if HasSurrogate(r) then Fail(BadString) else Ok(r)
  }

  // ---- Graphs ----

  /** `_normalize` as a function of the graph, the set of containers on the current path, and the depth. */
  function Norm(h: Heap, nfc: Nfc, v: Val, active: set<Ref>, depth: nat): Outcome<Json>
    requires Closed(h) && Known(h, v) && depth <= MAX_DEPTH + 1
    decreases MAX_DEPTH + 1 - depth, 0
  {
    if depth > MAX_DEPTH then Fail(TooDeep)
    else match v
      case NoneVal => Ok(Null)
      case BoolVal(b) => Ok(Bool(b))
      case IntVal(n) => if MIN_INTEGER <= n <= MAX_INTEGER then Ok(Int(n)) else Fail(IntegerRange)
      case StrVal(s) =>
        var r := NormalizedString(nfc, s);
        if r.Fail? then Fail(r.error) else Ok(String(r.value))
      case FloatVal => Fail(FloatNotAllowed)
      case OtherVal => Fail(NotJson)
      case RefVal(id) =>
        if id in active then Fail(Cycle)
        else match h[id]
          case ListNode(items) =>
            var r := NormItems(h, nfc, items, active + {id}, depth + 1);
            if r.Fail? then Fail(r.error) else Ok(Array(r.value))
          case DictNode(entries) =>
            var r := NormEntries(h, nfc, entries, map[], active + {id}, depth + 1);
            if r.Fail? then Fail(r.error) else Ok(Object(r.value))
  }

  function NormItems(h: Heap, nfc: Nfc, items: seq<Val>, active: set<Ref>, depth: nat): Outcome<seq<Json>>
    requires Closed(h) && (forall i :: 0 <= i < |items| ==> Known(h, items[i])) && depth <= MAX_DEPTH + 1
    decreases MAX_DEPTH + 1 - depth, 1 + |items|
  {
    if items == [] then Ok([])
    else
      var first := Norm(h, nfc, items[0], active, depth);
      if first.Fail? then Fail(first.error)
      else
        var more := NormItems(h, nfc, items[1..], active, depth);
        if more.Fail? then more else Ok([first.value] + more.value)
  }

  function NormEntries(h: Heap, nfc: Nfc, entries: seq<(Val, Val)>, result: map<Str, Json>, active: set<Ref>,
                       depth: nat)
    : Outcome<map<Str, Json>>
    requires Closed(h) && (forall i :: 0 <= i < |entries| ==> Known(h, entries[i].1)) && depth <= MAX_DEPTH + 1
    decreases MAX_DEPTH + 1 - depth, 1 + |entries|
  {
    if entries == [] then Ok(result)
    else if !entries[0].0.StrVal? then Fail(KeyNotString)
    else
      var key := NormalizedString(nfc, entries[0].0.s);
      if key.Fail? then Fail(key.error)
      else if key.value in result then Fail(KeyCollision)
      else
        var item := Norm(h, nfc, entries[0].1, active, depth);
        if item.Fail? then Fail(item.error)
        else NormEntries(h, nfc, entries[1..], result[key.value := item.value], active, depth)
  }

  /** The recursion of `_normalize` with the shared mutable set of active containers, which every exit restores. */
  class Normalizer {
    var active: set<Ref>

    constructor ()
      ensures active == {}
    {
      active := {};
    }

    method Normalize(h: Heap, nfc: Nfc, v: Val, depth: nat) returns (r: Outcome<Json>)
      requires Closed(h) && Known(h, v) && depth <= MAX_DEPTH + 1
      modifies this
      ensures active == old(active)
      ensures r == Norm(h, nfc, v, old(active), depth)
      decreases MAX_DEPTH + 1 - depth, 0
    {
      if depth > MAX_DEPTH {
        return Fail(TooDeep);
      }
      match v {
        case NoneVal => return Ok(Null);
        case BoolVal(b) => return Ok(Bool(b));
        case IntVal(n) =>
          if MIN_INTEGER <= n <= MAX_INTEGER { return Ok(Int(n)); }
          return Fail(IntegerRange);
        case StrVal(s) =>
          var text := NormalizedString(nfc, s);
          if text.Fail? { return Fail(text.error); }
          return Ok(String(text.value));
        case FloatVal => return Fail(FloatNotAllowed);
        case OtherVal => return Fail(NotJson);
        case RefVal(id) =>
          if id in active {
            return Fail(Cycle);
          }
          active := active + {id};
          match h[id] {
            case ListNode(items) => r := NormalizeItems(h, nfc, items, depth + 1);
            case DictNode(entries) => r := NormalizeEntries(h, nfc, entries, depth + 1);
          }
          active := active - {id};
      }
    }

    method NormalizeItems(h: Heap, nfc: Nfc, items: seq<Val>, depth: nat) returns (r: Outcome<Json>)
      requires Closed(h) && (forall i :: 0 <= i < |items| ==> Known(h, items[i])) && depth <= MAX_DEPTH + 1
      modifies this
      ensures active == old(active)
      ensures var items' := NormItems(h, nfc, items, old(active), depth);
        r == if items'.Fail? then Fail(items'.error) else Ok(Array(items'.value))
      decreases MAX_DEPTH + 1 - depth, 1
    {
      var list: seq<Json> := [];
      ghost var all := NormItems(h, nfc, items, old(active), depth);
      assert items[0..] == items;
      assert all.Ok? ==> list + all.value == all.value;
      for i := 0 to |items|
        invariant active == old(active)
        invariant var rest := NormItems(h, nfc, items[i..], old(active), depth);
          all == if rest.Fail? then rest else Ok(list + rest.value)
      {
        assert items[i..][0] == items[i] && items[i..][1..] == items[i + 1..];
        ghost var more := NormItems(h, nfc, items[i + 1..], old(active), depth);
        var item := Normalize(h, nfc, items[i], depth);
        if item.Fail? {
          return Fail(item.error);
        }
        assert more.Ok? ==> list + ([item.value] + more.value) == list + [item.value] + more.value;
        list := list + [item.value];
      }
      assert list + [] == list;
      r := Ok(Array(list));
    }

    method NormalizeEntries(h: Heap, nfc: Nfc, entries: seq<(Val, Val)>, depth: nat) returns (r: Outcome<Json>)
      requires Closed(h) && (forall i :: 0 <= i < |entries| ==> Known(h, entries[i].1)) && depth <= MAX_DEPTH + 1
      modifies this
      ensures active == old(active)
      ensures var members := NormEntries(h, nfc, entries, map[], old(active), depth);
        r == if members.Fail? then Fail(members.error) else Ok(Object(members.value))
      decreases MAX_DEPTH + 1 - depth, 1
    {
      var result: map<Str, Json> := map[];
      ghost var all := NormEntries(h, nfc, entries, map[], old(active), depth);
      assert entries[0..] == entries;
      for i := 0 to |entries|
        invariant active == old(active)
        invariant all == NormEntries(h, nfc, entries[i..], result, old(active), depth)
      {
        assert entries[i..][0] == entries[i] && entries[i..][1..] == entries[i + 1..];
        if !entries[i].0.StrVal? {
          return Fail(KeyNotString);
        }
        var key := NormalizedString(nfc, entries[i].0.s);
        if key.Fail? {
          return Fail(key.error);
        }
        if key.value in result {
          return Fail(KeyCollision);
        }
        var item := Normalize(h, nfc, entries[i].1, depth);
        if item.Fail? {
          return Fail(item.error);
        }
        result := result[key.value := item.value];
      }
      r := Ok(Object(result));
    }
  }

  // ---- The meaning of a graph ----

  /** The tree an object graph unfolds to, without looking at identities at all: only the depth limit stops it. */
  function Unfold(h: Heap, nfc: Nfc, v: Val, depth: nat): Outcome<Json>
    requires Closed(h) && Known(h, v) && depth <= MAX_DEPTH + 1
    decreases MAX_DEPTH + 1 - depth, 0
  {
    if depth > MAX_DEPTH then Fail(TooDeep)
    else if !v.RefVal? then Norm(h, nfc, v, {}, depth)
    else match h[v.id]
      case ListNode(items) =>
        var r := UnfoldItems(h, nfc, items, depth + 1);
        if r.Fail? then Fail(r.error) else Ok(Array(r.value))
      case DictNode(entries) =>
        var r := UnfoldEntries(h, nfc, entries, map[], depth + 1);
        if r.Fail? then Fail(r.error) else Ok(Object(r.value))
  }

  function UnfoldItems(h: Heap, nfc: Nfc, items: seq<Val>, depth: nat): Outcome<seq<Json>>
    requires Closed(h) && (forall i :: 0 <= i < |items| ==> Known(h, items[i])) && depth <= MAX_DEPTH + 1
    decreases MAX_DEPTH + 1 - depth, 1 + |items|
  {
    if items == [] then Ok([])
    else
      var first := Unfold(h, nfc, items[0], depth);
      if first.Fail? then Fail(first.error)
      else
        var more := UnfoldItems(h, nfc, items[1..], depth);
        if more.Fail? then more else Ok([first.value] + more.value)
  }

  function UnfoldEntries(h: Heap, nfc: Nfc, entries: seq<(Val, Val)>, result: map<Str, Json>,
                         depth: nat): Outcome<map<Str, Json>>
    requires Closed(h) && (forall i :: 0 <= i < |entries| ==> Known(h, entries[i].1)) && depth <= MAX_DEPTH + 1
    decreases MAX_DEPTH + 1 - depth, 1 + |entries|
  {
    if entries == [] then Ok(result)
    else if !entries[0].0.StrVal? then Fail(KeyNotString)
    else
      var key := NormalizedString(nfc, entries[0].0.s);
      if key.Fail? then Fail(key.error)
      else if key.value in result then Fail(KeyCollision)
      else
        var item := Unfold(h, nfc, entries[0].1, depth);
        if item.Fail? then Fail(item.error)
        else UnfoldEntries(h, nfc, entries[1..], result[key.value := item.value], depth)
  }

  predicate Contains(h: Heap, a: Ref, b: Ref) {
    a in h &&
    match h[a]
    case ListNode(items) => exists i :: 0 <= i < |items| && items[i] == RefVal(b)
    case DictNode(entries) => exists i :: 0 <= i < |entries| && entries[i].1 == RefVal(b)
  }

  /** A containment path: each object is contained in the one before it. */
  ghost predicate IsPath(h: Heap, p: seq<Ref>) {
    p != [] && forall i :: 0 <= i < |p| - 1 ==> Contains(h, p[i], p[i + 1])
  }

  /** `b` is contained in `a`, at any depth of at least one. */
  ghost predicate Within(h: Heap, a: Ref, b: Ref) {
    exists p :: IsPath(h, p) && |p| >= 2 && p[0] == a && p[|p| - 1] == b
  }

  lemma {:induction false} ItemUnfolds(h: Heap, nfc: Nfc, items: seq<Val>, depth: nat, i: nat)
    requires Closed(h) && (forall k :: 0 <= k < |items| ==> Known(h, items[k])) && depth <= MAX_DEPTH + 1
    requires UnfoldItems(h, nfc, items, depth).Ok? && i < |items|
    ensures Unfold(h, nfc, items[i], depth).Ok?
    decreases |items|
  {
    if i > 0 {
      ItemUnfolds(h, nfc, items[1..], depth, i - 1);
    }
  }

  lemma {:induction false} EntryUnfolds(h: Heap, nfc: Nfc, entries: seq<(Val, Val)>, result: map<Str, Json>,
                                        depth: nat, i: nat)
    requires Closed(h) && (forall k :: 0 <= k < |entries| ==> Known(h, entries[k].1)) && depth <= MAX_DEPTH + 1
    requires UnfoldEntries(h, nfc, entries, result, depth).Ok? && i < |entries|
    ensures Unfold(h, nfc, entries[i].1, depth).Ok?
    decreases |entries|
  {
    if i > 0 {
      var key := NormalizedString(nfc, entries[0].0.s).value;
      var item := Unfold(h, nfc, entries[0].1, depth).value;
      EntryUnfolds(h, nfc, entries[1..], result[key := item], depth, i - 1);
    }
  }

  /** What unfolds, unfolds in all its parts, one level deeper. */
  lemma ContainedUnfolds(h: Heap, nfc: Nfc, a: Ref, b: Ref, depth: nat)
    requires Closed(h) && depth <= MAX_DEPTH && Contains(h, a, b) && Unfold(h, nfc, RefVal(a), depth).Ok?
    ensures b in h && depth + 1 <= MAX_DEPTH && Unfold(h, nfc, RefVal(b), depth + 1).Ok?
  {
    match h[a] {
      case ListNode(items) =>
        var i :| 0 <= i < |items| && items[i] == RefVal(b);
        assert Known(h, items[i]);
        ItemUnfolds(h, nfc, items, depth + 1, i);
      case DictNode(entries) =>
        var i :| 0 <= i < |entries| && entries[i].1 == RefVal(b);
        assert Known(h, entries[i].1);
        EntryUnfolds(h, nfc, entries, map[], depth + 1, i);
    }
  }

  lemma {:induction false} PathUnfolds(h: Heap, nfc: Nfc, p: seq<Ref>, depth: nat)
    requires Closed(h) && depth <= MAX_DEPTH && IsPath(h, p) && p[0] in h && Unfold(h, nfc, RefVal(p[0]), depth).Ok?
    ensures p[|p| - 1] in h && depth + |p| - 1 <= MAX_DEPTH
    ensures Unfold(h, nfc, RefVal(p[|p| - 1]), depth + |p| - 1).Ok?
    decreases |p|
  {
    if |p| > 1 {
      ContainedUnfolds(h, nfc, p[0], p[1], depth);
      var rest := p[1..];
      forall i | 0 <= i < |rest| - 1
        ensures Contains(h, rest[i], rest[i + 1])
      {
        assert Contains(h, p[i + 1], p[i + 2]);
      }
      PathUnfolds(h, nfc, rest, depth + 1);
    }
  }

  /** An object that contains itself never unfolds: every turn of the cycle goes one level deeper. */
  lemma {:induction false} CycleNeverUnfolds(h: Heap, nfc: Nfc, id: Ref, depth: nat)
    requires Closed(h) && id in h && depth <= MAX_DEPTH && Within(h, id, id)
    ensures Unfold(h, nfc, RefVal(id), depth).Fail?
    decreases MAX_DEPTH - depth
  {
    if Unfold(h, nfc, RefVal(id), depth).Ok? {
      var p :| IsPath(h, p) && |p| >= 2 && p[0] == id && p[|p| - 1] == id;
      PathUnfolds(h, nfc, p, depth);
      CycleNeverUnfolds(h, nfc, id, depth + |p| - 1);
    }
  }

  // ---- The active set only changes which error is raised ----

  lemma {:induction false} NormIsUnfold(h: Heap, nfc: Nfc, v: Val, active: set<Ref>, depth: nat)
    requires Closed(h) && Known(h, v) && depth <= MAX_DEPTH + 1
    requires Norm(h, nfc, v, active, depth).Ok?
    ensures Unfold(h, nfc, v, depth) == Norm(h, nfc, v, active, depth)
    decreases MAX_DEPTH + 1 - depth, 0
  {
    if v.RefVal? {
      match h[v.id] {
        case ListNode(items) => NormItemsIsUnfold(h, nfc, items, active + {v.id}, depth + 1);
        case DictNode(entries) => NormEntriesIsUnfold(h, nfc, entries, map[], active + {v.id}, depth + 1);
      }
    }
  }

  lemma {:induction false} NormItemsIsUnfold(h: Heap, nfc: Nfc, items: seq<Val>, active: set<Ref>, depth: nat)
    requires Closed(h) && (forall i :: 0 <= i < |items| ==> Known(h, items[i])) && depth <= MAX_DEPTH + 1
    requires NormItems(h, nfc, items, active, depth).Ok?
    ensures UnfoldItems(h, nfc, items, depth) == NormItems(h, nfc, items, active, depth)
    decreases MAX_DEPTH + 1 - depth, 1 + |items|
  {
    if items != [] {
      NormIsUnfold(h, nfc, items[0], active, depth);
      NormItemsIsUnfold(h, nfc, items[1..], active, depth);
    }
  }

  lemma {:induction false} NormEntriesIsUnfold(h: Heap, nfc: Nfc, entries: seq<(Val, Val)>, result: map<Str, Json>,
                                               active: set<Ref>, depth: nat)
    requires Closed(h) && (forall i :: 0 <= i < |entries| ==> Known(h, entries[i].1)) && depth <= MAX_DEPTH + 1
    requires NormEntries(h, nfc, entries, result, active, depth).Ok?
    ensures UnfoldEntries(h, nfc, entries, result, depth) == NormEntries(h, nfc, entries, result, active, depth)
    decreases MAX_DEPTH + 1 - depth, 1 + |entries|
  {
    if entries != [] {
      var key := NormalizedString(nfc, entries[0].0.s).value;
      NormIsUnfold(h, nfc, entries[0].1, active, depth);
      var item := Norm(h, nfc, entries[0].1, active, depth).value;
      NormEntriesIsUnfold(h, nfc, entries[1..], result[key := item], active, depth);
    }
  }

  /** The containers on the current path all contain the value. */
  ghost predicate AllContain(h: Heap, active: set<Ref>, v: Val) {
    v.RefVal? ==> forall a :: a in active ==> Within(h, a, v.id)
  }

  lemma WithinStep(h: Heap, active: set<Ref>, id: Ref, b: Ref)
    requires AllContain(h, active, RefVal(id)) && Contains(h, id, b)
    ensures AllContain(h, active + {id}, RefVal(b))
  {
    forall a | a in active + {id}
      ensures Within(h, a, b)
    {
      if a == id {
        assert IsPath(h, [id, b]);
      } else {
        assert Within(h, a, RefVal(id).id);
        var p :| IsPath(h, p) && |p| >= 2 && p[0] == a && p[|p| - 1] == id;
        var q := p + [b];
        forall i | 0 <= i < |q| - 1
          ensures Contains(h, q[i], q[i + 1])
        {
          if i < |p| - 1 {
            assert Contains(h, p[i], p[i + 1]);
          }
        }
        assert IsPath(h, q);
      }
    }
  }

  lemma {:induction false} UnfoldIsNorm(h: Heap, nfc: Nfc, v: Val, active: set<Ref>, depth: nat)
    requires Closed(h) && Known(h, v) && depth <= MAX_DEPTH + 1
    requires Unfold(h, nfc, v, depth).Ok? && AllContain(h, active, v)
    ensures Norm(h, nfc, v, active, depth) == Unfold(h, nfc, v, depth)
    decreases MAX_DEPTH + 1 - depth, 0
  {
    if v.RefVal? {
      if v.id in active {
        CycleNeverUnfolds(h, nfc, v.id, depth);
      } else {
        match h[v.id] {
          case ListNode(items) =>
            forall i | 0 <= i < |items|
              ensures AllContain(h, active + {v.id}, items[i])
            {
              if items[i].RefVal? {
                assert Contains(h, v.id, items[i].id);
                WithinStep(h, active, v.id, items[i].id);
              }
            }
            UnfoldItemsIsNorm(h, nfc, items, active + {v.id}, depth + 1);
          case DictNode(entries) =>
            forall i | 0 <= i < |entries|
              ensures AllContain(h, active + {v.id}, entries[i].1)
            {
              if entries[i].1.RefVal? {
                assert Contains(h, v.id, entries[i].1.id);
                WithinStep(h, active, v.id, entries[i].1.id);
              }
            }
            UnfoldEntriesIsNorm(h, nfc, entries, map[], active + {v.id}, depth + 1);
        }
      }
    }
  }

  lemma {:induction false} UnfoldItemsIsNorm(h: Heap, nfc: Nfc, items: seq<Val>, active: set<Ref>, depth: nat)
    requires Closed(h) && (forall i :: 0 <= i < |items| ==> Known(h, items[i])) && depth <= MAX_DEPTH + 1
    requires UnfoldItems(h, nfc, items, depth).Ok?
    requires forall i :: 0 <= i < |items| ==> AllContain(h, active, items[i])
    ensures NormItems(h, nfc, items, active, depth) == UnfoldItems(h, nfc, items, depth)
    decreases MAX_DEPTH + 1 - depth, 1 + |items|
  {
    if items != [] {
      UnfoldIsNorm(h, nfc, items[0], active, depth);
      UnfoldItemsIsNorm(h, nfc, items[1..], active, depth);
    }
  }

  lemma {:induction false} UnfoldEntriesIsNorm(h: Heap, nfc: Nfc, entries: seq<(Val, Val)>, result: map<Str, Json>,
                                               active: set<Ref>, depth: nat)
    requires Closed(h) && (forall i :: 0 <= i < |entries| ==> Known(h, entries[i].1)) && depth <= MAX_DEPTH + 1
    requires UnfoldEntries(h, nfc, entries, result, depth).Ok?
    requires forall i :: 0 <= i < |entries| ==> AllContain(h, active, entries[i].1)
    ensures NormEntries(h, nfc, entries, result, active, depth) == UnfoldEntries(h, nfc, entries, result, depth)
    decreases MAX_DEPTH + 1 - depth, 1 + |entries|
  {
    if entries != [] {
      var key := NormalizedString(nfc, entries[0].0.s).value;
      UnfoldIsNorm(h, nfc, entries[0].1, active, depth);
      var item := Unfold(h, nfc, entries[0].1, depth).value;
      UnfoldEntriesIsNorm(h, nfc, entries[1..], result[key := item], active, depth);
    }
  }

  /** `_normalize` accepts exactly the graphs that unfold within the depth limit, whatever they share, and
      returns the tree they unfold to. */
  lemma NormalizeUnfolds(h: Heap, nfc: Nfc, v: Val)
    requires Closed(h) && Known(h, v)
    ensures Norm(h, nfc, v, {}, 0).Ok? <==> Unfold(h, nfc, v, 0).Ok?
    ensures Norm(h, nfc, v, {}, 0).Ok? ==> Norm(h, nfc, v, {}, 0) == Unfold(h, nfc, v, 0)
  {
    if Norm(h, nfc, v, {}, 0).Ok? {
      NormIsUnfold(h, nfc, v, {}, 0);
    }
    if Unfold(h, nfc, v, 0).Ok? {
      UnfoldIsNorm(h, nfc, v, {}, 0);
    }
  }

  /** A graph that contains a cycle anywhere is rejected. */
  lemma CyclicGraphsAreRejected(h: Heap, nfc: Nfc, root: Ref, id: Ref)
    requires Closed(h) && root in h && Within(h, id, id) && (root == id || Within(h, root, id))
    ensures Norm(h, nfc, RefVal(root), {}, 0).Fail?
  {
    if Unfold(h, nfc, RefVal(root), 0).Ok? {
      if root == id {
        CycleNeverUnfolds(h, nfc, id, 0);
      } else {
        var p :| IsPath(h, p) && |p| >= 2 && p[0] == root && p[|p| - 1] == id;
        PathUnfolds(h, nfc, p, 0);
        CycleNeverUnfolds(h, nfc, id, |p| - 1);
      }
    }
    NormalizeUnfolds(h, nfc, RefVal(root));
  }
}
