/** The texts of JSON values by the grammar of RFC 8259, sections 2 to 7, and the strict reader against it. */
module JsonGrammar {
  import opened JsonText
  import opened JsonRoundTrip
  import opened JsonTokens
  import opened CanonicalShape

  // ---- The grammar ----

  /** The text of a value. */
  ghost predicate IsText(x: Str, v: Json)
    decreases |x|, 0
  {
    match v
    case Null => x == [0x6E, 0x75, 0x6C, 0x6C]
    case Bool(b) => x == if b then [0x74, 0x72, 0x75, 0x65] else [0x66, 0x61, 0x6C, 0x73, 0x65]
    case Int(_) => IsNumber(x, v)
    case Float(_) => IsNumber(x, v)
    case String(t) => IsStringText(x, t)
    case Array(items) =>
      && |x| >= 2 && x[0] == 0x5B && x[|x| - 1] == 0x5D
      && if items == [] then Blanks(x[1..|x| - 1]) else AreItems(x[1..|x| - 1], items)
    case Object(members) =>
      && |x| >= 2 && x[0] == 0x7B && x[|x| - 1] == 0x7D
      && if members == map[] then Blanks(x[1..|x| - 1])
         else exists pairs :: AreMembers(x[1..|x| - 1], pairs) && Lists(pairs, members)
  }

  ghost predicate IsStringText(x: Str, t: Str) {
    |x| >= 2 && x[0] == 0x22 && x[|x| - 1] == 0x22 && IsBody(x[1..|x| - 1], t)
  }

  /** The text of a value between blanks. */
  ghost predicate IsPadded(x: Str, v: Json)
    decreases |x|, 1
  {
    exists w, y, z :: Pads(x, w, y, z) && IsText(y, v)
  }

  predicate Pads(x: Str, w: Str, y: Str, z: Str)
    ensures Pads(x, w, y, z) ==> |y| <= |x|
  {
    x == w + y + z && Blanks(w) && Blanks(z)
  }

  /** Values separated by commas. */
  ghost predicate AreItems(x: Str, items: seq<Json>)
    decreases |x|, 2
  {
    items != [] &&
    if |items| == 1 then IsPadded(x, items[0])
    else exists a, b :: CommaSplits(x, a, b) && IsPadded(a, items[0]) && AreItems(b, items[1..])
  }

  predicate CommaSplits(x: Str, a: Str, b: Str)
    ensures CommaSplits(x, a, b) ==> |a| < |x| && |b| < |x|
  {
    x == a + ([0x2C] + b)
  }

  /** A key and a value separated by a colon. */
  ghost predicate IsMember(x: Str, key: Str, v: Json)
    decreases |x|, 2
  {
    exists a, b :: ColonSplits(x, a, b) && IsKey(a, key) && IsPadded(b, v)
  }

  predicate ColonSplits(x: Str, a: Str, b: Str)
    ensures ColonSplits(x, a, b) ==> |a| < |x| && |b| < |x|
  {
    x == a + ([0x3A] + b)
  }

  ghost predicate IsKey(x: Str, key: Str) {
    exists w, y, z :: Pads(x, w, y, z) && IsStringText(y, key)
  }

  /** Members separated by commas. */
  ghost predicate AreMembers(x: Str, pairs: seq<(Str, Json)>)
    decreases |x|, 3
  {
    pairs != [] &&
    if |pairs| == 1 then IsMember(x, pairs[0].0, pairs[0].1)
    else exists a, b :: CommaSplits(x, a, b) && IsMember(a, pairs[0].0, pairs[0].1) && AreMembers(b, pairs[1..])
  }

  /** The dictionary has these members, each key once. */
  ghost predicate Lists(pairs: seq<(Str, Json)>, members: map<Str, Json>) {
    && (forall i, j :: 0 <= i < j < |pairs| ==> pairs[i].0 != pairs[j].0)
    && (forall i :: 0 <= i < |pairs| ==> pairs[i].0 in members && members[pairs[i].0] == pairs[i].1)
    && (forall k :: k in members ==> exists i :: 0 <= i < |pairs| && pairs[i].0 == k)
  }

  // ---- What is read is in the grammar ----

  lemma PadsValue(x: Str, w: Str, y: Str, z: Str, v: Json)
    requires Pads(x, w, y, z) && IsText(y, v)
    ensures IsPadded(x, v)
  {
  }

  /** Blanks in front of items belong to the first. */
  lemma BlanksBeforeItems(w: Str, x: Str, items: seq<Json>)
    requires Blanks(w) && AreItems(x, items)
    ensures AreItems(w + x, items)
  {
    if |items| == 1 {
      BlanksBeforeValue(w, x, items[0]);
    } else {
      var a, b :| CommaSplits(x, a, b) && IsPadded(a, items[0]) && AreItems(b, items[1..]);
      BlanksBeforeValue(w, a, items[0]);
      Regroup(w, a, [0x2C] + b);
      assert CommaSplits(w + x, w + a, b);
    }
  }

  lemma BlanksBeforeValue(w: Str, x: Str, v: Json)
    requires Blanks(w) && IsPadded(x, v)
    ensures IsPadded(w + x, v)
  {
    var w', y, z :| Pads(x, w', y, z) && IsText(y, v);
    assert w + (w' + y + z) == (w + w') + y + z;
    assert Pads(w + x, w + w', y, z);
  }

  lemma BlanksBeforeMembers(w: Str, x: Str, pairs: seq<(Str, Json)>)
    requires Blanks(w) && AreMembers(x, pairs)
    ensures AreMembers(w + x, pairs)
  {
    if |pairs| == 1 {
      BlanksBeforeMember(w, x, pairs[0].0, pairs[0].1);
    } else {
      var a, b :| CommaSplits(x, a, b) && IsMember(a, pairs[0].0, pairs[0].1) && AreMembers(b, pairs[1..]);
      BlanksBeforeMember(w, a, pairs[0].0, pairs[0].1);
      Regroup(w, a, [0x2C] + b);
      assert CommaSplits(w + x, w + a, b);
    }
  }

  lemma BlanksBeforeMember(w: Str, x: Str, key: Str, v: Json)
    requires Blanks(w) && IsMember(x, key, v)
    ensures IsMember(w + x, key, v)
  {
    var a, b :| ColonSplits(x, a, b) && IsKey(a, key) && IsPadded(b, v);
    var w', y, z :| Pads(a, w', y, z) && IsStringText(y, key);
    assert w + (w' + y + z) == (w + w') + y + z;
    assert Pads(w + a, w + w', y, z);
    Regroup(w, a, [0x3A] + b);
    assert ColonSplits(w + x, w + a, b);
  }

  lemma StringOfText(s: Str) returns (x: Str)
    requires s != [] && s[0] == QUOTE && ReadString(s[1..]).Read?
    ensures s == x + ReadString(s[1..]).rest && IsStringText(x, ReadString(s[1..]).value)
  {
    var body := BodyOfString(s[1..]);
    x := [QUOTE] + body + [QUOTE];
    assert x[1..|x| - 1] == body;
    assert s == [QUOTE] + s[1..];
  }

  lemma EmptyOfText(s: Str, open: CodePoint, close: CodePoint) returns (x: Str)
    requires s != [] && s[0] == open && SkipBlanks(s[1..]) != [] && SkipBlanks(s[1..])[0] == close
    ensures s == x + SkipBlanks(s[1..])[1..] && |x| >= 2 && x[0] == open && x[|x| - 1] == close
    ensures Blanks(x[1..|x| - 1])
  {
    var w := BlanksBefore(s[1..]);
    var inner := SkipBlanks(s[1..]);
    x := [open] + w + [close];
    assert x[1..|x| - 1] == w;
    assert inner == [close] + inner[1..];
    assert s == [open] + s[1..] == [open] + (w + ([close] + inner[1..]));
  }

  /** Brackets around a text with blanks in front. */
  lemma Enclosed(s: Str, open: CodePoint, w: Str, inner: Str, close: CodePoint, rest: Str) returns (x: Str)
    requires s != [] && s[0] == open && s[1..] == w + (inner + ([close] + rest))
    ensures s == x + rest && |x| >= 2 && x[0] == open && x[|x| - 1] == close && x[1..|x| - 1] == w + inner
  {
    x := [open] + (w + inner) + [close];
    assert s == [open] + s[1..];
    assert x[1..|x| - 1] == w + inner;
    assert x + rest == [open] + (w + (inner + ([close] + rest)));
  }

  lemma LastOfItems(x: Str, z: Str, v: Json)
    requires IsText(x, v) && Blanks(z)
    ensures AreItems(x + z, [v])
  {
    assert Pads(x + z, [], x, z) by {
      assert x + z == [] + x + z;
    }
  }

  lemma FirstOfItems(x: Str, z: Str, v: Json, w: Str, more: Str, items: seq<Json>)
    requires IsText(x, v) && Blanks(z) && Blanks(w) && AreItems(more, items)
    ensures AreItems((x + z) + ([0x2C] + (w + more)), [v] + items)
  {
    assert Pads(x + z, [], x, z) by {
      assert x + z == [] + x + z;
    }
    BlanksBeforeItems(w, more, items);
    assert ([v] + items)[1..] == items;
    assert CommaSplits((x + z) + ([0x2C] + (w + more)), x + z, w + more);
  }

  /** Every text that the reader takes is a text of the value it returns. */
  lemma {:induction false} ValueOfText(s: Str) returns (x: Str)
    requires ReadValue(s).Read?
    ensures s == x + ReadValue(s).rest && IsText(x, ReadValue(s).value)
    decreases |s|, 0
  {
    if s[0] == QUOTE {
      x := StringOfText(s);
    } else if s[0] == OPEN_BRACKET {
      var inner := SkipBlanks(s[1..]);
      if inner != [] && inner[0] == CLOSE_BRACKET {
        x := EmptyOfText(s, OPEN_BRACKET, CLOSE_BRACKET);
      } else {
        var w := BlanksBefore(s[1..]);
        var items := ItemsOfText(inner);
        x := Enclosed(s, OPEN_BRACKET, w, items, CLOSE_BRACKET, ReadItems(inner).rest);
        BlanksBeforeItems(w, items, ReadItems(inner).value);
      }
    } else if s[0] == OPEN_BRACE {
      var inner := SkipBlanks(s[1..]);
      if inner != [] && inner[0] == CLOSE_BRACE {
        x := EmptyOfText(s, OPEN_BRACE, CLOSE_BRACE);
      } else {
        var w := BlanksBefore(s[1..]);
        var members, pairs := MembersOfText(inner, map[]);
        x := Enclosed(s, OPEN_BRACE, w, members, CLOSE_BRACE, ReadMembers(inner, map[]).rest);
        BlanksBeforeMembers(w, members, pairs);
        AddsToNothing(pairs, ReadMembers(inner, map[]).value);
      }
    } else if s[0] == LETTER_N {
      x := WordOfText(s, NULL_TEXT, Null);
    } else if s[0] == LETTER_T {
      x := WordOfText(s, TRUE_TEXT, Bool(true));
    } else if s[0] == LETTER_F {
      x := WordOfText(s, FALSE_TEXT, Bool(false));
    } else {
      x := NumberOfText(s);
      assert ReadValue(s) == ReadNumber(s);
      NumberIsIntOrFloat(s);
    }
  }

  lemma NumberIsIntOrFloat(s: Str)
    requires ReadNumber(s).Read?
    ensures ReadNumber(s).value.Int? || ReadNumber(s).value.Float?
  {
  }

  lemma WordOfText(s: Str, word: Str, v: Json) returns (x: Str)
    requires word != [] && ReadWord(s, word, v).Read?
    ensures x == word && s == x + ReadWord(s, word, v).rest
  {
    x := word;
    assert s == s[..|word|] + s[|word|..];
  }

  lemma {:induction false} ItemsOfText(s: Str) returns (x: Str)
    requires ReadItems(s).Read?
    ensures s == x + ([CLOSE_BRACKET] + ReadItems(s).rest) && AreItems(x, ReadItems(s).value)
    decreases |s|, 1
  {
    var first := ReadValue(s);
    var y := ValueOfText(s);
    var z := BlanksBefore(first.rest);
    var after := SkipBlanks(first.rest);
    if after[0] == CLOSE_BRACKET {
      x := y + z;
      LastOfItems(y, z, first.value);
      assert after == [CLOSE_BRACKET] + after[1..];
      Regroup(y, z, after);
    } else {
      var w := BlanksBefore(after[1..]);
      var next := SkipBlanks(after[1..]);
      var more := ItemsOfText(next);
      x := (y + z) + ([COMMA] + (w + more));
      FirstOfItems(y, z, first.value, w, more, ReadItems(next).value);
      assert after == [COMMA] + after[1..];
      JoinsUp(s, y, z, w, more, [CLOSE_BRACKET] + ReadItems(next).rest);
    }
  }

  lemma JoinsUp(s: Str, y: Str, z: Str, w: Str, more: Str, end: Str)
    requires s == y + (z + ([COMMA] + (w + (more + end))))
    ensures s == (y + z) + ([COMMA] + (w + more)) + end
  {
  }

  /** The dictionary `after` is `before` with these members, each new. */
  ghost predicate Adds(pairs: seq<(Str, Json)>, before: map<Str, Json>, after: map<Str, Json>)
    decreases |pairs|
  {
    if pairs == [] then after == before
    else pairs[0].0 !in before && Adds(pairs[1..], before[pairs[0].0 := pairs[0].1], after)
  }

  lemma {:induction false} AddsKeeps(pairs: seq<(Str, Json)>, before: map<Str, Json>, after: map<Str, Json>)
    requires Adds(pairs, before, after)
    ensures forall k :: k in before ==> k in after && after[k] == before[k]
    ensures forall i :: 0 <= i < |pairs| ==>
              pairs[i].0 !in before && pairs[i].0 in after && after[pairs[i].0] == pairs[i].1
    ensures forall i, j :: 0 <= i < j < |pairs| ==> pairs[i].0 != pairs[j].0
    ensures forall k :: k in after && k !in before ==> exists i :: 0 <= i < |pairs| && pairs[i].0 == k
    decreases |pairs|
  {
    if pairs != [] {
      var rest, more := pairs[1..], before[pairs[0].0 := pairs[0].1];
      AddsKeeps(rest, more, after);
      forall i | 0 <= i < |pairs|
        ensures pairs[i].0 !in before && pairs[i].0 in after && after[pairs[i].0] == pairs[i].1
        ensures i > 0 ==> pairs[i].0 != pairs[0].0
      {
        if i > 0 {
          assert pairs[i] == rest[i - 1];
        } else {
          assert pairs[0].0 in more;
        }
      }
      forall i, j | 0 <= i < j < |pairs|
        ensures pairs[i].0 != pairs[j].0
      {
        if i > 0 {
          assert pairs[i] == rest[i - 1] && pairs[j] == rest[j - 1];
        }
      }
      forall k | k in after && k !in before
        ensures exists i :: 0 <= i < |pairs| && pairs[i].0 == k
      {
        if k != pairs[0].0 {
          var i :| 0 <= i < |rest| && rest[i].0 == k;
          assert pairs[i + 1].0 == k;
        }
      }
    }
  }

  lemma AddsToNothing(pairs: seq<(Str, Json)>, after: map<Str, Json>)
    requires Adds(pairs, map[], after)
    ensures Lists(pairs, after) && (pairs != [] ==> after != map[])
  {
    AddsKeeps(pairs, map[], after);
    if pairs != [] {
      assert pairs[0].0 in after;
    }
  }

  lemma MemberOfText(s: Str, y: Str, z: Str, w: Str, u: Str, t: Str, key: Str, v: Json) returns (x: Str)
    requires IsStringText(y, key) && Blanks(z) && Blanks(w) && IsText(u, v) && Blanks(t)
    ensures x == (y + z) + ([0x3A] + (w + u + t)) && IsMember(x, key, v)
  {
    x := (y + z) + ([0x3A] + (w + u + t));
    assert Pads(y + z, [], y, z) by {
      assert y + z == [] + y + z;
    }
    assert Pads(w + u + t, w, u, t);
    assert ColonSplits(x, y + z, w + u + t);
    assert IsKey(y + z, key);
  }

  lemma MemberJoins(s: Str, y: Str, z: Str, w: Str, u: Str, t: Str, after: Str)
    requires s == y + (z + ([COLON] + (w + (u + (t + after)))))
    ensures s == (y + z) + ([0x3A] + (w + u + t)) + after
  {
  }

  /** The key of the member that the reader finds, and the blanks around the colon. */
  lemma KeyOfMember(s: Str) returns (y: Str, z: Str, w: Str)
    requires MemberAt(s).Member?
    ensures IsStringText(y, MemberAt(s).key) && Blanks(z) && Blanks(w)
    ensures s == y + (z + ([COLON] + (w + MemberAt(s).text)))
  {
    var key := ReadString(s[1..]);
    var colon := SkipBlanks(key.rest);
    y := StringOfText(s);
    z := BlanksBefore(key.rest);
    w := BlanksBefore(colon[1..]);
    assert colon == [COLON] + colon[1..];
  }

  lemma BlanksOfMember(s: Str) returns (t: Str)
    requires MemberAt(s).Member?
    ensures ReadValue(MemberAt(s).text).rest == t + MemberAt(s).after && Blanks(t)
  {
    t := BlanksBefore(ReadValue(MemberAt(s).text).rest);
  }

  /** The text of the member that the reader finds, given the text of its value. */
  lemma MemberTextOf(s: Str, u: Str) returns (x: Str)
    requires var m := MemberAt(s); m.Member? && m.text == u + ReadValue(m.text).rest && IsText(u, m.value)
    ensures var m := MemberAt(s); s == x + m.after && IsMember(x, m.key, m.value)
  {
    var m := MemberAt(s);
    var y, z, w := KeyOfMember(s);
    var t := BlanksOfMember(s);
    x := MemberOfText(s, y, z, w, u, t, m.key, m.value);
    MemberJoins(s, y, z, w, u, t, m.after);
  }

  lemma LastOfMembers(s: Str, x: Str, key: Str, v: Json, after: Str)
    requires s == x + after && IsMember(x, key, v) && after != [] && after[0] == CLOSE_BRACE
    ensures s == x + ([CLOSE_BRACE] + after[1..]) && AreMembers(x, [(key, v)])
  {
    assert after == [CLOSE_BRACE] + after[1..];
  }

  lemma FirstOfMembers(s: Str, x: Str, key: Str, v: Json, after: Str, w: Str, more: Str, end: Str,
                       pairs: seq<(Str, Json)>)
    requires s == x + after && IsMember(x, key, v) && after != [] && after[0] == COMMA
    requires after[1..] == w + (more + end) && Blanks(w) && AreMembers(more, pairs)
    ensures s == (x + ([COMMA] + (w + more))) + end && AreMembers(x + ([COMMA] + (w + more)), [(key, v)] + pairs)
  {
    assert after == [COMMA] + after[1..];
    assert x + ([COMMA] + (w + (more + end))) == (x + ([COMMA] + (w + more))) + end;
    BlanksBeforeMembers(w, more, pairs);
    assert ([(key, v)] + pairs)[1..] == pairs;
    assert CommaSplits(x + ([COMMA] + (w + more)), x, w + more);
  }

  /** The members of a text, up to the closing brace. */
  lemma {:induction false} MembersOfText(s: Str, seen: map<Str, Json>) returns (x: Str, pairs: seq<(Str, Json)>)
    requires ReadMembers(s, seen).Read?
    ensures s == x + ([CLOSE_BRACE] + ReadMembers(s, seen).rest)
    ensures AreMembers(x, pairs) && Adds(pairs, seen, ReadMembers(s, seen).value)
    decreases |s|, 1
  {
    var m := MemberAt(s);
    MembersUnfold(s, seen);
    MemberIsThere(s);
    var u := ValueOfText(m.text);
    var member := MemberTextOf(s, u);
    if m.after[0] == COMMA {
      var next := SkipBlanks(m.after[1..]);
      var w := BlanksBefore(m.after[1..]);
      var more, rest := MembersOfText(next, seen[m.key := m.value]);
      FirstOfMembers(s, member, m.key, m.value, m.after, w, more, [CLOSE_BRACE] + ReadMembers(s, seen).rest, rest);
      x, pairs := member + ([COMMA] + (w + more)), [(m.key, m.value)] + rest;
      assert pairs[1..] == rest;
    } else {
      LastOfMembers(s, member, m.key, m.value, m.after);
      x, pairs := member, [(m.key, m.value)];
      assert pairs[1..] == [];
    }
  }

  lemma MemberIsThere(s: Str)
    requires MemberAt(s).Member?
    ensures var m := MemberAt(s); ReadValue(m.text).Read? && ReadValue(m.text).value == m.value
  {
  }

  // ---- What is in the grammar is read ----

  predicate StartsValue(c: CodePoint) {
    !IsBlank(c) && c != COMMA && c != CLOSE_BRACKET && c != CLOSE_BRACE && c != 0xFEFF
  }

  /** What may stand behind a value: the end, a blank, a comma or a closing bracket or brace. */
  predicate EndsText(rest: Str) {
    rest == [] || IsBlank(rest[0]) || rest[0] == COMMA || rest[0] == CLOSE_BRACKET || rest[0] == CLOSE_BRACE
  }

  /** The same without the blanks. */
  predicate EndsElement(rest: Str) {
    rest == [] || rest[0] == COMMA || rest[0] == CLOSE_BRACKET || rest[0] == CLOSE_BRACE
  }

  lemma StringIsTaken(x: Str, t: Str, rest: Str)
    requires IsStringText(x, t)
    ensures (x + rest)[0] == QUOTE && ReadString((x + rest)[1..]) == Read(t, rest)
  {
    var body := x[1..|x| - 1];
    BodyIsRead(body, t, rest);
    assert x == [QUOTE] + body + [QUOTE];
    assert (x + rest)[1..] == body + ([QUOTE] + rest);
  }

  lemma WordIsTaken(word: Str, v: Json, rest: Str)
    requires (word == NULL_TEXT && v == Null) || (word == TRUE_TEXT && v == Bool(true))
             || (word == FALSE_TEXT && v == Bool(false))
    ensures ReadValue(word + rest) == Read(v, rest)
  {
    WordIsRead(word, v, rest);
  }

  /** What stands between brackets, in front of what follows. */
  lemma Inside(x: Str, rest: Str)
    requires |x| >= 2
    ensures (x + rest)[0] == x[0] && (x + rest)[1..] == x[1..|x| - 1] + ([x[|x| - 1]] + rest)
  {
  }

  lemma EmptyIsTaken(x: Str, rest: Str)
    requires |x| >= 2 && Blanks(x[1..|x| - 1])
    ensures x[0] == OPEN_BRACKET && x[|x| - 1] == CLOSE_BRACKET ==> ReadValue(x + rest) == Read(Array([]), rest)
    ensures x[0] == OPEN_BRACE && x[|x| - 1] == CLOSE_BRACE ==> ReadValue(x + rest) == Read(Object(map[]), rest)
  {
    var end := [x[|x| - 1]] + rest;
    Inside(x, rest);
    BlanksSkip(x[1..|x| - 1], end);
    assert end[1..] == rest;
  }

  /** A text of a value is read as that value. */
  lemma {:induction false} ValueIsTaken(x: Str, v: Json, rest: Str)
    requires IsText(x, v) && EndsText(rest)
    ensures x != [] && StartsValue(x[0]) && ReadValue(x + rest) == Read(v, rest)
    decreases |x|, 0
  {
    match v {
      case Null => WordIsTaken(x, v, rest);
      case Bool(b) => WordIsTaken(x, v, rest);
      case Int(_) =>
        NumberIsTaken(x, v, rest);
        ReadNumberValue(x + rest);
      case Float(_) =>
        NumberIsTaken(x, v, rest);
        ReadNumberValue(x + rest);
      case String(t) => StringIsTaken(x, t, rest);
      case Array(items) =>
        if items == [] {
          EmptyIsTaken(x, rest);
        } else {
          ItemsAreTaken(x[1..|x| - 1], items, rest);
          Inside(x, rest);
        }
      case Object(members) =>
        if members == map[] {
          EmptyIsTaken(x, rest);
        } else {
          var pairs :| AreMembers(x[1..|x| - 1], pairs) && Lists(pairs, members);
          ListsAdds(pairs, map[], members);
          MembersAreTaken(x[1..|x| - 1], pairs, map[], members, rest);
          Inside(x, rest);
        }
    }
  }

  /** A text that reads as a value with this rest, blanks skipped. */
  predicate ElementReads(s: Str, v: Json, rest: Str) {
    && s != [] && StartsValue(s[0]) && ReadValue(s).Read? && ReadValue(s).value == v
    && SkipBlanks(ReadValue(s).rest) == rest
  }

  lemma BlanksEnd(z: Str, rest: Str)
    requires Blanks(z) && EndsElement(rest)
    ensures SkipBlanks(z + rest) == rest && EndsText(z + rest)
  {
    BlanksSkip(z, rest);
  }

  lemma PadGroups(w: Str, y: Str, z: Str, rest: Str)
    ensures w + y + z + rest == w + (y + (z + rest))
  {
  }

  lemma PaddedReads(x: Str, w: Str, y: Str, z: Str, v: Json, rest: Str)
    requires Pads(x, w, y, z) && EndsElement(rest)
    requires y != [] && StartsValue(y[0]) && ReadValue(y + (z + rest)) == Read(v, z + rest)
    ensures ElementReads(SkipBlanks(x + rest), v, rest)
  {
    BlanksEnd(z, rest);
    BlanksSkip(w, y + (z + rest));
    PadGroups(w, y, z, rest);
    assert (y + (z + rest))[0] == y[0];
  }

  /** A value between blanks is read, with the blanks around it skipped. */
  lemma {:induction false} PaddedIsTaken(x: Str, v: Json, rest: Str)
    requires IsPadded(x, v) && EndsElement(rest)
    ensures ElementReads(SkipBlanks(x + rest), v, rest)
    decreases |x|, 1
  {
    var w, y, z :| Pads(x, w, y, z) && IsText(y, v);
    BlanksEnd(z, rest);
    ValueIsTaken(y, v, z + rest);
    PaddedReads(x, w, y, z, v, rest);
  }

  lemma LastItemReads(s: Str, v: Json, rest: Str)
    requires ElementReads(s, v, [CLOSE_BRACKET] + rest)
    ensures ReadItems(s) == Read([v], rest)
  {
    assert ([CLOSE_BRACKET] + rest)[1..] == rest;
  }

  lemma NextItemReads(s: Str, v: Json, tail: Str, items: seq<Json>, rest: Str)
    requires ElementReads(s, v, [COMMA] + tail) && ReadItems(SkipBlanks(tail)) == Read(items, rest)
    ensures ReadItems(s) == Read([v] + items, rest)
  {
    assert ([COMMA] + tail)[1..] == tail;
  }

  lemma CommaInFront(x: Str, a: Str, b: Str, end: Str)
    requires CommaSplits(x, a, b)
    ensures x + end == a + ([COMMA] + (b + end))
  {
    assert a + ([COMMA] + b) + end == a + ([COMMA] + (b + end));
  }

  lemma ItemsSplit(x: Str, items: seq<Json>) returns (a: Str, b: Str)
    requires AreItems(x, items) && |items| > 1
    ensures CommaSplits(x, a, b) && IsPadded(a, items[0]) && AreItems(b, items[1..])
  {
    a, b :| CommaSplits(x, a, b) && IsPadded(a, items[0]) && AreItems(b, items[1..]);
  }

  /** A text that reads as these items with this rest. */
  predicate ItemsReads(s: Str, items: seq<Json>, rest: Str) {
    s != [] && StartsValue(s[0]) && ReadItems(s) == Read(items, rest)
  }

  lemma {:induction false} ItemsAreTaken(x: Str, items: seq<Json>, rest: Str)
    requires AreItems(x, items)
    ensures ItemsReads(SkipBlanks(x + ([CLOSE_BRACKET] + rest)), items, rest)
    decreases |x|, 2
  {
    var end := [CLOSE_BRACKET] + rest;
    if |items| == 1 {
      PaddedIsTaken(x, items[0], end);
      LastItemReads(SkipBlanks(x + end), items[0], rest);
      assert items == [items[0]];
    } else {
      var a, b := ItemsSplit(x, items);
      CommaInFront(x, a, b, end);
      PaddedIsTaken(a, items[0], [COMMA] + (b + end));
      ItemsAreTaken(b, items[1..], rest);
      NextItemReads(SkipBlanks(x + end), items[0], b + end, items[1..], rest);
      assert items == [items[0]] + items[1..];
    }
  }

  /** A text that reads as a key with this rest, blanks skipped. */
  predicate KeyReads(s: Str, key: Str, rest: Str) {
    && s != [] && s[0] == QUOTE && ReadString(s[1..]).Read? && ReadString(s[1..]).value == key
    && SkipBlanks(ReadString(s[1..]).rest) == rest
  }

  lemma PaddedKeyReads(x: Str, w: Str, y: Str, z: Str, key: Str, rest: Str)
    requires Pads(x, w, y, z) && rest != [] && rest[0] == COLON
    requires y != [] && (y + (z + rest))[0] == QUOTE && ReadString((y + (z + rest))[1..]) == Read(key, z + rest)
    ensures KeyReads(SkipBlanks(x + rest), key, rest)
  {
    BlanksSkip(z, rest);
    BlanksSkip(w, y + (z + rest));
    PadGroups(w, y, z, rest);
  }

  lemma KeyIsTaken(x: Str, key: Str, rest: Str)
    requires IsKey(x, key) && rest != [] && rest[0] == COLON
    ensures KeyReads(SkipBlanks(x + rest), key, rest)
  {
    var w, y, z :| Pads(x, w, y, z) && IsStringText(y, key);
    StringIsTaken(y, key, z + rest);
    PaddedKeyReads(x, w, y, z, key, rest);
  }

  /** A text whose first member is this one, with this rest. */
  predicate MemberFound(s: Str, key: Str, v: Json, after: Str) {
    && s != [] && s[0] == QUOTE
    && var m := MemberAt(s); m.Member? && m.key == key && m.value == v && m.after == after
  }

  lemma KeyAndValue(s: Str, key: Str, v: Json, tail: Str, after: Str)
    requires KeyReads(s, key, [COLON] + tail) && ElementReads(SkipBlanks(tail), v, after)
    ensures MemberFound(s, key, v, after)
  {
    assert ([COLON] + tail)[1..] == tail;
  }

  lemma {:induction false} MemberIsTaken(x: Str, key: Str, v: Json, after: Str)
    requires IsMember(x, key, v) && after != [] && (after[0] == COMMA || after[0] == CLOSE_BRACE)
    ensures MemberFound(SkipBlanks(x + after), key, v, after)
    decreases |x|, 2
  {
    var a, b :| ColonSplits(x, a, b) && IsKey(a, key) && IsPadded(b, v);
    assert a + ([COLON] + b) + after == a + ([COLON] + (b + after));
    KeyIsTaken(a, key, [COLON] + (b + after));
    PaddedIsTaken(b, v, after);
    KeyAndValue(SkipBlanks(x + after), key, v, b + after, after);
  }

  lemma MembersFold(s: Str, seen: map<Str, Json>)
    requires var m := MemberAt(s); m.Member? && m.key !in seen && m.after != []
    ensures var m := MemberAt(s); var more := seen[m.key := m.value];
      && (m.after[0] == CLOSE_BRACE ==> ReadMembers(s, seen) == Read(more, m.after[1..]))
      && (m.after[0] == COMMA ==> ReadMembers(s, seen) == ReadMembers(SkipBlanks(m.after[1..]), more))
  {
  }

  lemma LastMemberReads(s: Str, key: Str, v: Json, seen: map<Str, Json>, rest: Str)
    requires MemberFound(s, key, v, [CLOSE_BRACE] + rest) && key !in seen
    ensures ReadMembers(s, seen) == Read(seen[key := v], rest)
  {
    MembersFold(s, seen);
    assert ([CLOSE_BRACE] + rest)[1..] == rest;
  }

  lemma NextMemberReads(s: Str, key: Str, v: Json, seen: map<Str, Json>, tail: Str)
    requires MemberFound(s, key, v, [COMMA] + tail) && key !in seen
    ensures ReadMembers(s, seen) == ReadMembers(SkipBlanks(tail), seen[key := v])
  {
    MembersFold(s, seen);
    assert ([COMMA] + tail)[1..] == tail;
  }

  lemma MembersSplit(x: Str, pairs: seq<(Str, Json)>) returns (a: Str, b: Str)
    requires AreMembers(x, pairs) && |pairs| > 1
    ensures CommaSplits(x, a, b) && IsMember(a, pairs[0].0, pairs[0].1) && AreMembers(b, pairs[1..])
  {
    a, b :| CommaSplits(x, a, b) && IsMember(a, pairs[0].0, pairs[0].1) && AreMembers(b, pairs[1..]);
  }

  lemma {:induction false} MembersAreTaken(x: Str, pairs: seq<(Str, Json)>, seen: map<Str, Json>, all: map<Str, Json>,
                                           rest: Str)
    requires AreMembers(x, pairs) && Adds(pairs, seen, all)
    ensures var s := SkipBlanks(x + ([CLOSE_BRACE] + rest));
      s != [] && s[0] == QUOTE && ReadMembers(s, seen) == Read(all, rest)
    decreases |x|, 3
  {
    var end, key, v := [CLOSE_BRACE] + rest, pairs[0].0, pairs[0].1;
    if |pairs| == 1 {
      MemberIsTaken(x, key, v, end);
      LastMemberReads(SkipBlanks(x + end), key, v, seen, rest);
      assert pairs[1..] == [];
    } else {
      var a, b := MembersSplit(x, pairs);
      CommaInFront(x, a, b, end);
      MemberIsTaken(a, key, v, [COMMA] + (b + end));
      MembersAreTaken(b, pairs[1..], seen[key := v], all, rest);
      NextMemberReads(SkipBlanks(x + end), key, v, seen, b + end);
    }
  }

  /** Members that a dictionary lists are added one by one. */
  lemma {:induction false} ListsAdds(pairs: seq<(Str, Json)>, before: map<Str, Json>, after: map<Str, Json>)
    requires forall i, j :: 0 <= i < j < |pairs| ==> pairs[i].0 != pairs[j].0
    requires forall i :: 0 <= i < |pairs| ==>
               pairs[i].0 !in before && pairs[i].0 in after && after[pairs[i].0] == pairs[i].1
    requires forall k :: k in before ==> k in after && after[k] == before[k]
    requires forall k :: k in after && k !in before ==> exists i :: 0 <= i < |pairs| && pairs[i].0 == k
    ensures Adds(pairs, before, after)
    decreases |pairs|
  {
    if pairs == [] {
      assert after == before;
    } else {
      var rest, more := pairs[1..], before[pairs[0].0 := pairs[0].1];
      assert forall i :: 0 <= i < |rest| ==> rest[i] == pairs[i + 1];
      forall k | k in after && k !in more
        ensures exists i :: 0 <= i < |rest| && rest[i].0 == k
      {
        var i :| 0 <= i < |pairs| && pairs[i].0 == k;
        assert rest[i - 1].0 == k;
      }
      ListsAdds(rest, more, after);
    }
  }

  // ---- The text as a whole ----

  /** The strict reader takes exactly the texts of the grammar, blanks around them allowed, and returns their value:
      no duplicate keys, no superfluous zeros, no words but three, nothing behind the value. */
  lemma LoadsExactly(text: Str, v: Json)
    ensures Loads(text) == Value(v) <==> IsPadded(text, v)
  {
    if Loads(text) == Value(v) {
      var s := SkipBlanks(text);
      var w := BlanksBefore(text);
      var y := ValueOfText(s);
      var z := BlanksBefore(ReadValue(s).rest);
      assert Pads(text, w, y, z);
    }
    if IsPadded(text, v) {
      PaddedIsTaken(text, v, []);
      assert text + [] == text;
    }
  }
}
