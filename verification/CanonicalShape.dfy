/** The canonical text of a value among all texts that load to it: the shortest, with its keys in order and its
    hexadecimal digits in lower case. */
module CanonicalShape {
  import opened JsonText
  import opened JsonRoundTrip

  // ---- Tidy texts ----

  /** The part of the text that an escape takes up has no upper-case hexadecimal digit. */
  predicate LowerCase(s: Str, n: nat)
    requires n <= |s|
  {
    forall i :: 0 <= i < n ==> !(0x41 <= s[i] <= 0x46)
  }

  /** The escapes of a string, after its opening quote, are in lower case. */
  predicate TidyString(s: Str)
    decreases |s|
  {
    if s == [] || s[0] == QUOTE then true
    else if s[0] == BACKSLASH then
      var first := ReadEscape(s[1..]);
      first.Read? ==> LowerCase(s, |s| - |first.rest|) && TidyString(first.rest)
    else TidyString(s[1..])
  }

  /** One member of an object: its key, where its value starts, the value, and what follows after blanks. */
  datatype Member = NoMember | Member(key: Str, text: Str, value: Json, after: Str)

  function MemberAt(s: Str): (m: Member)
    ensures m.Member? ==> |m.text| < |s| && |m.after| < |s|
  {
    if s == [] || s[0] != QUOTE || ReadString(s[1..]).Rejected? then NoMember
    else
      var key := ReadString(s[1..]);
      var colon := SkipBlanks(key.rest);
      if colon == [] || colon[0] != COLON then NoMember
      else
        var text := SkipBlanks(colon[1..]);
        var value := ReadValue(text);
        if value.Rejected? then NoMember else Member(key.value, text, value.value, SkipBlanks(value.rest))
  }

  /** The keys of an object in the order of its text. */
  function KeysAt(s: Str): seq<Str>
    decreases |s|
  {
    var m := MemberAt(s);
    if m.NoMember? then []
    else [m.key] + if m.after != [] && m.after[0] == COMMA then KeysAt(SkipBlanks(m.after[1..])) else []
  }

  ghost predicate InOrder(keys: seq<Str>) {
    forall i, j :: 0 <= i < j < |keys| ==> Before(keys[i], keys[j])
  }

  /** In all objects of the text the keys increase, and all escapes are in lower case. */
  ghost predicate TidyValue(s: Str)
    decreases |s|, 0
  {
    if s == [] then true
    else if s[0] == QUOTE then TidyString(s[1..])
    else if s[0] == OPEN_BRACKET then TidyItems(SkipBlanks(s[1..]))
    else if s[0] == OPEN_BRACE then InOrder(KeysAt(SkipBlanks(s[1..]))) && TidyMembers(SkipBlanks(s[1..]))
    else true
  }

  ghost predicate TidyItems(s: Str)
    decreases |s|, 1
  {
    && TidyValue(s)
    && (ReadValue(s).Read? ==>
          var after := SkipBlanks(ReadValue(s).rest);
          after != [] && after[0] == COMMA ==> TidyItems(SkipBlanks(after[1..])))
  }

  ghost predicate TidyMembers(s: Str)
    decreases |s|, 1
  {
    var m := MemberAt(s);
    m.Member? ==>
      && TidyString(s[1..]) && TidyValue(m.text)
      && (m.after != [] && m.after[0] == COMMA ==> TidyMembers(SkipBlanks(m.after[1..])))
  }

  // ---- What follows a printed value ----

  lemma {:induction false} EscapeAppends(s: Str, a: Str, b: Str)
    ensures Escape(s, a + b) == Escape(s, a) + b
  {
    if s != [] {
      EscapeAppends(s[1..], a, b);
      assert EscapeChar(s[0]) + (Escape(s[1..], a) + b) == (EscapeChar(s[0]) + Escape(s[1..], a)) + b;
    }
  }

  lemma QuoteAppends(s: Str, rest: Str)
    ensures Quote(s, rest) == Quote(s, []) + rest
  {
    EscapeAppends(s, [QUOTE], rest);
    assert [QUOTE] + [] == [QUOTE];
  }

  lemma {:induction false} PrintAppends(v: Json, rest: Str)
    ensures Print(v, rest) == Print(v, []) + rest
    decreases v
  {
    match v {
      case Null =>
      case Bool(b) =>
      case Int(n) =>
      case String(s) => QuoteAppends(s, rest);
      case Array(items) =>
        ItemsAppend(v, 0, [CLOSE_BRACKET] + rest);
        ItemsAppend(v, 0, [CLOSE_BRACKET] + []);
      case Object(members) =>
        MembersAppend(v, SortedKeys(members.Keys), [CLOSE_BRACE] + rest);
        MembersAppend(v, SortedKeys(members.Keys), [CLOSE_BRACE] + []);
      case Float(text) =>
    }
  }

  lemma {:induction false} ItemsAppend(v: Json, i: nat, rest: Str)
    requires v.Array? && i <= |v.items|
    ensures PrintItems(v, i, rest) == PrintItems(v, i, []) + rest
    decreases v, |v.items| - i
  {
    if i < |v.items| {
      if i + 1 == |v.items| {
        PrintAppends(v.items[i], rest);
      } else {
        PrintAppends(v.items[i], [COMMA] + PrintItems(v, i + 1, rest));
        PrintAppends(v.items[i], [COMMA] + PrintItems(v, i + 1, []));
        ItemsAppend(v, i + 1, rest);
      }
    }
  }

  lemma {:induction false} MembersAppend(v: Json, keys: seq<Str>, rest: Str)
    requires v.Object? && forall k :: k in keys ==> k in v.members
    ensures PrintMembers(v, keys, rest) == PrintMembers(v, keys, []) + rest
    decreases v, |keys|
  {
    if keys != [] {
      var key, value := keys[0], v.members[keys[0]];
      if |keys| == 1 {
        PrintAppends(value, rest);
        QuoteAppends(key, [COLON] + Print(value, rest));
        QuoteAppends(key, [COLON] + Print(value, []));
      } else {
        MembersAppend(v, keys[1..], rest);
        var tail, bare := [COMMA] + PrintMembers(v, keys[1..], rest), [COMMA] + PrintMembers(v, keys[1..], []);
        PrintAppends(value, tail);
        PrintAppends(value, bare);
        QuoteAppends(key, [COLON] + Print(value, tail));
        QuoteAppends(key, [COLON] + Print(value, bare));
      }
    }
  }

  // ---- No text is shorter ----

  /** The text is no shorter than the printed one; it is the printed one if it is as short, and tidy. */
  ghost predicate Bounds(s: Str, printed: Str, tidy: bool) {
    |s| >= |printed| && (|s| == |printed| && tidy ==> s == printed)
  }

  lemma {:induction false} BlanksAreSkipped(s: Str)
    ensures |SkipBlanks(s)| == |s| ==> SkipBlanks(s) == s
  {
  }

  lemma HexDigitsAreLower(c: CodePoint)
    requires 0 <= HexValue(c) && !(0x41 <= c <= 0x46)
    ensures c == HexDigit(HexValue(c))
  {
  }

  /** An escape is no shorter than the printed form of its character. */
  lemma EscapeIsNoShorter(s: Str)
    requires s != [] && s[0] == BACKSLASH && ReadEscape(s[1..]).Read?
    ensures var r := ReadEscape(s[1..]);
      Bounds(s, EscapeChar(r.value) + r.rest, LowerCase(s, |s| - |r.rest|))
  {
    var r := ReadEscape(s[1..]);
    if |s| - |r.rest| == 2 {
      assert s == [BACKSLASH, s[1]] + s[2..];
    } else if |s| - |r.rest| == 6 && LowerCase(s, 6) {
      UnicodeEscapeIsPrinted(s);
    }
  }

  lemma UnicodeEscapeIsPrinted(s: Str)
    requires |s| >= 6 && s[0] == BACKSLASH && s[1] == LETTER_U && FourHex(s[2..]) >= 0 && LowerCase(s, 6)
    ensures var c := FourHex(s[2..]);
      |EscapeChar(c)| == 6 ==> s == EscapeChar(c) + s[6..]
  {
    var c := FourHex(s[2..]);
    assert s == s[..6] + s[6..];
    if |EscapeChar(c)| == 6 {
      HexDigitsAreLower(s[2]);
      HexDigitsAreLower(s[3]);
      HexDigitsAreLower(s[4]);
      HexDigitsAreLower(s[5]);
      assert s[2..][0] == s[2] && s[2..][1] == s[3] && s[2..][2] == s[4] && s[2..][3] == s[5];
      assert s[..6] == EscapeChar(c);
    }
  }

  lemma {:induction false} StringIsNoShorter(s: Str)
    requires ReadString(s).Read?
    ensures Bounds(s, Escape(ReadString(s).value, [QUOTE] + ReadString(s).rest), TidyString(s))
    decreases |s|
  {
    if s[0] == QUOTE {
      assert s == [QUOTE] + s[1..];
    } else if s[0] == BACKSLASH {
      var first := ReadEscape(s[1..]);
      var more := ReadString(first.rest);
      EscapeIsNoShorter(s);
      StringIsNoShorter(first.rest);
      assert ([first.value] + more.value)[1..] == more.value;
    } else {
      var more := ReadString(s[1..]);
      StringIsNoShorter(s[1..]);
      assert ([s[0]] + more.value)[1..] == more.value;
      assert s == [s[0]] + s[1..];
    }
  }

  // ---- Numbers ----

  lemma {:induction false} DecimalIsUnique(d: Str)
    requires d != [] && (forall i :: 0 <= i < |d| ==> IsDigit(d[i])) && (d[0] == 0x30 ==> |d| == 1)
    ensures Decimal(NatValue(d)) == d && (NatValue(d) == 0 ==> d == [0x30])
    decreases |d|
  {
    var front, last := d[..|d| - 1], d[|d| - 1];
    assert IsDigit(last);
    assert d == front + [last];
    if front != [] {
      DecimalIsUnique(front);
    }
  }

  lemma SignedIsNoShorter(sign: Str, d: Str, rest: Str)
    requires sign == [] || sign == [MINUS]
    requires d != [] && (forall i :: 0 <= i < |d| ==> IsDigit(d[i])) && (d[0] == 0x30 ==> |d| == 1)
    ensures var value: int := NatValue(d);
      Bounds(sign + d + rest, PrintInt(if sign == [] then value else -value) + rest, true)
  {
    PrintedDigits(d);
    if sign == [] {
      assert [] + d == d;
    } else if d == [0x30] {
      assert |sign + d + rest| == 2 + |rest|;
    }
  }

  lemma PrintedDigits(d: Str)
    requires d != [] && (forall i :: 0 <= i < |d| ==> IsDigit(d[i])) && (d[0] == 0x30 ==> |d| == 1)
    ensures var value: int := NatValue(d);
      PrintInt(value) == d && (if value == 0 then d == [0x30] else PrintInt(-value) == [MINUS] + d)
  {
    DecimalIsUnique(d);
  }

  /** The sign, the digits and the end of an integer. */
  lemma IntegerParts(s: Str) returns (sign: Str, d: Str, rest: Str)
    requires ReadNumber(s).Read? && ReadNumber(s).value.Int?
    ensures s == sign + d + rest && (sign == [] || sign == [MINUS])
    ensures d != [] && (forall i :: 0 <= i < |d| ==> IsDigit(d[i])) && (d[0] == 0x30 ==> |d| == 1)
    ensures var value: int := NatValue(d); ReadNumber(s) == Read(Int(if sign == [] then value else -value), rest)
  {
    var i := if s[0] == MINUS then 1 else 0;
    var j := if s[i] == 0x30 then i + 1 else DigitsEnd(s, i);
    assert ReadNumber(s) == NumberAt(s, i, j);
    sign, d, rest := s[..i], s[i..j], s[j..];
    assert d[0] == s[i];
    forall k | 0 <= k < |d|
      ensures IsDigit(d[k])
    {
      assert d[k] == s[i + k];
    }
  }

  /** An integer without superfluous zeros is printed as it was read, but for the sign of zero. */
  lemma NumberIsNoShorter(s: Str)
    requires ReadNumber(s).Read? && ReadNumber(s).value.Int?
    ensures Bounds(s, PrintInt(ReadNumber(s).value.n) + ReadNumber(s).rest, true)
  {
    var sign, d, rest := IntegerParts(s);
    SignedIsNoShorter(sign, d, rest);
  }

  // ---- Arrays and objects ----

  lemma ItemsTail(v: Json, w: Json, i: nat, j: nat, rest: Str)
    requires v.Array? && w.Array? && i <= |v.items| && j <= |w.items| && v.items[i..] == w.items[j..]
    ensures PrintItems(v, i, rest) == PrintItems(w, j, rest)
    decreases |v.items| - i
  {
    assert |v.items| - i == |w.items| - j;
    if i < |v.items| {
      assert v.items[i] == v.items[i..][0] == w.items[j..][0] == w.items[j];
      assert v.items[i + 1..] == v.items[i..][1..] == w.items[j..][1..] == w.items[j + 1..];
      ItemsTail(v, w, i + 1, j + 1, rest);
    }
  }

  lemma LastItemIsNoShorter(s: Str, v: Json, after: Str, rest: Str, tidy: bool)
    requires Bounds(s, Print(v, after), tidy) && SkipBlanks(after) == [CLOSE_BRACKET] + rest
    ensures Bounds(s, PrintItems(Array([v]), 0, [CLOSE_BRACKET] + rest), tidy)
  {
    BlanksAreSkipped(after);
    PrintAppends(v, after);
    PrintAppends(v, [CLOSE_BRACKET] + rest);
  }

  lemma NextItemIsNoShorter(s: Str, v: Json, after: Str, next: Str, items: seq<Json>, rest: Str, one: bool, more: bool)
    requires Bounds(s, Print(v, after), one) && items != []
    requires SkipBlanks(after) != [] && SkipBlanks(after)[0] == COMMA && next == SkipBlanks(SkipBlanks(after)[1..])
    requires Bounds(next, PrintItems(Array(items), 0, [CLOSE_BRACKET] + rest), more)
    ensures Bounds(s, PrintItems(Array([v] + items), 0, [CLOSE_BRACKET] + rest), one && more)
  {
    var comma, tail := SkipBlanks(after), PrintItems(Array(items), 0, [CLOSE_BRACKET] + rest);
    BlanksAreSkipped(after);
    BlanksAreSkipped(comma[1..]);
    assert comma == [COMMA] + comma[1..];
    ItemsTail(Array([v] + items), Array(items), 1, 0, [CLOSE_BRACKET] + rest);
    PrintAppends(v, after);
    PrintAppends(v, [COMMA] + tail);
  }

  lemma MemberIsNoShorter(s: Str)
    requires var m := MemberAt(s); m.Member? && FloatFree(m.value)
    requires Bounds(s[1..], Escape(MemberAt(s).key, [QUOTE] + ReadString(s[1..]).rest), TidyString(s[1..]))
    requires var m := MemberAt(s); Bounds(m.text, Print(m.value, ReadValue(m.text).rest), TidyValue(m.text))
    ensures var m := MemberAt(s);
      Bounds(s, Quote(m.key, [COLON] + Print(m.value, m.after)), TidyString(s[1..]) && TidyValue(m.text))
  {
    var m, key, value := MemberAt(s), ReadString(s[1..]), ReadValue(MemberAt(s).text);
    var colon := SkipBlanks(key.rest);
    BlanksAreSkipped(key.rest);
    BlanksAreSkipped(colon[1..]);
    BlanksAreSkipped(value.rest);
    assert s == [QUOTE] + s[1..] && colon == [COLON] + colon[1..];
    EscapeAppends(m.key, [QUOTE], key.rest);
    EscapeAppends(m.key, [QUOTE], [COLON] + Print(m.value, m.after));
    PrintAppends(m.value, value.rest);
    PrintAppends(m.value, m.after);
  }

  lemma MembersUnfold(s: Str, seen: map<Str, Json>)
    requires ReadMembers(s, seen).Read?
    ensures var m := MemberAt(s);
      && m.Member? && m.key !in seen && m.after != []
      && (m.after[0] == COMMA ==>
            ReadMembers(s, seen) == ReadMembers(SkipBlanks(m.after[1..]), seen[m.key := m.value]))
      && (m.after[0] != COMMA ==>
            m.after[0] == CLOSE_BRACE && ReadMembers(s, seen) == Read(seen[m.key := m.value], m.after[1..]))
  {
  }

  ghost predicate Distinct(keys: seq<Str>) {
    forall i, j :: 0 <= i < j < |keys| ==> keys[i] != keys[j]
  }

  /** The keys of a text are those that the reader adds, once each, and their values stay. */
  lemma {:induction false} KeysAreRead(s: Str, seen: map<Str, Json>)
    requires ReadMembers(s, seen).Read?
    ensures var all, keys := ReadMembers(s, seen).value, KeysAt(s);
      && keys != [] && Distinct(keys) && (forall k :: k in keys ==> k !in seen)
      && (forall k :: k in all <==> k in seen || k in keys)
      && (forall k :: k in seen ==> all[k] == seen[k])
    decreases |s|
  {
    var m := MemberAt(s);
    MembersUnfold(s, seen);
    if m.after[0] == COMMA {
      var more := KeysAt(SkipBlanks(m.after[1..]));
      KeysAreRead(SkipBlanks(m.after[1..]), seen[m.key := m.value]);
      assert KeysAt(s) == [m.key] + more;
      forall j | 0 <= j < |more|
        ensures more[j] != m.key
      {
        assert more[j] in more;
      }
    }
  }

  lemma LastMemberIsNoShorter(s: Str, v: Json, key: Str, rest: Str, tidy: bool)
    requires v.Object? && key in v.members
    requires Bounds(s, Quote(key, [COLON] + Print(v.members[key], [CLOSE_BRACE] + rest)), tidy)
    ensures Bounds(s, PrintMembers(v, [key], [CLOSE_BRACE] + rest), tidy)
  {
  }

  lemma NextMemberIsNoShorter(s: Str, v: Json, key: Str, after: Str, keys: seq<Str>, rest: Str, one: bool, more: bool)
    requires v.Object? && key in v.members && keys != [] && forall k :: k in keys ==> k in v.members
    requires after != [] && after[0] == COMMA
    requires Bounds(s, Quote(key, [COLON] + Print(v.members[key], after)), one)
    requires Bounds(SkipBlanks(after[1..]), PrintMembers(v, keys, [CLOSE_BRACE] + rest), more)
    ensures Bounds(s, PrintMembers(v, [key] + keys, [CLOSE_BRACE] + rest), one && more)
  {
    var tail := PrintMembers(v, keys, [CLOSE_BRACE] + rest);
    var value := v.members[key];
    BlanksAreSkipped(after[1..]);
    assert after == [COMMA] + after[1..];
    assert ([key] + keys)[1..] == keys;
    PrintAppends(value, after);
    PrintAppends(value, [COMMA] + tail);
    QuoteAppends(key, [COLON] + Print(value, after));
    QuoteAppends(key, [COLON] + Print(value, [COMMA] + tail));
  }

  // ---- The order of the members does not change the length ----

  ghost function Weight(v: Json, keys: seq<Str>): nat
    requires v.Object? && forall k :: k in keys ==> k in v.members
  {
    if keys == [] then 0 else |Quote(keys[0], [])| + 2 + |Print(v.members[keys[0]], [])| + Weight(v, keys[1..])
  }

  lemma {:induction false} MembersLength(v: Json, keys: seq<Str>, rest: Str)
    requires v.Object? && keys != [] && forall k :: k in keys ==> k in v.members
    ensures |PrintMembers(v, keys, rest)| == Weight(v, keys) - 1 + |rest|
    decreases |keys|
  {
    var key, value := keys[0], v.members[keys[0]];
    if |keys| == 1 {
      PrintAppends(value, rest);
      QuoteAppends(key, [COLON] + Print(value, rest));
      assert Weight(v, keys[1..]) == 0;
    } else {
      var tail := [COMMA] + PrintMembers(v, keys[1..], rest);
      MembersLength(v, keys[1..], rest);
      PrintAppends(value, tail);
      QuoteAppends(key, [COLON] + Print(value, tail));
    }
  }

  lemma {:induction false} WeightWithout(v: Json, keys: seq<Str>, i: nat)
    requires v.Object? && i < |keys| && forall k :: k in keys ==> k in v.members
    ensures forall k :: k in keys[..i] + keys[i + 1..] ==> k in v.members
    ensures Weight(v, keys) == Weight(v, [keys[i]]) + Weight(v, keys[..i] + keys[i + 1..])
    decreases i
  {
    if i == 0 {
      assert keys[..0] + keys[1..] == keys[1..];
    } else {
      WeightWithout(v, keys[1..], i - 1);
      assert keys[1..][..i - 1] + keys[1..][i..] == (keys[..i] + keys[i + 1..])[1..];
    }
  }

  lemma {:induction false} SameWeight(v: Json, a: seq<Str>, b: seq<Str>)
    requires v.Object? && (forall k :: k in a ==> k in v.members) && Distinct(a) && Distinct(b)
    requires forall k :: k in a <==> k in b
    ensures Weight(v, a) == Weight(v, b)
    decreases |a|
  {
    assert b != [] ==> b[0] in b;
    if a != [] {
      assert a[0] in a;
      var i :| 0 <= i < |b| && b[i] == a[0];
      WeightWithout(v, b, i);
      WithoutKeepsMembers(a, b, i);
      SameWeight(v, a[1..], b[..i] + b[i + 1..]);
    }
  }

  lemma WithoutKeepsMembers(a: seq<Str>, b: seq<Str>, i: nat)
    requires a != [] && i < |b| && b[i] == a[0] && Distinct(a) && Distinct(b) && forall k :: k in a <==> k in b
    ensures Distinct(a[1..]) && Distinct(b[..i] + b[i + 1..])
    ensures forall k :: k in a[1..] <==> k in b[..i] + b[i + 1..]
  {
    var less := b[..i] + b[i + 1..];
    forall k
      ensures k in a[1..] <==> k in less
    {
      assert k in a[1..] <==> k in a && k != a[0];
      assert k in less <==> k in b && k != b[i] by {
        if k in b && k != b[i] {
          var j :| 0 <= j < |b| && b[j] == k;
          assert less[if j < i then j else j - 1] == k;
        }
      }
    }
  }

  /** Increasing lists of the same keys are equal. */
  lemma {:induction false} OrderIsUnique(a: seq<Str>, b: seq<Str>)
    requires InOrder(a) && InOrder(b) && forall k :: k in a <==> k in b
    ensures a == b
    decreases |a|
  {
    assert b != [] ==> b[0] in b;
    if a != [] {
      assert a[0] in a && b != [];
      assert b[0] in b;
      FirstIsLeast(a, b);
      FirstIsLeast(b, a);
      BeforeIsStrict(a[0], b[0]);
      BeforeIsStrict(b[0], a[0]);
      LeqTotal(a[0], b[0]);
      TailsAgree(a, b);
      OrderIsUnique(a[1..], b[1..]);
      assert a == [a[0]] + a[1..] && b == [b[0]] + b[1..];
    }
  }

  lemma FirstIsLeast(a: seq<Str>, b: seq<Str>)
    requires a != [] && b != [] && InOrder(a) && b[0] in a
    ensures a[0] == b[0] || Before(a[0], b[0])
  {
    var i :| 0 <= i < |a| && a[i] == b[0];
  }

  lemma TailsAgree(a: seq<Str>, b: seq<Str>)
    requires a != [] && b != [] && a[0] == b[0] && InOrder(a) && InOrder(b) && forall k :: k in a <==> k in b
    ensures InOrder(a[1..]) && InOrder(b[1..]) && forall k :: k in a[1..] <==> k in b[1..]
  {
    forall k
      ensures (k in a[1..] <==> k in a && k != a[0]) && (k in b[1..] <==> k in b && k != b[0])
    {
      BeforeIsStrict(k, k);
    }
  }

  lemma SortedIsInOrder(keys: set<Str>)
    ensures InOrder(SortedKeys(keys)) && Distinct(SortedKeys(keys))
  {
    var sorted := SortedKeys(keys);
    forall i, j | 0 <= i < j < |sorted|
      ensures Before(sorted[i], sorted[j])
    {
      BeforeIsStrict(sorted[i], sorted[j]);
    }
  }

  lemma AnyOrderIsAsLong(v: Json, keys: seq<Str>, rest: Str)
    requires v.Object? && keys != [] && Distinct(keys) && forall k :: k in keys <==> k in v.members
    ensures |PrintMembers(v, keys, rest)| == |PrintMembers(v, SortedKeys(v.members.Keys), rest)|
    ensures InOrder(keys) ==> keys == SortedKeys(v.members.Keys)
  {
    var sorted := SortedKeys(v.members.Keys);
    SortedIsInOrder(v.members.Keys);
    assert keys[0] in sorted;
    SameWeight(v, keys, sorted);
    MembersLength(v, keys, rest);
    MembersLength(v, sorted, rest);
    if InOrder(keys) {
      OrderIsUnique(keys, sorted);
    }
  }

  // ---- Every reading ----

  lemma WordIsNoShorter(s: Str, word: Str, v: Json)
    requires word != [] && ReadWord(s, word, v).Read?
    ensures s == word + ReadWord(s, word, v).rest
  {
    assert s == s[..|word|] + s[|word|..];
  }

  lemma ArrayIsNoShorter(s: Str, items: seq<Json>, rest: Str, tidy: bool)
    requires s != [] && s[0] == OPEN_BRACKET
    requires Bounds(SkipBlanks(s[1..]), PrintItems(Array(items), 0, [CLOSE_BRACKET] + rest), tidy)
    ensures Bounds(s, Print(Array(items), rest), tidy)
  {
    BlanksAreSkipped(s[1..]);
    assert s == [OPEN_BRACKET] + s[1..];
  }

  lemma FullObjectPrints(members: map<Str, Json>, rest: Str)
    ensures Print(Object(members), rest) ==
            [OPEN_BRACE] + PrintMembers(Object(members), SortedKeys(members.Keys), [CLOSE_BRACE] + rest)
  {
  }

  lemma OpenIsNoShorter(s: Str, open: CodePoint, printed: Str, tidy: bool)
    requires s != [] && s[0] == open && Bounds(SkipBlanks(s[1..]), printed, tidy)
    ensures Bounds(s, [open] + printed, tidy)
  {
    BlanksAreSkipped(s[1..]);
    assert s == [open] + s[1..];
  }

  lemma ObjectIsNoShorter(s: Str, members: map<Str, Json>, keys: seq<Str>, rest: Str, tidy: bool)
    requires s != [] && s[0] == OPEN_BRACE && keys != [] && Distinct(keys) && forall k :: k in keys <==> k in members
    requires Bounds(SkipBlanks(s[1..]), PrintMembers(Object(members), keys, [CLOSE_BRACE] + rest), tidy)
    ensures Bounds(s, Print(Object(members), rest), tidy && InOrder(keys))
  {
    AnyOrderIsAsLong(Object(members), keys, [CLOSE_BRACE] + rest);
    FullObjectPrints(members, rest);
    OpenIsNoShorter(s, OPEN_BRACE, PrintMembers(Object(members), keys, [CLOSE_BRACE] + rest), tidy);
  }

  lemma EmptyIsNoShorter(s: Str, open: CodePoint, close: CodePoint)
    requires s != [] && s[0] == open && SkipBlanks(s[1..]) != [] && SkipBlanks(s[1..])[0] == close
    ensures Bounds(s, [open] + ([close] + SkipBlanks(s[1..])[1..]), true)
  {
    BlanksAreSkipped(s[1..]);
    assert s == [open] + s[1..];
    assert SkipBlanks(s[1..]) == [close] + SkipBlanks(s[1..])[1..];
  }

  lemma EmptyHasNoKeys()
    ensures SortedKeys({}) == []
  {
  }

  /** No text of a value without fractions is shorter than the printed one, and a tidy one that is as short is it. */
  lemma {:induction false} ValueIsNoShorter(s: Str)
    requires ReadValue(s).Read? && FloatFree(ReadValue(s).value)
    ensures Bounds(s, Print(ReadValue(s).value, ReadValue(s).rest), TidyValue(s))
    decreases |s|, 0
  {
    if s[0] == QUOTE {
      StringIsNoShorter(s[1..]);
      assert s == [QUOTE] + s[1..];
    } else if s[0] == OPEN_BRACKET {
      var inner := SkipBlanks(s[1..]);
      if inner != [] && inner[0] == CLOSE_BRACKET {
        EmptyIsNoShorter(s, OPEN_BRACKET, CLOSE_BRACKET);
      } else {
        ItemsAreNoShorter(inner);
        ArrayIsNoShorter(s, ReadItems(inner).value, ReadItems(inner).rest, TidyItems(inner));
      }
    } else if s[0] == OPEN_BRACE {
      var inner := SkipBlanks(s[1..]);
      if inner != [] && inner[0] == CLOSE_BRACE {
        EmptyIsNoShorter(s, OPEN_BRACE, CLOSE_BRACE);
        EmptyHasNoKeys();
      } else {
        var r := ReadMembers(inner, map[]);
        KeysAreRead(inner, map[]);
        MembersAreNoShorter(inner, map[], Object(r.value));
        ObjectIsNoShorter(s, r.value, KeysAt(inner), r.rest, TidyMembers(inner));
      }
    } else if s[0] == LETTER_N {
      WordIsNoShorter(s, NULL_TEXT, Null);
    } else if s[0] == LETTER_T {
      WordIsNoShorter(s, TRUE_TEXT, Bool(true));
    } else if s[0] == LETTER_F {
      WordIsNoShorter(s, FALSE_TEXT, Bool(false));
    } else {
      NumberIsNoShorter(s);
    }
  }

  lemma {:induction false} ItemsAreNoShorter(s: Str)
    requires ReadItems(s).Read? && FloatFree(Array(ReadItems(s).value))
    ensures Bounds(s, PrintItems(Array(ReadItems(s).value), 0, [CLOSE_BRACKET] + ReadItems(s).rest), TidyItems(s))
    decreases |s|, 1
  {
    var first := ReadValue(s);
    var after := SkipBlanks(first.rest);
    var all := ReadItems(s).value;
    assert all[0] == first.value;
    ValueIsNoShorter(s);
    if after[0] == CLOSE_BRACKET {
      assert after == [CLOSE_BRACKET] + after[1..];
      LastItemIsNoShorter(s, first.value, first.rest, after[1..], TidyValue(s));
    } else {
      var next := SkipBlanks(after[1..]);
      var more := ReadItems(next);
      assert all == [first.value] + more.value && all[1..] == more.value;
      assert forall i :: 0 <= i < |more.value| ==> more.value[i] == all[i + 1];
      ItemsAreNoShorter(next);
      NextItemIsNoShorter(s, first.value, first.rest, next, more.value, more.rest, TidyValue(s), TidyItems(next));
    }
  }

  /** The first member of a text that reads as members of v. */
  lemma FirstMember(s: Str, seen: map<Str, Json>, v: Json)
    requires ReadMembers(s, seen).Read? && v == Object(ReadMembers(s, seen).value) && FloatFree(v)
    ensures var m := MemberAt(s);
      && m.Member? && ReadString(s[1..]).Read? && ReadString(s[1..]).value == m.key
      && ReadValue(m.text).Read? && ReadValue(m.text).value == m.value
      && m.key in v.members && v.members[m.key] == m.value && FloatFree(m.value)
  {
    var m := MemberAt(s);
    MembersUnfold(s, seen);
    if m.after[0] == COMMA {
      KeysAreRead(SkipBlanks(m.after[1..]), seen[m.key := m.value]);
    }
  }

  lemma KeysAreMembers(s: Str, seen: map<Str, Json>)
    requires ReadMembers(s, seen).Read?
    ensures KeysAt(s) != [] && forall k :: k in KeysAt(s) ==> k in ReadMembers(s, seen).value
  {
    KeysAreRead(s, seen);
  }

  lemma {:induction false} MembersAreNoShorter(s: Str, seen: map<Str, Json>, v: Json)
    requires ReadMembers(s, seen).Read? && v == Object(ReadMembers(s, seen).value) && FloatFree(v)
    ensures (forall k :: k in KeysAt(s) ==> k in v.members)
    ensures Bounds(s, PrintMembers(v, KeysAt(s), [CLOSE_BRACE] + ReadMembers(s, seen).rest), TidyMembers(s))
    decreases |s|, 1
  {
    var m, rest := MemberAt(s), ReadMembers(s, seen).rest;
    MembersUnfold(s, seen);
    KeysAreMembers(s, seen);
    FirstMember(s, seen, v);
    StringIsNoShorter(s[1..]);
    ValueIsNoShorter(m.text);
    MemberIsNoShorter(s);
    if m.after[0] == COMMA {
      var next := SkipBlanks(m.after[1..]);
      KeysAreMembers(next, seen[m.key := m.value]);
      MembersAreNoShorter(next, seen[m.key := m.value], v);
      NextMemberIsNoShorter(s, v, m.key, m.after, KeysAt(next), rest, TidyString(s[1..]) && TidyValue(m.text),
                            TidyMembers(next));
    } else {
      assert m.after == [CLOSE_BRACE] + m.after[1..];
      LastMemberIsNoShorter(s, v, m.key, rest, TidyString(s[1..]) && TidyValue(m.text));
    }
  }

  // ---- The printed text is tidy ----

  lemma CharIsTidy(c: CodePoint, tail: Str)
    requires TidyString(tail)
    ensures TidyString(EscapeChar(c) + tail)
  {
    var e := EscapeChar(c);
    var s := e + tail;
    EscapedCharIsRead(c, tail);
    assert s[1..] == e[1..] + tail;
    assert e == [c] ==> s[1..] == tail;
    if e[0] == BACKSLASH {
      assert |s| - |tail| == |e|;
      assert forall i :: 0 <= i < |e| ==> s[i] == e[i] && !(0x41 <= e[i] <= 0x46);
    }
  }

  lemma {:induction false} EscapedIsTidy(s: Str, rest: Str)
    ensures TidyString(Escape(s, [QUOTE] + rest))
  {
    if s != [] {
      EscapedIsTidy(s[1..], rest);
      CharIsTidy(s[0], Escape(s[1..], [QUOTE] + rest));
    }
  }

  lemma EndIsNotBlank(after: Str)
    requires after != [] && (after[0] == COMMA || after[0] == CLOSE_BRACKET || after[0] == CLOSE_BRACE)
    ensures SkipBlanks(after) == after && EndsValue(after)
  {
  }

  /** What the reader finds at a printed member. */
  lemma PrintedMember(key: Str, value: Json, after: Str)
    requires FloatFree(value) && after != [] && (after[0] == COMMA || after[0] == CLOSE_BRACE)
    ensures var text := Print(value, after);
      && MemberAt(Quote(key, [COLON] + text)) == Member(key, text, value, after)
      && Quote(key, [COLON] + text)[1..] == Escape(key, [QUOTE] + ([COLON] + text))
  {
    var text := Print(value, after);
    EndIsNotBlank(after);
    PrintedIsRead(value, after);
    MemberIsRead(key, value, after);
    FirstCharacter(value, after);
    assert Quote(key, [COLON] + text)[1..] == Escape(key, [QUOTE] + ([COLON] + text));
    EscapedTextIsRead(key, [COLON] + text);
    assert ([COLON] + text)[1..] == text;
  }

  lemma MembersStart(v: Json, keys: seq<Str>, rest: Str)
    requires v.Object? && keys != [] && forall k :: k in keys ==> k in v.members
    ensures var text := PrintMembers(v, keys, rest); text != [] && text[0] == QUOTE && SkipBlanks(text) == text
  {
  }

  lemma {:induction false} PrintedIsTidy(v: Json, rest: Str)
    requires FloatFree(v) && EndsValue(rest)
    ensures TidyValue(Print(v, rest))
    decreases v
  {
    match v {
      case Null =>
      case Bool(b) =>
      case Int(n) => FirstCharacter(v, rest);
      case String(s) =>
        EscapedIsTidy(s, rest);
        assert Print(v, rest)[1..] == Escape(s, [QUOTE] + rest);
      case Array(items) =>
        var inner := PrintItems(v, 0, [CLOSE_BRACKET] + rest);
        assert Print(v, rest)[1..] == inner;
        if items == [] {
          EmptyItemsAreTidy(rest);
        } else {
          PrintedItemsAreRead(v, 0, rest);
          PrintedItemsAreTidy(v, 0, rest);
        }
      case Object(members) =>
        var keys := SortedKeys(members.Keys);
        var inner := PrintMembers(v, keys, [CLOSE_BRACE] + rest);
        FullObjectPrints(members, rest);
        assert Print(v, rest)[1..] == inner;
        SortedIsInOrder(members.Keys);
        if keys == [] {
          EmptyMembersAreTidy(rest);
        } else {
          MembersStart(v, keys, [CLOSE_BRACE] + rest);
          PrintedMembersAreTidy(v, keys, rest);
        }
    }
  }

  lemma EmptyItemsAreTidy(rest: Str)
    ensures SkipBlanks([CLOSE_BRACKET] + rest) == [CLOSE_BRACKET] + rest && TidyItems([CLOSE_BRACKET] + rest)
  {
    assert ReadValue([CLOSE_BRACKET] + rest).Rejected?;
  }

  lemma EmptyMembersAreTidy(rest: Str)
    ensures var text := [CLOSE_BRACE] + rest; SkipBlanks(text) == text && TidyMembers(text) && KeysAt(text) == []
  {
  }

  lemma {:induction false} PrintedItemsAreTidy(v: Json, i: nat, rest: Str)
    requires v.Array? && FloatFree(v) && i < |v.items|
    ensures TidyItems(PrintItems(v, i, [CLOSE_BRACKET] + rest))
    decreases v, |v.items| - i
  {
    var item := v.items[i];
    if i + 1 == |v.items| {
      var after := [CLOSE_BRACKET] + rest;
      PrintedIsTidy(item, after);
      PrintedIsRead(item, after);
    } else {
      var tail := PrintItems(v, i + 1, [CLOSE_BRACKET] + rest);
      var after := [COMMA] + tail;
      PrintedIsTidy(item, after);
      PrintedIsRead(item, after);
      PrintedItemsAreRead(v, i + 1, rest);
      PrintedItemsAreTidy(v, i + 1, rest);
      assert after[1..] == tail && SkipBlanks(tail) == tail;
    }
  }

  lemma MemberIsTidy(s: Str, m: Member)
    requires MemberAt(s) == m && m.Member? && m.after != [] && TidyString(s[1..]) && TidyValue(m.text)
    requires m.after[0] == COMMA ==> TidyMembers(SkipBlanks(m.after[1..]))
    ensures TidyMembers(s)
    ensures KeysAt(s) == [m.key] + if m.after[0] == COMMA then KeysAt(SkipBlanks(m.after[1..])) else []
  {
  }

  lemma PrintedMemberIsTidy(key: Str, value: Json, after: Str)
    requires FloatFree(value) && after != [] && (after[0] == COMMA || after[0] == CLOSE_BRACE)
    requires TidyValue(Print(value, after)) && (after[0] == COMMA ==> TidyMembers(SkipBlanks(after[1..])))
    ensures var s := Quote(key, [COLON] + Print(value, after));
      && TidyMembers(s)
      && KeysAt(s) == [key] + if after[0] == COMMA then KeysAt(SkipBlanks(after[1..])) else []
  {
    PrintedMember(key, value, after);
    EscapedIsTidy(key, [COLON] + Print(value, after));
    MemberIsTidy(Quote(key, [COLON] + Print(value, after)), Member(key, Print(value, after), value, after));
  }

  lemma {:induction false} PrintedMembersAreTidy(v: Json, keys: seq<Str>, rest: Str)
    requires v.Object? && FloatFree(v) && keys != [] && forall k :: k in keys ==> k in v.members
    ensures var text := PrintMembers(v, keys, [CLOSE_BRACE] + rest); TidyMembers(text) && KeysAt(text) == keys
    decreases v, |keys|
  {
    var key, value := keys[0], v.members[keys[0]];
    if |keys| == 1 {
      PrintedIsTidy(value, [CLOSE_BRACE] + rest);
      PrintedMemberIsTidy(key, value, [CLOSE_BRACE] + rest);
      assert keys == [key];
    } else {
      var tail := PrintMembers(v, keys[1..], [CLOSE_BRACE] + rest);
      PrintedIsTidy(value, [COMMA] + tail);
      PrintedMembersAreTidy(v, keys[1..], rest);
      MembersStart(v, keys[1..], [CLOSE_BRACE] + rest);
      assert ([COMMA] + tail)[1..] == tail;
      PrintedMemberIsTidy(key, value, [COMMA] + tail);
      assert keys == [key] + keys[1..];
    }
  }

  // ---- No control characters ----

  predicate NoControl(s: Str) {
    forall i :: 0 <= i < |s| ==> s[i] >= 0x20
  }

  lemma {:induction false} EscapeHasNoControl(s: Str, rest: Str)
    requires NoControl(rest)
    ensures NoControl(Escape(s, rest))
  {
    if s != [] {
      EscapeHasNoControl(s[1..], rest);
      assert NoControl(EscapeChar(s[0]));
    }
  }

  lemma QuoteHasNoControl(s: Str, rest: Str)
    requires NoControl(rest)
    ensures NoControl(Quote(s, rest))
  {
    EscapeHasNoControl(s, [QUOTE] + rest);
  }

  lemma IntegerHasNoControl(n: int, rest: Str)
    requires NoControl(rest)
    ensures NoControl(PrintInt(n) + rest)
  {
    DecimalIsDigits(if n < 0 then -n else n);
  }

  lemma {:induction false} PrintHasNoControl(v: Json, rest: Str)
    requires FloatFree(v) && NoControl(rest)
    ensures NoControl(Print(v, rest))
    decreases v
  {
    match v {
      case Null =>
      case Bool(b) =>
      case Int(n) => IntegerHasNoControl(n, rest);
      case String(s) => QuoteHasNoControl(s, rest);
      case Array(items) => ItemsHaveNoControl(v, 0, [CLOSE_BRACKET] + rest);
      case Object(members) => MembersHaveNoControl(v, SortedKeys(members.Keys), [CLOSE_BRACE] + rest);
    }
  }

  lemma {:induction false} ItemsHaveNoControl(v: Json, i: nat, rest: Str)
    requires v.Array? && FloatFree(v) && i <= |v.items| && NoControl(rest)
    ensures NoControl(PrintItems(v, i, rest))
    decreases v, |v.items| - i
  {
    if i < |v.items| {
      if i + 1 < |v.items| {
        ItemsHaveNoControl(v, i + 1, rest);
      }
      PrintHasNoControl(v.items[i], if i + 1 == |v.items| then rest else [COMMA] + PrintItems(v, i + 1, rest));
    }
  }

  lemma {:induction false} MembersHaveNoControl(v: Json, keys: seq<Str>, rest: Str)
    requires v.Object? && FloatFree(v) && (forall k :: k in keys ==> k in v.members) && NoControl(rest)
    ensures NoControl(PrintMembers(v, keys, rest))
    decreases v, |keys|
  {
    if keys != [] {
      if |keys| > 1 {
        MembersHaveNoControl(v, keys[1..], rest);
      }
      var after := if |keys| == 1 then rest else [COMMA] + PrintMembers(v, keys[1..], rest);
      PrintHasNoControl(v.members[keys[0]], after);
      QuoteHasNoControl(keys[0], [COLON] + Print(v.members[keys[0]], after));
    }
  }

  // ---- One text per value ----

  /** The canonical text ends in a line feed, which is its only control character. */
  lemma CanonicalTextIsOneLine(v: Json)
    requires FloatFree(v)
    ensures CanonicalText(v) == Print(v, []) + [0x0A] && forall c :: c in Print(v, []) ==> c >= 0x20
  {
    PrintAppends(v, [LINE_FEED]);
    PrintHasNoControl(v, []);
  }

  lemma PrintedLoads(v: Json)
    requires FloatFree(v)
    ensures Loads(Print(v, [])) == Value(v)
  {
    FirstCharacter(v, []);
    PrintedIsRead(v, []);
  }

  /** The printed text is no longer than any text that loads to the same value, and the only tidy one of its length. */
  lemma LoadedIsNoShorter(v: Json, text: Str)
    requires FloatFree(v) && Loads(text) == Value(v)
    ensures |text| >= |Print(v, [])|
    ensures |text| == |Print(v, [])| && TidyValue(text) ==> text == Print(v, [])
  {
    var s := SkipBlanks(text);
    BlanksAreSkipped(text);
    ValueIsNoShorter(s);
    PrintAppends(v, ReadValue(s).rest);
  }

  /** A text loads to the value, and no text that does is shorter. */
  ghost predicate Shortest(v: Json, text: Str) {
    Loads(text) == Value(v) && forall other :: Loads(other) == Value(v) ==> |text| <= |other|
  }

  /** The canonical text is exactly the shortest tidy text of the value with one line feed behind it. */
  lemma CanonicalExactly(v: Json, text: Str)
    requires FloatFree(v)
    ensures text + [0x0A] == CanonicalText(v) <==> Shortest(v, text) && TidyValue(text)
  {
    CanonicalTextIsOneLine(v);
    PrintedLoads(v);
    PrintedIsTidy(v, []);
    forall other | Loads(other) == Value(v)
      ensures |Print(v, [])| <= |other|
    {
      LoadedIsNoShorter(v, other);
    }
    if Shortest(v, text) && TidyValue(text) {
      LoadedIsNoShorter(v, text);
    }
    if text + [0x0A] == Print(v, []) + [0x0A] {
      assert text == (text + [0x0A])[..|text|] == Print(v, []);
    }
  }
}
