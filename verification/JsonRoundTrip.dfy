/** Reading the canonical text gives back exactly the value that was printed. */
module JsonRoundTrip {
  import opened JsonText

  /** No number in the value has a fraction or an exponent. */
  ghost predicate FloatFree(v: Json)
    decreases v
  {
    match v
    case Array(items) => forall i :: 0 <= i < |items| ==> FloatFree(items[i])
    case Object(members) => forall k :: k in members ==> FloatFree(members[k])
    case Float(_) => false
    case _ => true
  }

  /** What may follow a printed value: the end of the text or one of the characters that end a value. */
  predicate EndsValue(rest: Str) {
    rest == [] || rest[0] == COMMA || rest[0] == CLOSE_BRACKET || rest[0] == CLOSE_BRACE || rest[0] == LINE_FEED
  }

  // ---- Strings ----

  lemma HexDigitValue(d: int)
    requires 0 <= d < 16
    ensures HexValue(HexDigit(d)) == d
  {
  }

  lemma EscapedCharIsRead(c: CodePoint, rest: Str)
    ensures EscapeChar(c) != [] && EscapeChar(c)[0] >= 0x20 && EscapeChar(c)[0] != QUOTE
    ensures EscapeChar(c)[0] == BACKSLASH ==> ReadEscape(EscapeChar(c)[1..] + rest) == Read(c, rest)
    ensures EscapeChar(c)[0] != BACKSLASH ==> EscapeChar(c) == [c]
  {
    var e := EscapeChar(c)[1..] + rest;
    if |EscapeChar(c)| == 2 {
      assert e[1..] == rest;
    } else if |EscapeChar(c)| == 6 {
      HexDigitValue(c / 16);
      HexDigitValue(c % 16);
      assert e[5..] == rest;
      assert FourHex(e[1..]) == c;
    }
  }

  /** One escaped character in front of a text that reads well. */
  lemma CharBeforeText(c: CodePoint, tail: Str, more: Str, rest: Str)
    requires ReadString(tail) == Read(more, rest)
    ensures ReadString(EscapeChar(c) + tail) == Read([c] + more, rest)
  {
    var e := EscapeChar(c);
    var text := e + tail;
    EscapedCharIsRead(c, tail);
    assert text[1..] == e[1..] + tail;
    assert e == [c] ==> text[1..] == tail;
  }

  lemma {:induction false} EscapedTextIsRead(s: Str, rest: Str)
    ensures ReadString(Escape(s, [QUOTE] + rest)) == Read(s, rest)
    decreases |s|
  {
    if s == [] {
      assert ([QUOTE] + rest)[1..] == rest;
    } else {
      EscapedTextIsRead(s[1..], rest);
      CharBeforeText(s[0], Escape(s[1..], [QUOTE] + rest), s[1..], rest);
      assert s == [s[0]] + s[1..];
    }
  }

  // ---- Numbers ----

  lemma {:induction false} DecimalIsDigits(n: nat)
    ensures forall i :: 0 <= i < |Decimal(n)| ==> IsDigit(Decimal(n)[i])
    ensures NatValue(Decimal(n)) == n
    ensures Decimal(n)[0] == 0x30 ==> n == 0
    ensures n == 0 ==> Decimal(n) == [0x30]
  {
    if n >= 10 {
      DecimalIsDigits(n / 10);
      assert Decimal(n)[..|Decimal(n)| - 1] == Decimal(n / 10);
    } else {
      assert Decimal(n)[..0] == [];
    }
  }

  lemma {:induction false} DigitsEndHere(s: Str, i: nat, j: nat)
    requires i <= j <= |s| && forall k :: i <= k < j ==> IsDigit(s[k])
    requires j < |s| ==> !IsDigit(s[j])
    ensures DigitsEnd(s, i) == j
    decreases j - i
  {
    if i < j {
      DigitsEndHere(s, i + 1, j);
    }
  }

  lemma NothingContinues(s: Str, j: nat)
    requires j <= |s| && EndsValue(s[j..])
    ensures ExponentEnd(s, FractionEnd(s, j)) == j
  {
    assert j < |s| ==> s[j] == s[j..][0];
  }

  /** Where a run of digits without a superfluous leading zero ends, when nothing continues the number. */
  lemma NumberEnds(s: Str, i: nat, j: nat)
    requires i < j <= |s| && (forall k :: i <= k < j ==> IsDigit(s[k])) && (s[i] == 0x30 ==> j == i + 1)
    requires EndsValue(s[j..])
    ensures (if s[i] == 0x30 then i + 1 else DigitsEnd(s, i)) == j && ExponentEnd(s, FractionEnd(s, j)) == j
  {
    assert j < |s| ==> s[j] == s[j..][0];
    DigitsEndHere(s, i, j);
    NothingContinues(s, j);
  }

  lemma DigitsAreRead(s: Str, i: nat, j: nat, value: int)
    requires i < j <= |s| && forall k :: i <= k < j ==> IsDigit(s[k])
    requires (if s[i] == 0x30 then i + 1 else DigitsEnd(s, i)) == j && ExponentEnd(s, FractionEnd(s, j)) == j
    requires i == (if s[0] == MINUS then 1 else 0) && NatValue(s[i..j]) == value
    ensures ReadNumber(s) == Read(Int(if i == 1 then -value else value), s[j..])
  {
    assert ReadNumber(s) == NumberAt(s, i, j);
  }

  lemma SignedDigitsAreRead(sign: Str, d: Str, rest: Str, value: int)
    requires sign == [] || sign == [MINUS]
    requires d != [] && (forall i :: 0 <= i < |d| ==> IsDigit(d[i])) && (d[0] == 0x30 ==> |d| == 1)
    requires EndsValue(rest) && value == NatValue(d)
    ensures ReadNumber(sign + d + rest) == Read(Int(if sign == [] then value else -value), rest)
  {
    var s, i, j := sign + d + rest, |sign|, |sign| + |d|;
    DigitsInPlace(sign, d, rest);
    NumberEnds(s, i, j);
    DigitsAreRead(s, i, j, value);
  }

  lemma MiddleInPlace(sign: Str, d: Str, rest: Str)
    ensures var s, i, j := sign + d + rest, |sign|, |sign| + |d|; s[i..j] == d && s[j..] == rest
  {
  }

  lemma DigitsInPlace(sign: Str, d: Str, rest: Str)
    requires sign == [] || sign == [MINUS]
    requires d != [] && forall i :: 0 <= i < |d| ==> IsDigit(d[i])
    ensures var s, i, j := sign + d + rest, |sign|, |sign| + |d|;
      && s[i..j] == d && s[j..] == rest && s[i] == d[0] && i == (if s[0] == MINUS then 1 else 0)
      && forall k :: i <= k < j ==> IsDigit(s[k])
  {
    var s, i, j := sign + d + rest, |sign|, |sign| + |d|;
    MiddleInPlace(sign, d, rest);
    forall k | i <= k < j
      ensures IsDigit(s[k])
    {
      assert s[k] == d[k - i];
    }
    assert IsDigit(s[i]);
  }

  lemma IntegerIsRead(n: int, rest: Str)
    requires EndsValue(rest)
    ensures ReadNumber(PrintInt(n) + rest) == Read(Int(n), rest)
  {
    var magnitude: nat := if n < 0 then -n else n;
    DecimalIsDigits(magnitude);
    DecimalStart(magnitude);
    SignedDigitsAreRead(if n < 0 then [MINUS] else [], Decimal(magnitude), rest, magnitude);
    assert [] + Decimal(magnitude) == Decimal(magnitude);
  }

  lemma DecimalStart(n: nat)
    ensures Decimal(n)[0] == 0x30 ==> |Decimal(n)| == 1
  {
    DecimalIsDigits(n);
  }

  // ---- Values ----

  lemma {:induction false} FirstCharacter(v: Json, rest: Str)
    requires FloatFree(v)
    ensures Print(v, rest) != []
    ensures var c := Print(v, rest)[0]; !IsBlank(c) && c != CLOSE_BRACKET && c != 0xFEFF
    ensures v.Int? ==> IsDigit(Print(v, rest)[0]) || Print(v, rest)[0] == MINUS
  {
    match v {
      case Int(n) => DecimalIsDigits(if n < 0 then -n else n);
      case _ =>
    }
  }

  lemma WordIsRead(word: Str, v: Json, rest: Str)
    requires word != []
    ensures ReadWord(word + rest, word, v) == Read(v, rest)
  {
    assert (word + rest)[|word|..] == rest;
  }

  // ---- One step of each reader ----

  lemma ReadWordValue(v: Json, rest: Str)
    requires v.Null? || v.Bool?
    ensures ReadValue(Print(v, rest)) == Read(v, rest)
  {
    match v {
      case Null => WordIsRead(NULL_TEXT, v, rest);
      case Bool(b) => WordIsRead(if b then TRUE_TEXT else FALSE_TEXT, v, rest);
    }
  }

  lemma ReadNumberValue(s: Str)
    requires s != [] && (IsDigit(s[0]) || s[0] == MINUS)
    ensures ReadValue(s) == ReadNumber(s)
  {
  }

  lemma ReadStringValue(inner: Str, text: Str, rest: Str)
    requires ReadString(inner) == Read(text, rest)
    ensures ReadValue([QUOTE] + inner) == Read(String(text), rest)
  {
    assert ([QUOTE] + inner)[1..] == inner;
  }

  lemma ReadEmptyArray(rest: Str)
    ensures ReadValue([OPEN_BRACKET] + ([CLOSE_BRACKET] + rest)) == Read(Array([]), rest)
  {
    var s := [OPEN_BRACKET] + ([CLOSE_BRACKET] + rest);
    assert s[1..] == [CLOSE_BRACKET] + rest;
    assert s[1..][1..] == rest;
  }

  lemma ReadFullArray(inner: Str, items: seq<Json>, rest: Str)
    requires inner != [] && !IsBlank(inner[0]) && inner[0] != CLOSE_BRACKET
    requires ReadItems(inner) == Read(items, rest)
    ensures ReadValue([OPEN_BRACKET] + inner) == Read(Array(items), rest)
  {
    assert ([OPEN_BRACKET] + inner)[1..] == inner;
  }

  lemma ReadLastItem(s: Str, v: Json, rest: Str)
    requires ReadValue(s) == Read(v, [CLOSE_BRACKET] + rest)
    ensures ReadItems(s) == Read([v], rest)
  {
    assert ([CLOSE_BRACKET] + rest)[1..] == rest;
  }

  lemma ReadNextItem(s: Str, v: Json, tail: Str, items: seq<Json>, rest: Str)
    requires ReadValue(s) == Read(v, [COMMA] + tail)
    requires tail != [] && !IsBlank(tail[0]) && ReadItems(tail) == Read(items, rest)
    ensures ReadItems(s) == Read([v] + items, rest)
  {
    assert ([COMMA] + tail)[1..] == tail;
  }

  lemma ReadEmptyObject(rest: Str)
    ensures ReadValue([OPEN_BRACE] + ([CLOSE_BRACE] + rest)) == Read(Object(map[]), rest)
  {
    var s := [OPEN_BRACE] + ([CLOSE_BRACE] + rest);
    assert s[1..] == [CLOSE_BRACE] + rest;
    assert s[1..][1..] == rest;
  }

  lemma ReadFullObject(inner: Str, members: map<Str, Json>, rest: Str)
    requires inner != [] && inner[0] == QUOTE
    requires ReadMembers(inner, map[]) == Read(members, rest)
    ensures ReadValue([OPEN_BRACE] + inner) == Read(Object(members), rest)
  {
    assert ([OPEN_BRACE] + inner)[1..] == inner;
  }

  /** A member's text reads as its key, a colon and its value, and leaves `after`. */
  ghost predicate MemberReads(s: Str, text: Str, key: Str, value: Json, after: Str) {
    && s != [] && s[0] == QUOTE
    && text != [] && !IsBlank(text[0]) && ReadString(s[1..]) == Read(key, [COLON] + text)
    && ReadValue(text) == Read(value, after)
  }

  lemma ReadLastMember(s: Str, text: Str, key: Str, value: Json, seen: map<Str, Json>, rest: Str)
    requires MemberReads(s, text, key, value, [CLOSE_BRACE] + rest) && key !in seen
    ensures ReadMembers(s, seen) == Read(seen[key := value], rest)
  {
    assert ([COLON] + text)[1..] == text;
    assert ([CLOSE_BRACE] + rest)[1..] == rest;
  }

  lemma ReadNextMember(s: Str, text: Str, key: Str, value: Json, seen: map<Str, Json>, tail: Str)
    requires MemberReads(s, text, key, value, [COMMA] + tail) && key !in seen
    requires tail != [] && !IsBlank(tail[0])
    ensures ReadMembers(s, seen) == ReadMembers(tail, seen[key := value])
  {
    assert ([COLON] + text)[1..] == text;
    assert ([COMMA] + tail)[1..] == tail;
  }

  // ---- Printed values are read ----

  /** The text of the items of an array, up to its closing bracket, reads as these items and leaves `rest`. */
  ghost predicate ItemsRead(text: Str, items: seq<Json>, rest: Str) {
    text != [] && !IsBlank(text[0]) && text[0] != CLOSE_BRACKET && ReadItems(text) == Read(items, rest)
  }

  lemma LastItemIsRead(v: Json, i: nat, rest: Str)
    requires v.Array? && FloatFree(v) && i + 1 == |v.items|
    requires var after := [CLOSE_BRACKET] + rest; ReadValue(Print(v.items[i], after)) == Read(v.items[i], after)
    ensures ItemsRead(PrintItems(v, i, [CLOSE_BRACKET] + rest), v.items[i..], rest)
  {
    var item, text := v.items[i], PrintItems(v, i, [CLOSE_BRACKET] + rest);
    FirstCharacter(item, [CLOSE_BRACKET] + rest);
    ReadLastItem(text, item, rest);
    assert v.items[i..] == [item];
  }

  lemma NextItemIsRead(v: Json, i: nat, rest: Str)
    requires v.Array? && FloatFree(v) && i + 1 < |v.items|
    requires var after := [COMMA] + PrintItems(v, i + 1, [CLOSE_BRACKET] + rest);
      ReadValue(Print(v.items[i], after)) == Read(v.items[i], after)
    requires ItemsRead(PrintItems(v, i + 1, [CLOSE_BRACKET] + rest), v.items[i + 1..], rest)
    ensures ItemsRead(PrintItems(v, i, [CLOSE_BRACKET] + rest), v.items[i..], rest)
  {
    var item, text, tail := v.items[i], PrintItems(v, i, [CLOSE_BRACKET] + rest),
        PrintItems(v, i + 1, [CLOSE_BRACKET] + rest);
    FirstCharacter(item, [COMMA] + tail);
    ReadNextItem(text, item, tail, v.items[i + 1..], rest);
    assert v.items[i..] == [item] + v.items[i + 1..];
  }

  /** Reading a printed value, whatever ends it, gives the value and the text after it. */
  lemma {:induction false} PrintedIsRead(v: Json, rest: Str)
    requires FloatFree(v) && EndsValue(rest)
    ensures ReadValue(Print(v, rest)) == Read(v, rest)
    decreases v
  {
    match v {
      case Null => ReadWordValue(v, rest);
      case Bool(b) => ReadWordValue(v, rest);
      case Int(n) =>
        FirstCharacter(v, rest);
        ReadNumberValue(Print(v, rest));
        IntegerIsRead(n, rest);
      case String(s) =>
        EscapedTextIsRead(s, rest);
        ReadStringValue(Escape(s, [QUOTE] + rest), s, rest);
      case Array(items) =>
        if items == [] {
          ReadEmptyArray(rest);
        } else {
          PrintedItemsAreRead(v, 0, rest);
          assert items[0..] == items;
          ReadFullArray(PrintItems(v, 0, [CLOSE_BRACKET] + rest), items, rest);
        }
      case Object(members) =>
        var keys := SortedKeys(members.Keys);
        AddsAll(v, keys);
        if keys == [] {
          ReadEmptyObject(rest);
        } else {
          PrintedMembersAreRead(v, keys, map[], rest);
          ReadFullObject(PrintMembers(v, keys, [CLOSE_BRACE] + rest), members, rest);
        }
    }
  }

  lemma {:induction false} PrintedItemsAreRead(v: Json, i: nat, rest: Str)
    requires v.Array? && FloatFree(v) && i < |v.items|
    ensures ItemsRead(PrintItems(v, i, [CLOSE_BRACKET] + rest), v.items[i..], rest)
    decreases v, |v.items| - i
  {
    if i + 1 == |v.items| {
      PrintedIsRead(v.items[i], [CLOSE_BRACKET] + rest);
      LastItemIsRead(v, i, rest);
    } else {
      PrintedIsRead(v.items[i], [COMMA] + PrintItems(v, i + 1, [CLOSE_BRACKET] + rest));
      PrintedItemsAreRead(v, i + 1, rest);
      NextItemIsRead(v, i, rest);
    }
  }

  /** `seen` with the members of `v` under the given keys. */
  ghost function AddMembers(v: Json, keys: seq<Str>, seen: map<Str, Json>): (r: map<Str, Json>)
    requires v.Object? && forall k :: k in keys ==> k in v.members
    ensures forall k :: k in r <==> k in seen || k in keys
    ensures forall k :: k in keys ==> r[k] == v.members[k]
    ensures forall k :: k in seen && k !in keys ==> r[k] == seen[k]
  {
    if keys == [] then seen else AddMembers(v, keys[1..], seen[keys[0] := v.members[keys[0]]])
  }

  lemma AddsAll(v: Json, keys: seq<Str>)
    requires v.Object? && forall k :: k in keys <==> k in v.members
    ensures AddMembers(v, keys, map[]) == v.members
    ensures keys == [] ==> v.members == map[]
  {
  }

  lemma {:induction false} PrintedMembersAreRead(v: Json, keys: seq<Str>, seen: map<Str, Json>, rest: Str)
    requires v.Object? && FloatFree(v) && keys != []
    requires forall k :: k in keys ==> k in v.members && k !in seen
    requires forall i, j :: 0 <= i < j < |keys| ==> keys[i] != keys[j]
    ensures var text := PrintMembers(v, keys, [CLOSE_BRACE] + rest);
      text != [] && text[0] == QUOTE && ReadMembers(text, seen) == Read(AddMembers(v, keys, seen), rest)
    decreases v, |keys|
  {
    var key, text := keys[0], PrintMembers(v, keys, [CLOSE_BRACE] + rest);
    var value := v.members[key];
    if |keys| == 1 {
      PrintedIsRead(value, [CLOSE_BRACE] + rest);
      MemberIsRead(key, value, [CLOSE_BRACE] + rest);
      ReadLastMember(text, Print(value, [CLOSE_BRACE] + rest), key, value, seen, rest);
      assert keys[1..] == [];
    } else {
      var tail := PrintMembers(v, keys[1..], [CLOSE_BRACE] + rest);
      PrintedIsRead(value, [COMMA] + tail);
      MemberIsRead(key, value, [COMMA] + tail);
      PrintedMembersAreRead(v, keys[1..], seen[key := value], rest);
      ReadNextMember(text, Print(value, [COMMA] + tail), key, value, seen, tail);
    }
  }

  lemma MemberIsRead(key: Str, value: Json, after: Str)
    requires FloatFree(value) && ReadValue(Print(value, after)) == Read(value, after)
    ensures var text := Print(value, after); MemberReads(Quote(key, [COLON] + text), text, key, value, after)
  {
    var text := Print(value, after);
    FirstCharacter(value, after);
    EscapedTextIsRead(key, [COLON] + text);
    assert Quote(key, [COLON] + text)[1..] == Escape(key, [QUOTE] + ([COLON] + text));
  }

  // ---- The text as a whole ----

  /** Loading the canonical text of a value gives exactly that value. */
  lemma CanonicalTextLoads(v: Json)
    requires FloatFree(v)
    ensures Loads(CanonicalText(v)) == Value(v)
  {
    FirstCharacter(v, [LINE_FEED]);
    PrintedIsRead(v, [LINE_FEED]);
    assert [LINE_FEED][1..] == [];
    assert SkipBlanks([LINE_FEED]) == SkipBlanks([LINE_FEED][1..]);
  }

  /** Two values with the same canonical text are the same value. */
  lemma CanonicalTextIsInjective(v: Json, w: Json)
    requires FloatFree(v) && FloatFree(w) && CanonicalText(v) == CanonicalText(w)
    ensures v == w
  {
    CanonicalTextLoads(v);
    CanonicalTextLoads(w);
  }
}
