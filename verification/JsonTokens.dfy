/** The strings and numbers of JSON by the grammar of RFC 8259, sections 2, 6 and 7, and the reader against it. */
module JsonTokens {
  import opened JsonText
  import opened JsonRoundTrip

  // ---- Blanks ----

  predicate Blanks(w: Str) {
    forall i :: 0 <= i < |w| ==> w[i] == 0x20 || w[i] == 0x09 || w[i] == 0x0A || w[i] == 0x0D
  }

  lemma {:induction false} BlanksBefore(s: Str) returns (w: Str)
    ensures s == w + SkipBlanks(s) && Blanks(w)
    decreases |s|
  {
    if s != [] && IsBlank(s[0]) {
      var more := BlanksBefore(s[1..]);
      w := [s[0]] + more;
      assert s == [s[0]] + s[1..];
    } else {
      w := [];
    }
  }

  lemma {:induction false} BlanksSkip(w: Str, s: Str)
    requires Blanks(w)
    ensures SkipBlanks(w + s) == SkipBlanks(s)
    decreases |w|
  {
    if w == [] {
      assert w + s == s;
    } else {
      assert (w + s)[1..] == w[1..] + s;
      BlanksSkip(w[1..], s);
    }
  }

  // ---- Strings ----

  /** A hexadecimal digit and its value. */
  predicate IsHex(c: CodePoint, d: int) {
    || (0 <= d < 10 && c == 0x30 + d)
    || (10 <= d < 16 && (c == 0x61 + d - 10 || c == 0x41 + d - 10))
  }

  lemma HexExactly(c: CodePoint, d: int)
    ensures IsHex(c, d) <==> d == HexValue(c) && d >= 0
  {
  }

  /** An escape by four hexadecimal digits. */
  ghost predicate IsUnicode(x: Str, c: int) {
    && |x| == 6 && x[0] == 0x5C && x[1] == 0x75
    && exists i, j, k, l :: HexDigits(x, i, j, k, l) && c == 4096 * i + 256 * j + 16 * k + l
  }

  predicate HexDigits(x: Str, i: int, j: int, k: int, l: int)
    requires |x| == 6
  {
    IsHex(x[2], i) && IsHex(x[3], j) && IsHex(x[4], k) && IsHex(x[5], l)
  }

  lemma UnicodeExactly(s: Str, c: int)
    requires |s| >= 6
    ensures IsUnicode(s[..6], c) <==> s[0] == BACKSLASH && s[1] == LETTER_U && FourHex(s[2..]) == c && c >= 0
  {
    var x, i, j, k, l := s[..6], HexValue(s[2]), HexValue(s[3]), HexValue(s[4]), HexValue(s[5]);
    assert s[2..][0] == s[2] && s[2..][1] == s[3] && s[2..][2] == s[4] && s[2..][3] == s[5];
    HexExactly(s[2], i);
    HexExactly(s[3], j);
    HexExactly(s[4], k);
    HexExactly(s[5], l);
    if i >= 0 && j >= 0 && k >= 0 && l >= 0 {
      assert HexDigits(x, i, j, k, l);
    }
    if i', j', k', l' :| HexDigits(x, i', j', k', l') {
      HexExactly(s[2], i');
      HexExactly(s[3], j');
      HexExactly(s[4], k');
      HexExactly(s[5], l');
    }
  }

  predicate IsSimpleEscape(x: Str, c: CodePoint) {
    && |x| == 2 && x[0] == 0x5C
    && ((x[1] == 0x22 && c == 0x22) || (x[1] == 0x5C && c == 0x5C) || (x[1] == 0x2F && c == 0x2F)
        || (x[1] == 0x62 && c == 0x08) || (x[1] == 0x66 && c == 0x0C) || (x[1] == 0x6E && c == 0x0A)
        || (x[1] == 0x72 && c == 0x0D) || (x[1] == 0x74 && c == 0x09))
  }

  /** Two escapes that name one character beyond the basic plane. */
  ghost predicate IsPair(x: Str, c: CodePoint) {
    && |x| == 12
    && exists high, low ::
         && IsUnicode(x[..6], high) && IsUnicode(x[6..], low) && 0xD800 <= high < 0xDC00 && 0xDC00 <= low < 0xE000
         && c == 0x10000 + (high - 0xD800) * 0x400 + (low - 0xDC00)
  }

  /** A character of a string as it is written. */
  ghost predicate IsChar(x: Str, c: CodePoint) {
    || (x == [c] && c >= 0x20 && c != 0x22 && c != 0x5C)
    || IsSimpleEscape(x, c) || IsUnicode(x, c) || IsPair(x, c)
  }

  /** The text goes on with an escape of a low surrogate. */
  ghost predicate StartsLow(s: Str) {
    |s| >= 6 && exists low :: IsUnicode(s[..6], low) && 0xDC00 <= low < 0xE000
  }

  /** A first character and the rest; an escaped high surrogate is taken together with an escaped low one behind it. */
  ghost predicate CharFirst(s: Str, x: Str, rest: Str, c: CodePoint) {
    && s == x + rest && x != [] && IsChar(x, c)
    && !(|x| == 6 && 0xD800 <= c < 0xDC00 && StartsLow(rest))
  }

  /** The characters of a string between its quotes. */
  ghost predicate IsBody(s: Str, t: Str)
    decreases |t|
  {
    if t == [] then s == [] else exists x, rest :: CharFirst(s, x, rest, t[0]) && IsBody(rest, t[1..])
  }

  /** The reader takes an escape as the grammar has it; `s` starts at the backslash. */
  lemma EscapeIsChar(s: Str) returns (x: Str)
    requires s != [] && s[0] == BACKSLASH && ReadEscape(s[1..]).Read?
    ensures CharFirst(s, x, ReadEscape(s[1..]).rest, ReadEscape(s[1..]).value)
  {
    var r := ReadEscape(s[1..]);
    x := s[..|s| - |r.rest|];
    if |x| == 2 {
      assert r.rest == s[2..];
    } else {
      assert s[1..][1..] == s[2..] && s[1..][5..] == s[6..];
      UnicodeExactly(s, FourHex(s[2..]));
      if |s| >= 12 {
        assert s[6..][2..] == s[8..] && s[6..][6..] == s[12..] && s[6..][..6] == s[6..12];
        UnicodeExactly(s[6..], FourHex(s[8..]));
        assert s[..12][..6] == s[..6] && s[..12][6..] == s[6..12];
      }
      if StartsLow(s[6..]) {
        NoLowIsMissed(s);
      }
    }
  }

  lemma NoLowIsMissed(s: Str)
    requires |s| >= 6 && StartsLow(s[6..])
    ensures |s| >= 12 && s[6] == BACKSLASH && s[7] == LETTER_U && LowSurrogate(FourHex(s[8..]))
  {
    var low :| IsUnicode(s[6..][..6], low) && 0xDC00 <= low < 0xE000;
    UnicodeExactly(s[6..], low);
    assert s[6..][2..] == s[8..];
  }

  /** One character that the reader takes. */
  lemma FirstOfString(s: Str) returns (x: Str, c: CodePoint, rest: Str)
    requires ReadString(s).Read? && s[0] != QUOTE
    ensures CharFirst(s, x, rest, c) && |rest| < |s| && ReadString(rest).Read?
    ensures ReadString(s) == Read([c] + ReadString(rest).value, ReadString(rest).rest)
  {
    if s[0] == BACKSLASH {
      c, rest := ReadEscape(s[1..]).value, ReadEscape(s[1..]).rest;
      x := EscapeIsChar(s);
    } else {
      x, c, rest := [s[0]], s[0], s[1..];
      assert s == x + rest;
    }
  }

  /** A character stays one when less follows it. */
  lemma ShorterRest(s: Str, x: Str, rest: Str, less: Str, end: Str, c: CodePoint)
    requires CharFirst(s, x, rest, c) && rest == less + end
    ensures CharFirst(x + less, x, less, c)
  {
    if StartsLow(less) {
      assert rest[..6] == less[..6];
      assert StartsLow(rest);
    }
  }

  lemma BodyGrows(x: Str, more: Str, c: CodePoint, t: Str)
    requires CharFirst(x + more, x, more, c) && IsBody(more, t)
    ensures IsBody(x + more, [c] + t)
  {
    assert ([c] + t)[1..] == t && ([c] + t)[0] == c;
    assert CharFirst(x + more, x, more, ([c] + t)[0]) && IsBody(more, ([c] + t)[1..]);
  }

  lemma BodyStarts(s: Str, x: Str, rest: Str, more: Str, end: Str, c: CodePoint, t: Str)
    requires CharFirst(s, x, rest, c) && rest == more + end && IsBody(more, t)
    ensures s == (x + more) + end && IsBody(x + more, [c] + t)
  {
    ShorterRest(s, x, rest, more, end, c);
    BodyGrows(x, more, c, t);
  }

  lemma {:induction false} BodyOfString(s: Str) returns (x: Str)
    requires ReadString(s).Read?
    ensures s == x + ([QUOTE] + ReadString(s).rest) && IsBody(x, ReadString(s).value)
    decreases |s|
  {
    if s[0] == QUOTE {
      x := [];
      assert s == [QUOTE] + s[1..];
    } else {
      var head, c, rest := FirstOfString(s);
      var more := BodyOfString(rest);
      x := head + more;
      BodyStarts(s, head, rest, more, [QUOTE] + ReadString(rest).rest, c, ReadString(rest).value);
    }
  }

  /** An escape of a low surrogate cannot begin in a body and end behind its quote. */
  lemma LongerRest(less: Str, rest: Str)
    requires StartsLow(less + ([QUOTE] + rest))
    ensures StartsLow(less)
  {
    var s := less + ([QUOTE] + rest);
    var low :| IsUnicode(s[..6], low) && 0xDC00 <= low < 0xE000;
    if |less| < 6 {
      assert s[..6][|less|] == QUOTE;
      NoQuoteInside(s[..6], low, |less|);
    }
    assert s[..6] == less[..6];
  }

  lemma NoQuoteInside(x: Str, c: int, i: nat)
    requires IsUnicode(x, c) && i < 6
    ensures x[i] != QUOTE
  {
  }

  lemma {:induction false} UnicodeStart(b: Str, t: Str)
    requires IsBody(b, t) && |b| >= 2 && b[0] == BACKSLASH && b[1] == LETTER_U
    ensures |b| >= 6 && FourHex(b[2..]) >= 0
  {
    var x, rest :| CharFirst(b, x, rest, t[0]) && IsBody(rest, t[1..]);
    assert |x| >= 2 ==> b[1] == x[1];
    if IsPair(x, t[0]) {
      var high, low :| IsUnicode(x[..6], high) && IsUnicode(x[6..], low);
      assert b[..6] == x[..6];
      UnicodeExactly(b, high);
    } else {
      assert IsUnicode(x, t[0]);
      assert b[..6] == x;
      UnicodeExactly(b, t[0]);
    }
  }

  /** The reader does not take an escaped high surrogate together with what follows it. */
  predicate IsAlone(tail: Str) {
    |tail| >= 2 && tail[0] == BACKSLASH && tail[1] == LETTER_U ==>
      FourHex(tail[2..]) >= 0 && !LowSurrogate(FourHex(tail[2..]))
  }

  /** How the reader takes one written character in front of a text. */
  predicate Takes(s: Str, c: CodePoint, tail: Str) {
    && s != [] && s[0] >= 0x20 && s[0] != QUOTE && |tail| < |s|
    && if s[0] == BACKSLASH then ReadEscape(s[1..]) == Read(c, tail) else c == s[0] && s[1..] == tail
  }

  lemma SimpleIsTaken(x: Str, tail: Str, c: CodePoint)
    requires IsSimpleEscape(x, c)
    ensures Takes(x + tail, c, tail)
  {
    assert (x + tail)[1..][1..] == tail;
  }

  lemma UnicodeIsTaken(x: Str, tail: Str, c: CodePoint)
    requires IsUnicode(x, c) && (0xD800 <= c < 0xDC00 ==> IsAlone(tail))
    ensures Takes(x + tail, c, tail)
  {
    var s := x + tail;
    assert s[..6] == x && s[1..][1..] == s[2..] && s[1..][5..] == tail;
    UnicodeExactly(s, c);
  }

  lemma CharIsTaken(x: Str, tail: Str, c: CodePoint)
    requires x != [] && IsChar(x, c) && (|x| == 6 && 0xD800 <= c < 0xDC00 ==> IsAlone(tail))
    ensures Takes(x + tail, c, tail)
  {
    if IsSimpleEscape(x, c) {
      SimpleIsTaken(x, tail, c);
    } else if IsUnicode(x, c) {
      UnicodeIsTaken(x, tail, c);
    } else if IsPair(x, c) {
      PairIsTaken(x, tail, c);
    } else {
      assert (x + tail)[1..] == tail;
    }
  }

  /** What the reader finds behind an escaped high surrogate that stands alone. */
  lemma HighIsAlone(less: Str, rest: Str, t: Str)
    requires IsBody(less, t) && !StartsLow(less)
    ensures IsAlone(less + ([QUOTE] + rest))
  {
    var tail := less + ([QUOTE] + rest);
    if |tail| >= 2 && tail[0] == BACKSLASH && tail[1] == LETTER_U {
      assert |less| >= 2 && less[0] == tail[0] && less[1] == tail[1];
      UnicodeStart(less, t);
      assert tail[2..][..4] == less[2..][..4];
      assert FourHex(tail[2..]) == FourHex(less[2..]);
      UnicodeExactly(less, FourHex(less[2..]));
    }
  }

  lemma PairIsTaken(x: Str, tail: Str, c: CodePoint)
    requires IsPair(x, c)
    ensures Takes(x + tail, c, tail)
  {
    var s := x + tail;
    var high, low :| IsUnicode(x[..6], high) && IsUnicode(x[6..], low) && 0xD800 <= high < 0xDC00
                     && 0xDC00 <= low < 0xE000 && c == 0x10000 + (high - 0xD800) * 0x400 + (low - 0xDC00);
    assert s[..6] == x[..6] && s[6..][..6] == x[6..];
    UnicodeExactly(s, high);
    UnicodeExactly(s[6..], low);
    assert s[1..][1..] == s[2..] && s[1..][5..] == s[6..] && s[6..][2..] == s[8..] && s[6..][6..] == tail;
    assert FourHex(s[1..][1..]) == high && FourHex(s[6..][2..]) == low;
  }

  lemma StringGoesOn(s: Str, c: CodePoint, tail: Str, t: Str, rest: Str)
    requires Takes(s, c, tail) && ReadString(tail) == Read(t, rest)
    ensures ReadString(s) == Read([c] + t, rest)
  {
  }

  lemma FirstIsTaken(x: Str, head: Str, less: Str, c: CodePoint, t: Str, rest: Str)
    requires CharFirst(x, head, less, c) && IsBody(less, t)
    ensures Takes(x + ([QUOTE] + rest), c, less + ([QUOTE] + rest))
  {
    var tail := less + ([QUOTE] + rest);
    if !StartsLow(less) {
      HighIsAlone(less, rest, t);
    }
    CharIsTaken(head, tail, c);
    Regroup(head, less, [QUOTE] + rest);
  }

  lemma Regroup(a: Str, b: Str, c: Str)
    ensures (a + b) + c == a + (b + c)
  {
  }

  lemma BodyGoesOn(x: Str, head: Str, less: Str, c: CodePoint, t: Str, rest: Str)
    requires CharFirst(x, head, less, c) && IsBody(less, t) && ReadString(less + ([QUOTE] + rest)) == Read(t, rest)
    ensures ReadString(x + ([QUOTE] + rest)) == Read([c] + t, rest)
  {
    FirstIsTaken(x, head, less, c, t, rest);
    StringGoesOn(x + ([QUOTE] + rest), c, less + ([QUOTE] + rest), t, rest);
  }

  lemma BodySplits(x: Str, t: Str) returns (head: Str, less: Str)
    requires IsBody(x, t) && t != []
    ensures CharFirst(x, head, less, t[0]) && IsBody(less, t[1..])
  {
    head, less :| CharFirst(x, head, less, t[0]) && IsBody(less, t[1..]);
  }

  lemma {:induction false} BodyIsRead(x: Str, t: Str, rest: Str)
    requires IsBody(x, t)
    ensures ReadString(x + ([QUOTE] + rest)) == Read(t, rest)
    decreases |t|
  {
    if t == [] {
      assert x + ([QUOTE] + rest) == [QUOTE] + rest && ([QUOTE] + rest)[1..] == rest;
    } else {
      var head, less := BodySplits(x, t);
      BodyIsRead(less, t[1..], rest);
      BodyGoesOn(x, head, less, t[0], t[1..], rest);
      assert t == [t[0]] + t[1..];
    }
  }

  // ---- Numbers ----

  predicate AllDigits(d: Str) {
    d == [] || (0x30 <= d[0] <= 0x39 && AllDigits(d[1..]))
  }

  lemma {:induction false} DigitsOneByOne(d: Str)
    ensures AllDigits(d) <==> forall i :: 0 <= i < |d| ==> IsDigit(d[i])
  {
    if d != [] {
      DigitsOneByOne(d[1..]);
      assert forall i :: 1 <= i < |d| ==> d[i] == d[1..][i - 1];
      assert forall i :: 0 <= i < |d[1..]| ==> d[1..][i] == d[i + 1];
    }
  }

  /** Digits without a superfluous leading zero, and their value. */
  predicate IsNatural(d: Str, n: int) {
    d != [] && AllDigits(d) && (d[0] == 0x30 ==> |d| == 1) && ValueOf(d) == n
  }

  /** The value of digits. */
  function ValueOf(d: Str): nat {
    if d == [] then 0
    else
      var last: int := d[|d| - 1];
      10 * ValueOf(d[..|d| - 1]) + if 0x30 <= last <= 0x39 then last - 0x30 else 0
  }

  lemma {:induction false} ValueIsRead(d: Str)
    requires forall i :: 0 <= i < |d| ==> IsDigit(d[i])
    ensures NatValue(d) == ValueOf(d)
    decreases |d|
  {
    if d != [] {
      ValueIsRead(d[..|d| - 1]);
    }
  }

  /** The same behind an optional minus sign. */
  predicate IsInteger(x: Str, n: int) {
    x != [] && if x[0] == 0x2D then IsNatural(x[1..], -n) else IsNatural(x, n)
  }

  predicate IsFraction(f: Str) {
    f == [] || (|f| >= 2 && f[0] == 0x2E && AllDigits(f[1..]))
  }

  predicate IsExponent(e: Str) {
    e == [] || ((e[0] == 0x65 || e[0] == 0x45) &&
                var d := if |e| > 1 && (e[1] == 0x2B || e[1] == 0x2D) then e[2..] else e[1..];
                d != [] && AllDigits(d))
  }

  predicate NumberParts(x: Str, v: Json, a: Str, f: Str, e: Str, n: int) {
    && x == a + f + e && IsInteger(a, n) && IsFraction(f) && IsExponent(e)
    && v == if f + e == [] then Int(n) else Float(x)
  }

  ghost predicate IsNumber(x: Str, v: Json) {
    exists a, f, e, n :: NumberParts(x, v, a, f, e, n)
  }

  /** What cannot continue a number. */
  predicate StopsNumber(rest: Str) {
    rest == [] || !(0x30 <= rest[0] <= 0x39 || rest[0] == 0x2E || rest[0] == 0x65 || rest[0] == 0x45)
  }

  lemma FractionOfText(s: Str, i: nat)
    requires i <= |s|
    ensures IsFraction(s[i..FractionEnd(s, i)])
  {
    var j := FractionEnd(s, i);
    if j > i {
      assert s[i..j][1..] == s[i + 1..j];
      DigitsOneByOne(s[i + 1..j]);
    }
  }

  lemma ExponentOfText(s: Str, i: nat)
    requires i <= |s|
    ensures IsExponent(s[i..ExponentEnd(s, i)])
  {
    var j := ExponentEnd(s, i);
    if j > i {
      var e := s[i..j];
      assert e[1..] == s[i + 1..j];
      DigitsOneByOne(s[i + 1..j]);
      if i + 2 <= j {
        assert e[2..] == s[i + 2..j];
        DigitsOneByOne(s[i + 2..j]);
      }
    }
  }

  /** A number whose integer part ends at `j` and has the value `n`. */
  ghost predicate ReadsNumber(s: Str, j: nat, n: int)
    requires j <= |s|
  {
    var end := ExponentEnd(s, FractionEnd(s, j));
    ReadNumber(s) == if end == j then Read(Int(n), s[j..]) else Read(Float(s[..end]), s[end..])
  }

  lemma IntegerOfText(s: Str) returns (j: nat, n: int)
    requires ReadNumber(s).Read?
    ensures j <= |s| && IsInteger(s[..j], n) && ReadsNumber(s, j, n)
  {
    var i := if s[0] == MINUS then 1 else 0;
    j := if s[i] == 0x30 then i + 1 else DigitsEnd(s, i);
    n := if i == 1 then -(NatValue(s[i..j]) as int) else NatValue(s[i..j]);
    var a := s[..j];
    assert ReadNumber(s) == NumberAt(s, i, j);
    assert a[i..] == s[i..j] && a[0] == s[0];
    assert i == 0 ==> a == s[i..j];
    DigitsOneByOne(s[i..j]);
    ValueIsRead(s[i..j]);
  }

  lemma PartsAreNumber(x: Str, v: Json, a: Str, f: Str, e: Str, n: int)
    requires x == a + f + e && IsInteger(a, n) && IsFraction(f) && IsExponent(e)
    requires v == if f + e == [] then Int(n) else Float(x)
    ensures IsNumber(x, v)
  {
    assert NumberParts(x, v, a, f, e, n);
  }

  lemma PiecesAreNumber(s: Str, j: nat, k: nat, end: nat, n: int)
    requires j <= k <= end <= |s| && IsInteger(s[..j], n) && IsFraction(s[j..k]) && IsExponent(s[k..end])
    ensures IsNumber(s[..end], if end == j then Int(n) else Float(s[..end]))
  {
    assert s[..end] == s[..j] + s[j..k] + s[k..end];
    assert |s[j..k] + s[k..end]| == end - j;
    PartsAreNumber(s[..end], if end == j then Int(n) else Float(s[..end]), s[..j], s[j..k], s[k..end], n);
  }

  lemma NumberOfText(s: Str) returns (x: Str)
    requires ReadNumber(s).Read?
    ensures s == x + ReadNumber(s).rest && IsNumber(x, ReadNumber(s).value)
  {
    var j, n := IntegerOfText(s);
    var k := FractionEnd(s, j);
    var end := ExponentEnd(s, k);
    FractionOfText(s, j);
    ExponentOfText(s, k);
    PiecesAreNumber(s, j, k, end, n);
    x := s[..end];
  }

  lemma FractionIsTaken(s: Str, i: nat, f: Str, rest: Str)
    requires i <= |s| && s[i..] == f + rest
    requires IsFraction(f) && (rest != [] ==> !IsDigit(rest[0]) && (f == [] ==> rest[0] != DOT))
    ensures FractionEnd(s, i) == i + |f|
  {
    assert forall k :: 0 <= k < |f| ==> s[i + k] == s[i..][k] == f[k];
    assert rest != [] ==> s[i + |f|] == s[i..][|f|] == rest[0];
    if f != [] {
      DigitsOneByOne(f[1..]);
      assert forall k :: 1 <= k < |f| ==> f[k] == f[1..][k - 1];
      DigitsEndHere(s, i + 1, i + |f|);
    }
  }

  lemma ExponentIsTaken(s: Str, i: nat, e: Str, rest: Str)
    requires i <= |s| && s[i..] == e + rest && IsExponent(e) && StopsNumber(rest)
    ensures ExponentEnd(s, i) == i + |e|
  {
    assert forall k :: 0 <= k < |e| ==> s[i + k] == s[i..][k] == e[k];
    assert rest != [] ==> s[i + |e|] == s[i..][|e|] == rest[0];
    if e != [] {
      var m := if |e| > 1 && (e[1] == 0x2B || e[1] == 0x2D) then 2 else 1;
      DigitsOneByOne(e[m..]);
      assert forall k :: m <= k < |e| ==> e[k] == e[m..][k - m];
      DigitsEndHere(s, i + m, i + |e|);
    }
  }

  /** Digits at positions `i` to `j`, a sign before them, and where the number ends. */
  ghost predicate DigitsAt(s: Str, i: nat, j: nat, end: nat, m: int) {
    && i < j <= end <= |s| && i == (if s[0] == MINUS then 1 else 0)
    && (forall k :: i <= k < j ==> IsDigit(s[k])) && (s[i] == 0x30 ==> j == i + 1)
    && (j < |s| ==> !IsDigit(s[j])) && m == ValueOf(s[i..j]) && ExponentEnd(s, FractionEnd(s, j)) == end
  }

  lemma DigitsAreTaken(s: Str, i: nat, j: nat, end: nat, m: int)
    requires DigitsAt(s, i, j, end, m)
    ensures ReadNumber(s) == Read(if end == j then Int(if i == 1 then -m else m) else Float(s[..end]), s[end..])
  {
    DigitsEndHere(s, i, j);
    ValueIsRead(s[i..j]);
    assert ReadNumber(s) == NumberAt(s, i, j);
  }

  lemma IntegerInText(s: Str, a: Str, n: int) returns (i: nat, m: int)
    requires a <= s && IsInteger(a, n)
    ensures i < |a| && i == (if s[0] == MINUS then 1 else 0) && n == (if i == 1 then -m else m)
    ensures (forall k :: i <= k < |a| ==> IsDigit(s[k])) && (s[i] == 0x30 ==> |a| == i + 1) && m == ValueOf(s[i..|a|])
  {
    i := if s[0] == MINUS then 1 else 0;
    m := if i == 1 then -n else n;
    assert s[..|a|] == a && s[i..|a|] == a[i..];
    DigitsOneByOne(a[i..]);
    assert forall k :: i <= k < |a| ==> s[k] == a[i..][k - i];
  }

  lemma Pieces(a: Str, f: Str, e: Str, rest: Str)
    ensures var s := a + f + e + rest;
      && s[..|a|] == a && s[|a|..] == f + (e + rest) && s[|a| + |f|..] == e + rest
      && s[|a| + |f| + |e|..] == rest && s[..|a| + |f| + |e|] == a + f + e
      && (|a| < |s| ==> s[|a|] == (f + (e + rest))[0])
  {
  }

  lemma NothingDigital(f: Str, e: Str, rest: Str)
    requires IsFraction(f) && IsExponent(e) && StopsNumber(rest)
    ensures f + (e + rest) != [] ==> !IsDigit((f + (e + rest))[0])
    ensures e + rest != [] ==> !IsDigit((e + rest)[0]) && (e + rest)[0] != DOT
  {
  }

  /** The pieces of a number and what follows it stand one after the other. */
  predicate StandIn(s: Str, a: Str, f: Str, e: Str, rest: Str) {
    && |s| == |a| + |f| + |e| + |rest|
    && a <= s && s[|a|..] == f + (e + rest) && s[|a| + |f|..] == e + rest && s[|a| + |f| + |e|..] == rest
  }

  lemma SuffixesAreTaken(s: Str, a: Str, f: Str, e: Str, rest: Str)
    requires StandIn(s, a, f, e, rest) && IsFraction(f) && IsExponent(e) && StopsNumber(rest)
    ensures FractionEnd(s, |a|) == |a| + |f| && ExponentEnd(s, |a| + |f|) == |a| + |f| + |e|
    ensures |a| < |s| ==> !IsDigit(s[|a|])
  {
    NothingDigital(f, e, rest);
    FractionIsTaken(s, |a|, f, e + rest);
    ExponentIsTaken(s, |a| + |f|, e, rest);
    assert |a| < |s| ==> s[|a|] == s[|a|..][0];
  }

  lemma PartsStand(s: Str, a: Str, f: Str, e: Str, n: int, rest: Str) returns (i: nat, m: int)
    requires StandIn(s, a, f, e, rest)
    requires IsInteger(a, n) && IsFraction(f) && IsExponent(e) && StopsNumber(rest)
    ensures DigitsAt(s, i, |a|, |a| + |f| + |e|, m) && n == if i == 1 then -m else m
  {
    SuffixesAreTaken(s, a, f, e, rest);
    i, m := IntegerInText(s, a, n);
  }

  lemma NumberStands(x: Str, v: Json, rest: Str) returns (i: nat, j: nat, m: int)
    requires IsNumber(x, v) && StopsNumber(rest)
    ensures DigitsAt(x + rest, i, j, |x|, m)
    ensures v == if |x| == j then Int(if i == 1 then -m else m) else Float(x)
  {
    var a, f, e, n :| NumberParts(x, v, a, f, e, n);
    Pieces(a, f, e, rest);
    j := |a|;
    i, m := PartsStand(x + rest, a, f, e, n, rest);
  }

  lemma NumberIsTaken(x: Str, v: Json, rest: Str)
    requires IsNumber(x, v) && StopsNumber(rest)
    ensures ReadNumber(x + rest) == Read(v, rest) && x != [] && (IsDigit(x[0]) || x[0] == MINUS)
  {
    var i, j, m := NumberStands(x, v, rest);
    DigitsAreTaken(x + rest, i, j, |x|, m);
    assert (x + rest)[..|x|] == x && (x + rest)[|x|..] == rest;
    assert x[0] == (x + rest)[0];
  }
}
