/** JSON values, the one text form that `canonical_json_bytes` prints, and the strict reader of the
    registry decoder: the RFC 8259 grammar, sections 2 to 7, with duplicate keys rejected. */
module JsonText {

  /** A Unicode code point; surrogates included, as in a Python string. */
  type CodePoint = c: int | 0 <= c < 0x110000

  type Str = seq<CodePoint>

  /** A decoded value.  A dictionary is a map: insertion order plays no part in equality.  `Float` is a number
      with a fraction or an exponent, kept as its text. */
  datatype Json =
    | Null
    | Bool(b: bool)
    | Int(n: int)
    | String(s: Str)
    | Array(items: seq<Json>)
    | Object(members: map<Str, Json>)
    | Float(text: Str)

  /** The code points of a literal. */
  function Lit(s: string): (r: Str)
    requires forall i :: 0 <= i < |s| ==> s[i] as int < 0x110000
    ensures |r| == |s| && forall i :: 0 <= i < |s| ==> r[i] == s[i] as int
  {
    seq(|s|, i requires 0 <= i < |s| => s[i] as int)
  }

  const QUOTE: CodePoint := 0x22
  const BACKSLASH: CodePoint := 0x5C
  const COMMA: CodePoint := 0x2C
  const COLON: CodePoint := 0x3A
  const MINUS: CodePoint := 0x2D
  const PLUS: CodePoint := 0x2B
  const DOT: CodePoint := 0x2E
  const OPEN_BRACKET: CodePoint := 0x5B
  const CLOSE_BRACKET: CodePoint := 0x5D
  const OPEN_BRACE: CodePoint := 0x7B
  const CLOSE_BRACE: CodePoint := 0x7D
  const LINE_FEED: CodePoint := 0x0A
  const LETTER_N: CodePoint := 0x6E
  const LETTER_T: CodePoint := 0x74
  const LETTER_F: CodePoint := 0x66
  const LETTER_U: CodePoint := 0x75

  const NULL_TEXT: Str := [0x6E, 0x75, 0x6C, 0x6C]
  const TRUE_TEXT: Str := [0x74, 0x72, 0x75, 0x65]
  const FALSE_TEXT: Str := [0x66, 0x61, 0x6C, 0x73, 0x65]

  // ---- Key order ----

  /** Code point order, the order of Python strings. */
  predicate Leq(a: Str, b: Str) {
    if a == [] then true
    else if b == [] then false
    else a[0] < b[0] || (a[0] == b[0] && Leq(a[1..], b[1..]))
  }

  lemma {:induction false} LeqTotal(a: Str, b: Str)
    ensures Leq(a, b) || Leq(b, a)
    ensures Leq(a, b) && Leq(b, a) ==> a == b
  {
    if a != [] && b != [] && a[0] == b[0] {
      LeqTotal(a[1..], b[1..]);
      assert a == [a[0]] + a[1..] && b == [b[0]] + b[1..];
    }
  }

  lemma {:induction false} LeqTransitive(a: Str, b: Str, c: Str)
    requires Leq(a, b) && Leq(b, c)
    ensures Leq(a, c)
  {
    if a != [] && c != [] && a[0] == c[0] {
      LeqTransitive(a[1..], b[1..], c[1..]);
    }
  }

  /** The string order by code points: a proper prefix, or the smaller code point at the first difference. */
  ghost predicate Before(a: Str, b: Str) {
    exists k :: DiffersAt(a, b, k)
  }

  predicate DiffersAt(a: Str, b: Str, k: int) {
    0 <= k <= |a| && k < |b| && a[..k] == b[..k] && (k == |a| || a[k] < b[k])
  }

  lemma BeforeTail(a: Str, b: Str)
    requires a != [] && b != [] && a[0] == b[0]
    ensures Before(a, b) <==> Before(a[1..], b[1..])
  {
    if k :| DiffersAt(a, b, k) {
      assert k > 0;
      assert a[1..][..k - 1] == a[..k][1..] && b[1..][..k - 1] == b[..k][1..];
      assert DiffersAt(a[1..], b[1..], k - 1);
    }
    if k :| DiffersAt(a[1..], b[1..], k) {
      assert a[..k + 1] == [a[0]] + a[1..][..k] && b[..k + 1] == [b[0]] + b[1..][..k];
      assert DiffersAt(a, b, k + 1);
    }
  }

  lemma {:induction false} LeqIsLexicographic(a: Str, b: Str)
    ensures Leq(a, b) <==> a == b || Before(a, b)
  {
    if a != [] && b != [] && a[0] == b[0] {
      BeforeTail(a, b);
      LeqIsLexicographic(a[1..], b[1..]);
      assert a == [a[0]] + a[1..] && b == [b[0]] + b[1..];
    } else if a != [] && b != [] {
      assert forall k :: 1 <= k <= |a| && k < |b| ==> a[..k][0] == a[0] && b[..k][0] == b[0];
      assert a[0] < b[0] ==> DiffersAt(a, b, 0);
    } else if b != [] {
      assert DiffersAt(a, b, 0);
    }
  }

  lemma BeforeIsStrict(a: Str, b: Str)
    ensures Before(a, b) <==> Leq(a, b) && a != b
  {
    LeqIsLexicographic(a, b);
  }

  ghost predicate IsLeast(k: Str, keys: set<Str>) {
    k in keys && forall x :: x in keys ==> Leq(k, x)
  }

  lemma {:induction false} LeastExists(keys: set<Str>) returns (k: Str)
    requires keys != {}
    ensures IsLeast(k, keys)
    decreases keys
  {
    var x :| x in keys;
    if keys == {x} {
      k := x;
      LeqTotal(x, x);
    } else {
      k := LeastExists(keys - {x});
      LeqTotal(k, x);
      if !Leq(k, x) {
        forall y | y in keys
          ensures Leq(x, y)
        {
          if y != x {
            LeqTransitive(x, k, y);
          } else {
            LeqTotal(x, x);
          }
        }
        k := x;
      }
    }
  }

  /** The keys in increasing order. */
  ghost function SortedKeys(keys: set<Str>): (r: seq<Str>)
    ensures forall x :: x in r <==> x in keys
    ensures forall i, j :: 0 <= i < j < |r| ==> r[i] != r[j] && Leq(r[i], r[j])
    decreases keys
  {
    if keys == {} then []
    else
      var k := LeastWitness(keys);
      var rest := SortedKeys(keys - {k});
      [k] + rest
  }

  ghost function LeastWitness(keys: set<Str>): (k: Str)
    requires keys != {}
    ensures IsLeast(k, keys)
  {
    assert exists k :: IsLeast(k, keys) by {
      var k := LeastExists(keys);
    }
    var k :| IsLeast(k, keys);
    k
  }

  // ---- Printing ----

  function HexDigit(d: int): CodePoint
    requires 0 <= d < 16
  {
    if d < 10 then 0x30 + d else 0x61 + d - 10
  }

  function EscapeChar(c: CodePoint): Str {
    if c == QUOTE then [BACKSLASH, QUOTE]
    else if c == BACKSLASH then [BACKSLASH, BACKSLASH]
    else if c == 0x0A then [BACKSLASH, LETTER_N]
    else if c == 0x0D then [BACKSLASH, 0x72]
    else if c == 0x09 then [BACKSLASH, LETTER_T]
    else if c == 0x0C then [BACKSLASH, LETTER_F]
    else if c == 0x08 then [BACKSLASH, 0x62]
    else if c < 0x20 then [BACKSLASH, LETTER_U, 0x30, 0x30, HexDigit(c / 16), HexDigit(c % 16)]
    else [c]
  }

  /** The escaped characters of a string, followed by `rest`. */
  function Escape(s: Str, rest: Str): Str {
    if s == [] then rest else EscapeChar(s[0]) + Escape(s[1..], rest)
  }

  function Quote(s: Str, rest: Str): Str {
    [QUOTE] + Escape(s, [QUOTE] + rest)
  }

  function Decimal(n: nat): (r: Str)
    ensures r != []
  {
    if n < 10 then [0x30 + n] else Decimal(n / 10) + [0x30 + n % 10]
  }

  function PrintInt(n: int): Str {
    if n < 0 then [MINUS] + Decimal(-n) else Decimal(n)
  }

  /** The text of `json.dumps`, with sorted keys, bare separators and no ASCII escapes, followed by `rest`. */
  ghost function Print(v: Json, rest: Str): Str
    decreases v
  {
    match v
    case Null => NULL_TEXT + rest
    case Bool(b) => (if b then TRUE_TEXT else FALSE_TEXT) + rest
    case Int(n) => PrintInt(n) + rest
    case String(s) => Quote(s, rest)
    case Array(items) => [OPEN_BRACKET] + PrintItems(v, 0, [CLOSE_BRACKET] + rest)
    case Object(members) => [OPEN_BRACE] + PrintMembers(v, SortedKeys(members.Keys), [CLOSE_BRACE] + rest)
    case Float(text) => text + rest
  }

  /** The items of an array from position `i` on, followed by `rest`. */
  ghost function PrintItems(v: Json, i: nat, rest: Str): Str
    requires v.Array? && i <= |v.items|
    decreases v, |v.items| - i
  {
    if i == |v.items| then rest
    else Print(v.items[i], if i + 1 == |v.items| then rest else [COMMA] + PrintItems(v, i + 1, rest))
  }

  ghost function PrintMembers(v: Json, keys: seq<Str>, rest: Str): Str
    requires v.Object? && forall k :: k in keys ==> k in v.members
    decreases v, |keys|
  {
    if keys == [] then rest
    else Quote(keys[0], [COLON] + Print(v.members[keys[0]],
           if |keys| == 1 then rest else [COMMA] + PrintMembers(v, keys[1..], rest)))
  }

  /** The text of `canonical_json_bytes` before its encoding. */
  ghost function CanonicalText(v: Json): Str {
    Print(v, [LINE_FEED])
  }

  // ---- Reading ----

  /** A value and the text after it, or a rejection. */
  datatype Parsed<T> = Rejected | Read(value: T, rest: Str)

  predicate IsBlank(c: CodePoint) {
    c == 0x20 || c == 0x09 || c == 0x0A || c == 0x0D
  }

  function SkipBlanks(s: Str): (r: Str)
    ensures |r| <= |s|
    ensures s == [] || !IsBlank(s[0]) ==> r == s
  {
    if s != [] && IsBlank(s[0]) then SkipBlanks(s[1..]) else s
  }

  predicate IsDigit(c: CodePoint) {
    0x30 <= c <= 0x39
  }

  /** Where the digits that start at position `i` end. */
  function DigitsEnd(s: Str, i: nat): (j: nat)
    requires i <= |s|
    ensures i <= j <= |s|
    ensures forall k :: i <= k < j ==> IsDigit(s[k])
    ensures j < |s| ==> !IsDigit(s[j])
    decreases |s| - i
  {
    if i < |s| && IsDigit(s[i]) then DigitsEnd(s, i + 1) else i
  }

  function NatValue(d: Str): nat
    requires forall i :: 0 <= i < |d| ==> IsDigit(d[i])
  {
    if d == [] then 0
    else
      assert IsDigit(d[|d| - 1]);
      var last: int := d[|d| - 1];
      10 * NatValue(d[..|d| - 1]) + (last - 0x30)
  }

  /** The end of an optional fraction at position `i`: a dot and at least one digit. */
  function FractionEnd(s: Str, i: nat): (j: nat)
    requires i <= |s|
    ensures i <= j <= |s|
  {
    if i + 1 < |s| && s[i] == DOT && IsDigit(s[i + 1]) then DigitsEnd(s, i + 1) else i
  }

  /** The end of an optional exponent at position `i`: a letter, an optional sign and at least one digit. */
  function ExponentEnd(s: Str, i: nat): (j: nat)
    requires i <= |s|
    ensures i <= j <= |s|
  {
    if i < |s| && (s[i] == 0x65 || s[i] == 0x45) then
      var k := if i + 1 < |s| && (s[i + 1] == PLUS || s[i + 1] == MINUS) then i + 2 else i + 1;
      if k < |s| && IsDigit(s[k]) then DigitsEnd(s, k) else i
    else i
  }

  /** A number whose integer part is at positions `i` to `j`, after a minus sign if `i` is 1. */
  function NumberAt(s: Str, i: nat, j: nat): (r: Parsed<Json>)
    requires i < j <= |s| && forall k :: i <= k < j ==> IsDigit(s[k])
    ensures r.Read? ==> |r.rest| < |s|
  {
    var end := ExponentEnd(s, FractionEnd(s, j));
    var value: int := NatValue(s[i..j]);
    if end == j then Read(Int(if i == 1 then -value else value), s[j..]) else Read(Float(s[..end]), s[end..])
  }

  /** A number: section 6 of RFC 8259.  A leading zero ends the integer part. */
  function ReadNumber(s: Str): (r: Parsed<Json>)
    ensures r.Read? ==> |r.rest| < |s|
  {
    var i := if s != [] && s[0] == MINUS then 1 else 0;
    if i >= |s| || !IsDigit(s[i]) then Rejected else NumberAt(s, i, if s[i] == 0x30 then i + 1 else DigitsEnd(s, i))
  }

  /** The value of a hexadecimal digit. */
  function HexValue(c: CodePoint): (v: int)
    ensures -1 <= v < 16
  {
    if IsDigit(c) then c - 0x30
    else if 0x61 <= c <= 0x66 then c - 0x61 + 10
    else if 0x41 <= c <= 0x46 then c - 0x41 + 10
    else -1
  }

  /** The value of four hexadecimal digits, or -1. */
  function FourHex(s: Str): (v: int)
    ensures -1 <= v < 0x10000
  {
    if |s| < 4 then -1
    else
      var a, b, c, d := HexValue(s[0]), HexValue(s[1]), HexValue(s[2]), HexValue(s[3]);
      if a < 0 || b < 0 || c < 0 || d < 0 then -1 else ((a * 16 + b) * 16 + c) * 16 + d
  }

  predicate HighSurrogate(c: int) { 0xD800 <= c < 0xDC00 }

  predicate LowSurrogate(c: int) { 0xDC00 <= c < 0xE000 }

  /** The character an escape stands for; `s` starts after the backslash. */
  function ReadEscape(s: Str): (r: Parsed<CodePoint>)
    ensures r.Read? ==> |r.rest| < |s|
  {
    if s == [] then Rejected
    else if s[0] == QUOTE || s[0] == BACKSLASH || s[0] == 0x2F then Read(s[0], s[1..])
    else if s[0] == 0x62 then Read(0x08, s[1..])
    else if s[0] == LETTER_F then Read(0x0C, s[1..])
    else if s[0] == LETTER_N then Read(0x0A, s[1..])
    else if s[0] == 0x72 then Read(0x0D, s[1..])
    else if s[0] == LETTER_T then Read(0x09, s[1..])
    else if s[0] != LETTER_U || FourHex(s[1..]) < 0 then Rejected
    else
      var c, rest := FourHex(s[1..]), s[5..];
      if !HighSurrogate(c) || |rest| < 2 || rest[0] != BACKSLASH || rest[1] != LETTER_U then Read(c, rest)
      else if FourHex(rest[2..]) < 0 then Rejected
      else if LowSurrogate(FourHex(rest[2..])) then
        Read(0x10000 + (c - 0xD800) * 0x400 + (FourHex(rest[2..]) - 0xDC00), rest[6..])
      else Read(c, rest)
  }

  /** The characters of a string after its opening quote: section 7 of RFC 8259. */
  function ReadString(s: Str): (r: Parsed<Str>)
    ensures r.Read? ==> |r.rest| < |s|
    decreases |s|
  {
    if s == [] then Rejected
    else if s[0] == QUOTE then Read([], s[1..])
    else if s[0] < 0x20 then Rejected
    else
      var first := if s[0] == BACKSLASH then ReadEscape(s[1..]) else Read(s[0], s[1..]);
      if first.Rejected? then Rejected
      else
        var more := ReadString(first.rest);
        if more.Rejected? then Rejected else Read([first.value] + more.value, more.rest)
  }

  function ReadWord(s: Str, word: Str, v: Json): (r: Parsed<Json>)
    requires word != []
    ensures r.Read? ==> |r.rest| < |s|
  {
    if word <= s then Read(v, s[|word|..]) else Rejected
  }

  /** One value; the text starts at its first character.  The words `NaN` and `Infinity` are rejected. */
  function ReadValue(s: Str): (r: Parsed<Json>)
    ensures r.Read? ==> |r.rest| < |s|
    decreases |s|, 0
  {
    if s == [] then Rejected
    else if s[0] == QUOTE then
      var r := ReadString(s[1..]);
      if r.Rejected? then Rejected else Read(String(r.value), r.rest)
    else if s[0] == OPEN_BRACKET then
      var inner := SkipBlanks(s[1..]);
      if inner != [] && inner[0] == CLOSE_BRACKET then Read(Array([]), inner[1..])
      else
        var r := ReadItems(inner);
        if r.Rejected? then Rejected else Read(Array(r.value), r.rest)
    else if s[0] == OPEN_BRACE then
      var inner := SkipBlanks(s[1..]);
      if inner != [] && inner[0] == CLOSE_BRACE then Read(Object(map[]), inner[1..])
      else
        var r := ReadMembers(inner, map[]);
        if r.Rejected? then Rejected else Read(Object(r.value), r.rest)
    else if s[0] == LETTER_N then ReadWord(s, NULL_TEXT, Null)
    else if s[0] == LETTER_T then ReadWord(s, TRUE_TEXT, Bool(true))
    else if s[0] == LETTER_F then ReadWord(s, FALSE_TEXT, Bool(false))
    else ReadNumber(s)
  }

  /** The items of a non-empty array up to its closing bracket. */
  function ReadItems(s: Str): (r: Parsed<seq<Json>>)
    ensures r.Read? ==> |r.rest| < |s|
    decreases |s|, 1
  {
    var first := ReadValue(s);
    if first.Rejected? then Rejected
    else
      var after := SkipBlanks(first.rest);
      if after == [] then Rejected
      else if after[0] == CLOSE_BRACKET then Read([first.value], after[1..])
      else if after[0] != COMMA then Rejected
      else
        var more := ReadItems(SkipBlanks(after[1..]));
        if more.Rejected? then Rejected else Read([first.value] + more.value, more.rest)
  }

  /** The members of a non-empty object up to its closing brace; `seen` holds the members before them.
      A key that is already there is rejected. */
  function ReadMembers(s: Str, seen: map<Str, Json>): (r: Parsed<map<Str, Json>>)
    ensures r.Read? ==> |r.rest| < |s|
    decreases |s|, 1
  {
    if s == [] || s[0] != QUOTE then Rejected
    else
      var key := ReadString(s[1..]);
      if key.Rejected? then Rejected
      else
        var colon := SkipBlanks(key.rest);
        if colon == [] || colon[0] != COLON then Rejected
        else
          var value := ReadValue(SkipBlanks(colon[1..]));
          if value.Rejected? || key.value in seen then Rejected
          else
            var members := seen[key.value := value.value];
            var after := SkipBlanks(value.rest);
            if after == [] then Rejected
            else if after[0] == CLOSE_BRACE then Read(members, after[1..])
            else if after[0] != COMMA then Rejected
            else ReadMembers(SkipBlanks(after[1..]), members)
  }

  datatype Loaded = Invalid | Value(value: Json)

  /** `json.loads` with the registry decoder's hooks: one value, blanks around it, and nothing else. */
  function Loads(text: Str): Loaded {
    if text != [] && text[0] == 0xFEFF then Invalid
    else
      var r := ReadValue(SkipBlanks(text));
      if r.Rejected? || SkipBlanks(r.rest) != [] then Invalid else Value(r.value)
  }
}
