/** Repository path patterns: `_normalize_path`, `_static_prefix`, `patterns_overlap` and `path_matches`. */
module PathPatterns {

  /** The character tables the patterns depend on: case folding (one character may fold to several)
      and what a bracket expression with a given body matches. */
  datatype Text = Text(fold: char -> string, inClass: (string, char) -> bool)

  /** White space as `str.strip` sees it. */
  predicate IsSpace(c: char) {
    var n := c as int;
    || 0x09 <= n <= 0x0d || 0x1c <= n <= 0x20 || n == 0x85 || n == 0xa0 || n == 0x1680
    || 0x2000 <= n <= 0x200a || n == 0x2028 || n == 0x2029 || n == 0x202f || n == 0x205f || n == 0x3000
  }

  /** The complement of `_nonempty_string`. */
  predicate Blank(s: string) {
    forall i :: 0 <= i < |s| ==> IsSpace(s[i])
  }

  function Fold(t: Text, s: string): string {
    if s == "" then "" else t.fold(s[0]) + Fold(t, s[1..])
  }

  function WithSlashes(s: string): string {
    seq(|s|, i requires 0 <= i < |s| => if s[i] == '\\' then '/' else s[i])
  }

  function StripLeft(s: string, drop: char -> bool): string {
    if s != "" && drop(s[0]) then StripLeft(s[1..], drop) else s
  }

  function StripRight(s: string, drop: char -> bool): string {
    if s != "" && drop(s[|s| - 1]) then StripRight(s[..|s| - 1], drop) else s
  }

  function Strip(s: string, drop: char -> bool): string {
    StripRight(StripLeft(s, drop), drop)
  }

  function DropDotSlash(s: string): string {
    if "./" <= s then DropDotSlash(s[2..]) else s
  }

  predicate IsSlash(c: char) {
    c == '/'
  }

  function Normalize(value: string): string {
    Strip(DropDotSlash(Strip(WithSlashes(value), IsSpace)), IsSlash)
  }

  /** `_normalize_path` with its loop over leading `./` parts. */
  method NormalizePath(value: string) returns (normalized: string)
    ensures normalized == Normalize(value)
    ensures normalized != "" ==> normalized[0] != '/' && normalized[|normalized| - 1] != '/'
  {
    normalized := Strip(WithSlashes(value), IsSpace);
    while "./" <= normalized
      invariant DropDotSlash(normalized) == DropDotSlash(Strip(WithSlashes(value), IsSpace))
      decreases |normalized|
    {
      normalized := normalized[2..];
    }
    StripEnds(normalized, IsSlash);
    normalized := Strip(normalized, IsSlash);
  }

  predicate IsWildcard(c: char) {
    c == '*' || c == '?' || c == '['
  }

  /** The position of the first wildcard, or the length when there is none. */
  function FirstWildcard(p: string): (k: nat)
    ensures k <= |p|
    ensures forall i :: 0 <= i < k ==> !IsWildcard(p[i])
    ensures k < |p| ==> IsWildcard(p[k])
  {
    if p == "" || IsWildcard(p[0]) then 0 else 1 + FirstWildcard(p[1..])
  }

  /** The literal text before the first wildcard. */
  function LiteralPrefix(p: string): string {
    p[..FirstWildcard(p)]
  }

  function StaticPrefix(pattern: string): string {
    StripRight(LiteralPrefix(Normalize(pattern)), IsSlash)
  }

  predicate ContainsPath(prefix: string, path: string) {
    path == prefix || prefix + "/" <= path
  }

  function Canonical(t: Text, s: string): string {
    Fold(t, Normalize(s))
  }

  predicate PatternsOverlap(t: Text, left: string, right: string) {
    var l, r := Canonical(t, left), Canonical(t, right);
    || l == r
    || StaticPrefix(l) == "" || StaticPrefix(r) == ""
    || ContainsPath(StaticPrefix(l), StaticPrefix(r))
    || ContainsPath(StaticPrefix(r), StaticPrefix(l))
  }

  function FindFrom(s: string, c: char, from: nat): (k: nat)
    requires from <= |s|
    ensures from <= k <= |s|
    ensures k < |s| ==> s[k] == c
    decreases |s| - from
  {
    if from == |s| || s[from] == c then from else FindFrom(s, c, from + 1)
  }

  /** Where the bracket expression that opens at `p[0]` closes; the length of `p` when it never does.
      A `!` and a `]` directly after the opening bracket belong to its body. */
  function ClassEnd(p: string): (k: nat)
    requires p != ""
    ensures 1 <= k <= |p|
  {
    var j := if 1 < |p| && p[1] == '!' then 2 else 1;
    var j := if j < |p| && p[j] == ']' then j + 1 else j;
    FindFrom(p, ']', j)
  }

  /** `fnmatch.fnmatchcase`: `*` matches any text, slashes included. */
  predicate GlobMatch(t: Text, p: string, s: string)
    decreases |p| + |s|
  {
    if p == "" then s == ""
    else if p[0] == '*' then GlobMatch(t, p[1..], s) || (s != "" && GlobMatch(t, p, s[1..]))
    else if s == "" then false
    else if p[0] == '?' then GlobMatch(t, p[1..], s[1..])
    else if p[0] == '[' && ClassEnd(p) < |p| then
      t.inClass(p[1..ClassEnd(p)], s[0]) && GlobMatch(t, p[ClassEnd(p) + 1..], s[1..])
    else s[0] == p[0] && GlobMatch(t, p[1..], s[1..])
  }

  predicate EndsWith(s: string, suffix: string) {
    |s| >= |suffix| && s[|s| - |suffix|..] == suffix
  }

  predicate PathMatches(t: Text, path: string, pattern: string) {
    NameMatches(t, Canonical(t, path), Canonical(t, pattern))
  }

  /** `path_matches` on a path and a pattern that are already normalised and folded. */
  predicate NameMatches(t: Text, n: string, p: string) {
    if GlobMatch(t, p, n) then true
    else if EndsWith(p, "/**") then
      var prefix := StripRight(p[..|p| - 3], IsSlash);
      prefix != "" && ContainsPath(prefix, n)
    else if FirstWildcard(p) < |p| then false
    else ContainsPath(p, n)
  }

  // ---- Facts about stripping ----

  lemma {:induction false} StripRightShape(s: string, drop: char -> bool)
    ensures StripRight(s, drop) <= s
    ensures StripRight(s, drop) != "" ==> !drop(StripRight(s, drop)[|StripRight(s, drop)| - 1])
    ensures forall i :: |StripRight(s, drop)| <= i < |s| ==> drop(s[i])
  {
    if s != "" && drop(s[|s| - 1]) {
      StripRightShape(s[..|s| - 1], drop);
    }
  }

  lemma {:induction false} StripLeftShape(s: string, drop: char -> bool)
    ensures StripLeft(s, drop) != "" ==> !drop(StripLeft(s, drop)[0])
  {
    if s != "" && drop(s[0]) {
      StripLeftShape(s[1..], drop);
    }
  }

  lemma StripEnds(s: string, drop: char -> bool)
    ensures Strip(s, drop) != "" ==> !drop(Strip(s, drop)[0]) && !drop(Strip(s, drop)[|Strip(s, drop)| - 1])
  {
    StripLeftShape(s, drop);
    StripRightShape(StripLeft(s, drop), drop);
  }

  /** A string that is already in the spelling `_normalize_path` produces, told by inspection. */
  predicate LooksNormal(s: string) {
    && (forall i :: 0 <= i < |s| ==> s[i] != '\\')
    && (s != "" ==> !IsSpace(s[0]) && !IsSpace(s[|s| - 1]) && s[0] != '/' && s[|s| - 1] != '/')
    && !("./" <= s)
  }

  lemma LooksNormalIsNormal(s: string)
    requires LooksNormal(s)
    ensures Normalize(s) == s
  {
    assert WithSlashes(s) == s;
    assert StripLeft(s, IsSpace) == s;
    assert StripRight(s, IsSpace) == s;
    assert StripLeft(s, IsSlash) == s;
    assert StripRight(s, IsSlash) == s;
  }

  // ---- What a matched path starts with ----

  lemma {:induction false} GlobStartsLiterally(t: Text, p: string, s: string)
    requires GlobMatch(t, p, s)
    ensures LiteralPrefix(p) <= s
    ensures FirstWildcard(p) == |p| ==> s == p
    decreases |p|
  {
    if p != "" && !IsWildcard(p[0]) {
      GlobStartsLiterally(t, p[1..], s[1..]);
      assert LiteralPrefix(p) == [p[0]] + LiteralPrefix(p[1..]);
    }
  }

  lemma {:induction false} StarMatchesAnything(t: Text, s: string)
    ensures GlobMatch(t, "*", s)
    decreases |s|
  {
    if s != "" {
      StarMatchesAnything(t, s[1..]);
    } else {
      assert GlobMatch(t, "*"[1..], s);
    }
  }

  lemma {:induction false} LiteralThenStar(t: Text, a: string, s: string)
    requires FirstWildcard(a) == |a| && a <= s
    ensures GlobMatch(t, a + "*", s)
    decreases |a|
  {
    if a == "" {
      StarMatchesAnything(t, s);
      assert a + "*" == "*";
    } else {
      LiteralThenStar(t, a[1..], s[1..]);
      assert (a + "*")[1..] == a[1..] + "*";
    }
  }

  lemma FirstWildcardOfLiteralStar(a: string)
    requires FirstWildcard(a) == |a|
    ensures FirstWildcard(a + "*") == |a| && LiteralPrefix(a + "*") == a
  {
    var p := a + "*";
    assert IsWildcard(p[|a|]);
    assert forall i :: 0 <= i < |a| ==> p[i] == a[i] && !IsWildcard(a[i]);
  }

  /** Under a non-empty prefix without a closing slash, stripping closing slashes stays under it. */
  lemma StrippedStaysUnder(prefix: string, b: string)
    requires prefix != "" && prefix[|prefix| - 1] != '/'
    requires prefix + "/" <= b
    ensures ContainsPath(prefix, StripRight(b, IsSlash))
  {
    StripRightShape(b, IsSlash);
    var m := |StripRight(b, IsSlash)|;
    assert b[|prefix| - 1] == prefix[|prefix| - 1];
    assert m >= |prefix|;
    assert b[..|prefix| + 1] == prefix + "/";
    if m == |prefix| {
      assert StripRight(b, IsSlash) == b[..m] == prefix;
    } else {
      assert b[..m][..|prefix| + 1] == prefix + "/";
    }
  }

  /** The static prefix of a canonical pattern. */
  function PrefixOf(p: string): string {
    StripRight(LiteralPrefix(p), IsSlash)
  }

  lemma EndsInRecursiveStar(p: string)
    requires EndsWith(p, "/**")
    ensures p[|p| - 3] == '/' && p[|p| - 2] == '*' && FirstWildcard(p) != |p| - 3 && FirstWildcard(p) <= |p| - 2
  {
    var k := |p| - 3;
    assert p[k] == p[k..][0] && p[k + 1] == p[k..][1];
  }

  lemma UnderRecursivePrefix(n: string, p: string)
    requires EndsWith(p, "/**")
    requires StripRight(p[..|p| - 3], IsSlash) != ""
    requires ContainsPath(StripRight(p[..|p| - 3], IsSlash), n)
    ensures LiteralPrefix(p) <= n || (PrefixOf(p) != "" && ContainsPath(PrefixOf(p), n))
  {
    var k, w := |p| - 3, FirstWildcard(p);
    var head := p[..k];
    var prefix := StripRight(head, IsSlash);
    StripRightShape(head, IsSlash);
    EndsInRecursiveStar(p);
    if w == k + 1 {
      assert LiteralPrefix(p) == head + "/";
      assert (head + "/")[..k] == head;
    } else {
      assert head[w] == p[w] && |prefix| > w;
      assert LiteralPrefix(p) == p[..w] == head[..w] == prefix[..w];
    }
  }

  /** A path matched by a pattern starts with the pattern's literal prefix or lies under its static prefix. */
  lemma MatchedPathStart(t: Text, n: string, p: string)
    requires NameMatches(t, n, p)
    ensures LiteralPrefix(p) <= n || (PrefixOf(p) != "" && ContainsPath(PrefixOf(p), n))
    ensures FirstWildcard(p) == |p| ==> ContainsPath(p, n)
  {
    if GlobMatch(t, p, n) {
      GlobStartsLiterally(t, p, n);
    } else if EndsWith(p, "/**") {
      UnderRecursivePrefix(n, p);
      EndsInRecursiveStar(p);
    } else {
      assert LiteralPrefix(p) == p;
    }
  }

  /** Two prefixes that both contain one path are comparable, component by component. */
  lemma PrefixesOfOnePath(p: string, q: string, path: string)
    requires ContainsPath(p, path) && ContainsPath(q, path)
    ensures ContainsPath(p, q) || ContainsPath(q, p)
  {
    if |p| < |q| {
      assert (p + "/") == path[..|p| + 1] == q[..|p| + 1];
    } else if |q| < |p| {
      assert (q + "/") == path[..|q| + 1] == p[..|q| + 1];
    } else {
      assert p == path[..|p|] == q;
    }
  }

  /** The literal text before the first wildcard is empty or ends a path component. */
  predicate ComponentAligned(p: string) {
    var k := FirstWildcard(p);
    k == 0 || k == |p| || p[k - 1] == '/'
  }

  /** `p` is already spelled the way `_normalize_path` spells it, and is already case-folded. */
  predicate IsCanonical(t: Text, p: string) {
    Normalize(p) == p && Fold(t, p) == p
  }

  lemma AlignedMatchUnderPrefix(t: Text, path: string, pattern: string)
    requires Normalize(Canonical(t, pattern)) == Canonical(t, pattern)
    requires ComponentAligned(Canonical(t, pattern))
    requires PathMatches(t, path, pattern)
    ensures var prefix := StaticPrefix(Canonical(t, pattern));
      prefix == "" || ContainsPath(prefix, Canonical(t, path))
  {
    var n, p := Canonical(t, path), Canonical(t, pattern);
    var a, prefix := LiteralPrefix(p), StaticPrefix(p);
    assert prefix == PrefixOf(p);
    MatchedPathStart(t, n, p);
    StripRightShape(a, IsSlash);
    if FirstWildcard(p) == |p| {
      StripEnds(DropDotSlash(Strip(WithSlashes(p), IsSpace)), IsSlash);
      assert a == p;
      assert prefix == p;
    } else if prefix != "" && LiteralPrefix(p) <= n {
      assert a[|a| - 1] == '/' && |prefix| < |a|;
      assert a[|prefix|] == '/';
      assert prefix + "/" == a[..|prefix| + 1];
    }
  }

  /** For component-aligned patterns the overlap test is conservative: a path that matches both forces it. */
  lemma OverlapIsConservative(t: Text, path: string, left: string, right: string)
    requires Normalize(Canonical(t, left)) == Canonical(t, left)
    requires Normalize(Canonical(t, right)) == Canonical(t, right)
    requires ComponentAligned(Canonical(t, left)) && ComponentAligned(Canonical(t, right))
    requires PathMatches(t, path, left) && PathMatches(t, path, right)
    ensures PatternsOverlap(t, left, right)
  {
    AlignedMatchUnderPrefix(t, path, left);
    AlignedMatchUnderPrefix(t, path, right);
    var l, r := StaticPrefix(Canonical(t, left)), StaticPrefix(Canonical(t, right));
    if l != "" && r != "" {
      PrefixesOfOnePath(l, r, Canonical(t, path));
    }
  }

  lemma OverlapIsSymmetric(t: Text, left: string, right: string)
    ensures PatternsOverlap(t, left, right) == PatternsOverlap(t, right, left)
  {
  }

  // ---- Exactly when the overlap test is conservative ----

  /** What the overlap test decides when it only sees two different patterns' literal prefixes. */
  predicate PrefixesOverlap(a: string, b: string) {
    var p, q := StripRight(a, IsSlash), StripRight(b, IsSlash);
    p == "" || q == "" || ContainsPath(p, q) || ContainsPath(q, p)
  }

  /** The test never misses a shared path between canonical patterns with literal prefixes `a` and `b`. */
  ghost predicate ConservativeFor(t: Text, a: string, b: string) {
    forall path, l, r ::
      && IsCanonical(t, l) && LiteralPrefix(l) == a
      && IsCanonical(t, r) && LiteralPrefix(r) == b
      && PathMatches(t, path, l) && PathMatches(t, path, r)
      ==> PatternsOverlap(t, l, r)
  }

  lemma SharedStart(a: string, b: string, n: string)
    requires a <= n && b <= n
    ensures a <= b || b <= a
  {
    if |a| <= |b| {
      assert a == n[..|a|] == b[..|a|];
    } else {
      assert b == n[..|b|] == a[..|b|];
    }
  }

  lemma UnderAndStart(a: string, b: string, n: string)
    requires StripRight(a, IsSlash) != "" && ContainsPath(StripRight(a, IsSlash), n) && b <= n
    ensures PrefixesOverlap(a, b) || b <= a
  {
    var p := StripRight(a, IsSlash);
    StripRightShape(a, IsSlash);
    if |b| > |p| {
      assert p + "/" == n[..|p| + 1] == b[..|p| + 1];
      StrippedStaysUnder(p, b);
    } else {
      assert b == n[..|b|] == p[..|b|] == a[..|b|];
    }
  }

  lemma ComparableOrOverlap(t: Text, path: string, l: string, r: string)
    requires IsCanonical(t, l) && IsCanonical(t, r)
    requires PathMatches(t, path, l) && PathMatches(t, path, r)
    ensures var a, b := LiteralPrefix(l), LiteralPrefix(r);
      PrefixesOverlap(a, b) || a <= b || b <= a
  {
    var n, a, b := Canonical(t, path), LiteralPrefix(l), LiteralPrefix(r);
    MatchedPathStart(t, n, l);
    MatchedPathStart(t, n, r);
    if a <= n && b <= n {
      SharedStart(a, b, n);
    } else if a <= n {
      UnderAndStart(b, a, n);
    } else if b <= n {
      UnderAndStart(a, b, n);
    } else {
      PrefixesOfOnePath(PrefixOf(l), PrefixOf(r), n);
    }
  }

  /** The longer of two `prefix*` patterns, read as a file name, is matched by both. */
  lemma StarsShareAPath(t: Text, a: string, b: string)
    requires FirstWildcard(a) == |a| && FirstWildcard(b) == |b| && a <= b
    requires IsCanonical(t, a + "*") && IsCanonical(t, b + "*")
    ensures PathMatches(t, b + "*", a + "*") && PathMatches(t, b + "*", b + "*")
  {
    assert a <= b + "*";
    assert b <= b + "*";
    LiteralThenStar(t, a, b + "*");
    LiteralThenStar(t, b, b + "*");
  }

  /** The overlap test is conservative for a pair of literal prefixes exactly when they overlap component
      by component or neither is a textual prefix of the other.  So it fails exactly on prefixes
      such as `src/foo` and `src/foobar`. */
  lemma ConservativeExactly(t: Text, a: string, b: string)
    requires FirstWildcard(a) == |a| && FirstWildcard(b) == |b|
    requires IsCanonical(t, a + "*") && IsCanonical(t, b + "*")
    ensures ConservativeFor(t, a, b) <==> PrefixesOverlap(a, b) || !(a <= b || b <= a)
  {
    if PrefixesOverlap(a, b) || !(a <= b || b <= a) {
      forall path, l, r |
        && IsCanonical(t, l) && LiteralPrefix(l) == a
        && IsCanonical(t, r) && LiteralPrefix(r) == b
        && PathMatches(t, path, l) && PathMatches(t, path, r)
        ensures PatternsOverlap(t, l, r)
      {
        ComparableOrOverlap(t, path, l, r);
      }
    } else {
      FirstWildcardOfLiteralStar(a);
      FirstWildcardOfLiteralStar(b);
      var l, r := a + "*", b + "*";
      var path := if a <= b then r else l;
      if a <= b {
        StarsShareAPath(t, a, b);
      } else {
        StarsShareAPath(t, b, a);
      }
      assert PathMatches(t, path, l) && PathMatches(t, path, r);
      assert !PatternsOverlap(t, l, r);
    }
  }

  /** Character tables without case. */
  const PLAIN := Text(c => [c], (body, c) => false)

  lemma {:induction false} PlainFold(s: string)
    ensures Fold(PLAIN, s) == s
  {
    if s != "" {
      PlainFold(s[1..]);
    }
  }

  /** A file whose name continues the text before a closing star is matched by both patterns and missed. */
  lemma StarMissesLongerName(t: Text, a: string, b: string)
    requires FirstWildcard(a) == |a| && FirstWildcard(b) == |b|
    requires IsCanonical(t, a + "*") && IsCanonical(t, b)
    requires a != "" && a < b && a[|a| - 1] != '/' && b[|a|] != '/' && b[|b| - 1] != '/'
    ensures PathMatches(t, b, a + "*") && PathMatches(t, b, b)
    ensures !PatternsOverlap(t, a + "*", b)
  {
    FirstWildcardOfLiteralStar(a);
    LiteralThenStar(t, a, b);
    assert StripRight(a, IsSlash) == a && StripRight(b, IsSlash) == b;
    assert LiteralPrefix(b) == b;
    assert b[|b| - 1] != '*';
    assert |b| >= 3 ==> b[|b| - 3..][2] == b[|b| - 1];
    assert (a + "/")[|a|] == '/';
  }

  /** The patterns `src/foo*` and `src/foobar.py` share the path `src/foobar.py`, yet the test calls them disjoint. */
  lemma OverlapMissesASharedPath() returns (left: string, right: string)
    ensures left == "src/foo*" && right == "src/foobar.py"
    ensures PathMatches(PLAIN, right, left) && PathMatches(PLAIN, right, right)
    ensures !PatternsOverlap(PLAIN, left, right)
  {
    var a := "src/foo";
    left, right := a + "*", "src/foobar.py";
    PlainNames(a, left, right);
    StarMissesLongerName(PLAIN, a, right);
  }

  lemma PlainNames(a: string, left: string, right: string)
    requires a == "src/foo" && left == a + "*" && right == "src/foobar.py"
    ensures FirstWildcard(a) == |a| && FirstWildcard(right) == |right|
    ensures IsCanonical(PLAIN, left) && IsCanonical(PLAIN, right)
  {
    NoWildcards(a);
    NoWildcards(right);
    LooksNormalIsNormal(left);
    LooksNormalIsNormal(right);
    PlainFold(left);
    PlainFold(right);
  }

  lemma NoWildcards(s: string)
    requires forall i :: 0 <= i < |s| ==> !IsWildcard(s[i])
    ensures FirstWildcard(s) == |s|
  {
  }
}
