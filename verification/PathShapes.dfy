/** What the path functions compute, told by the shape of their arguments. */
module PathShapes {
  import opened PathPatterns

  predicate All(s: string, p: char -> bool) {
    forall i :: 0 <= i < |s| ==> p(s[i])
  }

  /** Empty, or neither end is dropped. */
  predicate Trimmed(s: string, drop: char -> bool) {
    s != "" ==> !drop(s[0]) && !drop(s[|s| - 1])
  }

  // ---- Stripping ----

  lemma {:induction false} LeftEnd(s: string, drop: char -> bool) returns (k: nat)
    ensures k <= |s| && StripLeft(s, drop) == s[k..] && forall i :: 0 <= i < k ==> drop(s[i])
  {
    if s != "" && drop(s[0]) {
      var rest := s[1..];
      var n := LeftEnd(rest, drop);
      k := n + 1;
      assert rest[n..] == s[k..];
      assert forall i :: 1 <= i < k ==> s[i] == rest[i - 1];
    } else {
      k := 0;
    }
  }

  lemma LeftPart(s: string, drop: char -> bool) returns (a: string)
    ensures s == a + StripLeft(s, drop) && All(a, drop)
  {
    var k := LeftEnd(s, drop);
    a := s[..k];
  }

  lemma RightPart(s: string, drop: char -> bool) returns (e: string)
    ensures s == StripRight(s, drop) + e && All(e, drop)
  {
    StripRightShape(s, drop);
    e := s[|StripRight(s, drop)|..];
  }

  lemma StripParts(s: string, drop: char -> bool) returns (a: string, e: string)
    ensures s == a + Strip(s, drop) + e && All(a, drop) && All(e, drop) && Trimmed(Strip(s, drop), drop)
  {
    a := LeftPart(s, drop);
    e := RightPart(StripLeft(s, drop), drop);
    StripEnds(s, drop);
  }

  lemma {:induction false} LeftIsUnique(a: string, m: string, drop: char -> bool)
    requires All(a, drop) && (m != "" ==> !drop(m[0]))
    ensures StripLeft(a + m, drop) == m
  {
    if a == "" {
      assert a + m == m;
    } else {
      assert (a + m)[1..] == a[1..] + m;
      LeftIsUnique(a[1..], m, drop);
    }
  }

  lemma {:induction false} RightIsUnique(m: string, e: string, drop: char -> bool)
    requires All(e, drop) && (m != "" ==> !drop(m[|m| - 1]))
    ensures StripRight(m + e, drop) == m
    decreases |e|
  {
    if e == "" {
      assert m + e == m;
    } else {
      assert (m + e)[..|m + e| - 1] == m + e[..|e| - 1];
      RightIsUnique(m, e[..|e| - 1], drop);
    }
  }

  lemma StripIsUnique(s: string, a: string, m: string, e: string, drop: char -> bool)
    requires s == a + m + e && All(a, drop) && All(e, drop) && Trimmed(m, drop)
    ensures Strip(s, drop) == m
  {
    if m == "" {
      assert s == (a + e) + "";
      LeftIsUnique(a + e, "", drop);
    } else {
      assert s == a + (m + e);
      LeftIsUnique(a, m + e, drop);
      RightIsUnique(m, e, drop);
    }
  }

  /** `./`, any number of times. */
  predicate Dots(b: string) {
    |b| % 2 == 0 && forall i :: 0 <= i < |b| ==> b[i] == if i % 2 == 0 then '.' else '/'
  }

  lemma {:induction false} DotsPart(s: string) returns (b: string)
    ensures s == b + DropDotSlash(s) && Dots(b) && !("./" <= DropDotSlash(s))
    decreases |s|
  {
    if "./" <= s {
      var rest := DotsPart(s[2..]);
      b := "./" + rest;
      assert s == "./" + s[2..];
    } else {
      b := "";
    }
  }

  lemma {:induction false} DotsAreUnique(b: string, m: string)
    requires Dots(b) && !("./" <= m)
    ensures DropDotSlash(b + m) == m
    decreases |b|
  {
    if b == "" {
      assert b + m == m;
    } else {
      assert (b + m)[..2] == "./" && (b + m)[2..] == b[2..] + m;
      DotsAreUnique(b[2..], m);
    }
  }

  // ---- Normal spelling ----

  predicate IsSlashed(value: string, w: string) {
    |w| == |value| && forall i :: 0 <= i < |w| ==> w[i] == if value[i] == '\\' then '/' else value[i]
  }

  /** The value with slashes for backslashes is `n` between slashes, behind `./` parts, between white space; nothing
      more can be taken off at any of these layers. */
  predicate Layers(value: string, n: string, a: string, b: string, c: string, d: string, e: string) {
    && IsSlashed(value, a + (b + (c + n + d)) + e)
    && All(a, IsSpace) && All(e, IsSpace) && Trimmed(b + (c + n + d), IsSpace)
    && Dots(b) && !("./" <= c + n + d)
    && All(c, IsSlash) && All(d, IsSlash) && Trimmed(n, IsSlash)
  }

  lemma LayersOf(value: string) returns (a: string, b: string, c: string, d: string, e: string)
    ensures Layers(value, Normalize(value), a, b, c, d, e)
  {
    var w := WithSlashes(value);
    a, e := StripParts(w, IsSpace);
    b := DotsPart(Strip(w, IsSpace));
    c, d := StripParts(DropDotSlash(Strip(w, IsSpace)), IsSlash);
    assert IsSlashed(value, w);
  }

  lemma LayersNormalize(value: string, n: string, a: string, b: string, c: string, d: string, e: string)
    requires Layers(value, n, a, b, c, d, e)
    ensures Normalize(value) == n
  {
    var w := a + (b + (c + n + d)) + e;
    assert w == WithSlashes(value);
    StripIsUnique(w, a, b + (c + n + d), e, IsSpace);
    DotsAreUnique(b, c + n + d);
    StripIsUnique(c + n + d, c, n, d, IsSlash);
  }

  /** A path has the normal spelling `n` exactly when it is `n` in these layers. */
  lemma NormalizesExactly(value: string, n: string)
    ensures Normalize(value) == n <==> exists a, b, c, d, e :: Layers(value, n, a, b, c, d, e)
  {
    if Normalize(value) == n {
      var a, b, c, d, e := LayersOf(value);
    }
    if a, b, c, d, e :| Layers(value, n, a, b, c, d, e) {
      LayersNormalize(value, n, a, b, c, d, e);
    }
  }

  // ---- Overlap ----

  /** The path is the named directory or file, or below it; no name stands for the whole tree. */
  predicate Under(name: string, path: string) {
    name == "" || path == name || name + "/" <= path
  }

  /** The test says yes exactly when the spellings are equal or some path is under both literal names. */
  lemma OverlapsExactly(t: Text, left: string, right: string)
    ensures var l, r := Canonical(t, left), Canonical(t, right);
      PatternsOverlap(t, left, right) <==>
        l == r || exists path :: Under(StaticPrefix(l), path) && Under(StaticPrefix(r), path)
  {
    var p, q := StaticPrefix(Canonical(t, left)), StaticPrefix(Canonical(t, right));
    if p == "" || ContainsPath(p, q) {
      assert Under(p, q) && Under(q, q);
    }
    if q == "" || ContainsPath(q, p) {
      assert Under(p, p) && Under(q, p);
    }
    if path :| Under(p, path) && Under(q, path) {
      if p != "" && q != "" {
        PrefixesOfOnePath(p, q, path);
      }
    }
  }

  /** The literal name of a pattern: what stands before the slashes before its first wildcard. */
  lemma StaticPrefixExactly(pattern: string, name: string)
    ensures StaticPrefix(pattern) == name <==>
            exists slashes, tail :: Splits(Normalize(pattern), name, slashes, tail)
  {
    var p := Normalize(pattern);
    var k := FirstWildcard(p);
    assert p == p[..k] + p[k..];
    var slashes := RightPart(p[..k], IsSlash);
    StripRightShape(p[..k], IsSlash);
    if StaticPrefix(pattern) == name {
      assert Splits(p, name, slashes, p[k..]);
    }
    if slashes', tail :| Splits(p, name, slashes', tail) {
      var literal := name + slashes';
      assert p == literal + tail;
      assert forall i :: 0 <= i < |literal| ==> p[i] == literal[i];
      assert tail != "" ==> p[|literal|] == tail[0];
      assert p[..|literal|] == literal;
      RightIsUnique(name, slashes', IsSlash);
    }
  }

  predicate Splits(p: string, name: string, slashes: string, tail: string) {
    && p == name + slashes + tail && All(slashes, IsSlash) && (name != "" ==> name[|name| - 1] != '/')
    && (forall i :: 0 <= i < |name + slashes| ==> (name + slashes)[i] !in {'*', '?', '['})
    && (tail != "" ==> tail[0] in {'*', '?', '['})
  }

  // ---- Matching ----

  lemma {:induction false} LiteralMatchesItself(t: Text, p: string, n: string)
    requires FirstWildcard(p) == |p|
    ensures GlobMatch(t, p, n) <==> n == p
    decreases |p|
  {
    if p != "" && n != "" && n[0] == p[0] {
      LiteralMatchesItself(t, p[1..], n[1..]);
      assert n == [n[0]] + n[1..] && p == [p[0]] + p[1..];
    }
  }

  /** A pattern without wildcards matches the path it names and everything below. */
  lemma LiteralPatternMatches(t: Text, n: string, p: string)
    requires forall i :: 0 <= i < |p| ==> p[i] !in {'*', '?', '['}
    ensures NameMatches(t, n, p) <==> n == p || p + "/" <= n
  {
    assert FirstWildcard(p) == |p|;
    LiteralMatchesItself(t, p, n);
    if EndsWith(p, "/**") {
      EndsInRecursiveStar(p);
    }
  }

  lemma {:induction false} TwoStarsMatchAnything(t: Text, s: string)
    ensures GlobMatch(t, "**", s)
  {
    StarMatchesAnything(t, s);
    assert "**"[1..] == "*";
  }

  lemma {:induction false} LiteralThenStars(t: Text, a: string, n: string)
    requires FirstWildcard(a) == |a|
    ensures GlobMatch(t, a + "**", n) <==> a <= n
    decreases |a|
  {
    if a == "" {
      TwoStarsMatchAnything(t, n);
      assert a + "**" == "**";
    } else {
      assert (a + "**")[1..] == a[1..] + "**";
      if n != "" {
        LiteralThenStars(t, a[1..], n[1..]);
        assert a <= n <==> a[0] == n[0] && a[1..] <= n[1..];
      }
    }
  }

  /** A name with a slash and two stars behind it matches the directory itself and everything below. */
  lemma RecursivePatternMatches(t: Text, n: string, name: string)
    requires (forall i :: 0 <= i < |name| ==> name[i] !in {'*', '?', '['}) && name != "" && name[|name| - 1] != '/'
    ensures NameMatches(t, n, name + "/**") <==> n == name || name + "/" <= n
  {
    var p := name + "/**";
    assert FirstWildcard(name + "/") == |name + "/"|;
    assert p == (name + "/") + "**";
    LiteralThenStars(t, name + "/", n);
    assert p[|p| - 3..] == "/**" && p[..|p| - 3] == name;
    assert StripRight(name, IsSlash) == name;
  }
}
