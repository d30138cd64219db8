/** The check that diff hunks exactly describe the change between two snapshots of a file. */
module Hunks {
  type Line = string

  /** A hunk in unified-diff coordinates; a side with count 0 names the line it stands after. */
  datatype Hunk = Hunk(oldFirst: int, oldCount: int, newFirst: int, newCount: int)

  function SideStart(first: int, count: int): int {
    if count == 0 then first else first - 1
  }

  predicate SideIsBounded(first: int, count: int, lineCount: int) {
    if count == 0 then 0 <= first <= lineCount else first >= 1 && first + count - 1 <= lineCount
  }

  function LastOf(first: int, count: int): int {
    first + (if count < 1 then 1 else count) - 1
  }

  // ---- The decoder's order checks ----

  predicate HunkIsBounded(h: Hunk, oldLines: int, newLines: int) {
    && h.oldCount >= 0 && h.newCount >= 0 && !(h.oldCount == 0 && h.newCount == 0)
    && SideIsBounded(h.oldFirst, h.oldCount, oldLines)
    && SideIsBounded(h.newFirst, h.newCount, newLines)
  }

  /** Both sides of `b` start after both sides of `a` end. */
  predicate Before(a: Hunk, b: Hunk) {
    b.oldFirst > LastOf(a.oldFirst, a.oldCount) && b.newFirst > LastOf(a.newFirst, a.newCount)
  }

  /** Bounded, ordered and pairwise disjoint hunks. */
  ghost predicate Admissible(hunks: seq<Hunk>, oldLines: int, newLines: int) {
    && (forall i :: 0 <= i < |hunks| ==> HunkIsBounded(hunks[i], oldLines, newLines))
    && (forall i, j :: 0 <= i < j < |hunks| ==> Before(hunks[i], hunks[j]))
  }

  /** The lines that a side names: its own, or the line it stands after. */
  predicate Touches(first: int, count: int, line: int) {
    if count == 0 then line == first else first <= line < first + count
  }

  /** The order rules written out: some lines on one side at least, all within the text, and every line that a hunk
      names comes before every line that a later hunk names. */
  lemma AdmissibleExactly(hunks: seq<Hunk>, oldLines: int, newLines: int)
    ensures Admissible(hunks, oldLines, newLines) <==>
              && (forall i :: 0 <= i < |hunks| ==>
                    var h := hunks[i];
                    && h.oldCount >= 0 && h.newCount >= 0 && h.oldCount + h.newCount >= 1
                    && (if h.oldCount == 0 then 0 <= h.oldFirst <= oldLines
                        else 1 <= h.oldFirst && h.oldFirst + h.oldCount <= oldLines + 1)
                    && (if h.newCount == 0 then 0 <= h.newFirst <= newLines
                        else 1 <= h.newFirst && h.newFirst + h.newCount <= newLines + 1))
              && (forall i, j :: 0 <= i < j < |hunks| ==> InOrder(hunks[i], hunks[j]))
  {
    if forall i :: 0 <= i < |hunks| ==> hunks[i].oldCount >= 0 && hunks[i].newCount >= 0 {
      forall i, j | 0 <= i < j < |hunks|
        ensures Before(hunks[i], hunks[j]) <==> InOrder(hunks[i], hunks[j])
      {
        InOrderIsBefore(hunks[i], hunks[j]);
      }
    }
  }

  ghost predicate InOrder(a: Hunk, b: Hunk) {
    && (forall x, y :: Touches(a.oldFirst, a.oldCount, x) && Touches(b.oldFirst, b.oldCount, y) ==> x < y)
    && (forall x, y :: Touches(a.newFirst, a.newCount, x) && Touches(b.newFirst, b.newCount, y) ==> x < y)
  }

  lemma InOrderIsBefore(a: Hunk, b: Hunk)
    requires a.oldCount >= 0 && a.newCount >= 0 && b.oldCount >= 0 && b.newCount >= 0
    ensures Before(a, b) <==> InOrder(a, b)
  {
    assert Touches(a.oldFirst, a.oldCount, LastOf(a.oldFirst, a.oldCount));
    assert Touches(a.newFirst, a.newCount, LastOf(a.newFirst, a.newCount));
    assert Touches(b.oldFirst, b.oldCount, b.oldFirst) && Touches(b.newFirst, b.newCount, b.newFirst);
  }

  /** The hunk loop of the decoder, which compares each hunk with the one before it only. */
  method CheckHunks(hunks: seq<Hunk>, oldLines: int, newLines: int) returns (valid: bool)
    ensures valid <==> Admissible(hunks, oldLines, newLines)
  {
    var previousOldLast, previousNewLast := 0, 0;
    for i := 0 to |hunks|
      invariant Admissible(hunks[..i], oldLines, newLines)
      invariant i > 0 ==> previousOldLast == LastOf(hunks[i - 1].oldFirst, hunks[i - 1].oldCount)
      invariant i > 0 ==> previousNewLast == LastOf(hunks[i - 1].newFirst, hunks[i - 1].newCount)
    {
      var h := hunks[i];
      if h.oldCount < 0 || h.newCount < 0
         || !SideIsBounded(h.oldFirst, h.oldCount, oldLines)
         || !SideIsBounded(h.newFirst, h.newCount, newLines)
         || (h.oldCount == 0 && h.newCount == 0)
         || (i > 0 && h.oldFirst <= previousOldLast)
         || (i > 0 && h.newFirst <= previousNewLast)
      {
        assert i > 0 && HunkIsBounded(h, oldLines, newLines) ==> !Before(hunks[i - 1], hunks[i]);
        return false;
      }
      forall k | 0 <= k < i
        ensures Before(hunks[k], h)
      {
        if k < i - 1 {
          assert Before(hunks[..i][k], hunks[..i][i - 1]);
        }
      }
      previousOldLast := LastOf(h.oldFirst, h.oldCount);
      previousNewLast := LastOf(h.newFirst, h.newCount);
    }
    assert hunks[..|hunks|] == hunks;
    return true;
  }

  // ---- The snapshot check ----

  /** A list index as Python slicing clamps it. */
  function Clamp(i: int, n: int): (r: int)
    requires n >= 0
    ensures 0 <= r <= n
    ensures 0 <= i <= n ==> r == i
  {
    if i >= 0 then (if i > n then n else i) else if i + n < 0 then 0 else i + n
  }

  /** Equality of the lines `s[a..b]` and `t[c..d]`, line by line. */
  predicate LinesAgree(s: seq<Line>, a: nat, b: nat, t: seq<Line>, c: nat, d: nat)
    requires a <= b <= |s| && c <= d <= |t|
    decreases b - a
  {
    b - a == d - c && (a == b || (s[a] == t[c] && LinesAgree(s, a + 1, b, t, c + 1, d)))
  }

  /** Equality of two slices, with Python's treatment of bounds outside the lists. */
  predicate SameSlices(s: seq<Line>, lo: int, hi: int, t: seq<Line>, lo': int, hi': int) {
    var a, b, c, d := Clamp(lo, |s|), Clamp(hi, |s|), Clamp(lo', |t|), Clamp(hi', |t|);
    LinesAgree(s, a, if a <= b then b else a, t, c, if c <= d then d else c)
  }

  /** The zero-based line regions a hunk covers on the two sides. */
  datatype Region = Region(oldStart: int, oldEnd: int, newStart: int, newEnd: int)

  function RegionOf(h: Hunk): Region {
    var oldStart, newStart := SideStart(h.oldFirst, h.oldCount), SideStart(h.newFirst, h.newCount);
    Region(oldStart, oldStart + h.oldCount, newStart, newStart + h.newCount)
  }

  function RegionsOf(hunks: seq<Hunk>): (r: seq<Region>)
    ensures |r| == |hunks| && forall i :: 0 <= i < |hunks| ==> r[i] == RegionOf(hunks[i])
  {
    seq(|hunks|, i requires 0 <= i < |hunks| => RegionOf(hunks[i]))
  }

  /** The two comparisons of one turn of the loop. */
  predicate RegionDescribes(old_: seq<Line>, new_: seq<Line>, r: Region, oldCursor: int, newCursor: int) {
    && SameSlices(old_, oldCursor, r.oldStart, new_, newCursor, r.newStart)
    && !SameSlices(old_, r.oldStart, r.oldEnd, new_, r.newStart, r.newEnd)
  }

  /** What the loop decides from the cursors on. */
  predicate DescribesFrom(old_: seq<Line>, new_: seq<Line>, regions: seq<Region>, oldCursor: int, newCursor: int) {
    if regions == [] then SameSlices(old_, oldCursor, |old_|, new_, newCursor, |new_|)
    else
      && RegionDescribes(old_, new_, regions[0], oldCursor, newCursor)
      && DescribesFrom(old_, new_, regions[1..], regions[0].oldEnd, regions[0].newEnd)
  }

  /** `_hunks_describe_snapshot_diff` on the line lists of the two snapshots. */
  method DescribeSnapshotDiff(old_: seq<Line>, new_: seq<Line>, hunks: seq<Hunk>) returns (r: bool)
    ensures r <==> DescribesFrom(old_, new_, RegionsOf(hunks), 0, 0)
    ensures Admissible(hunks, |old_|, |new_|) ==> (r <==> IsExactDiff(old_, new_, hunks))
  {
    if Admissible(hunks, |old_|, |new_|) {
      DescribesIsExact(old_, new_, hunks);
    }
    r := RunCursors(old_, new_, hunks);
  }

  /** One turn of the loop: what is decided from hunk `i` on. */
  lemma Turn(old_: seq<Line>, new_: seq<Line>, hunks: seq<Hunk>, i: nat, oldCursor: int, newCursor: int)
    requires i < |hunks|
    ensures var r := RegionOf(hunks[i]);
      DescribesFrom(old_, new_, RegionsOf(hunks)[i..], oldCursor, newCursor) <==>
      RegionDescribes(old_, new_, r, oldCursor, newCursor)
      && DescribesFrom(old_, new_, RegionsOf(hunks)[i + 1..], r.oldEnd, r.newEnd)
  {
    var rest := RegionsOf(hunks)[i..];
    assert rest[0] == RegionOf(hunks[i]);
    assert rest[1..] == RegionsOf(hunks)[i + 1..];
  }

  /** One turn of the loop: compare the lines before the hunk, then the lines it covers. */
  method CompareRegion(old_: seq<Line>, new_: seq<Line>, r: Region, oldCursor: int, newCursor: int)
    returns (described: bool)
    ensures described <==> RegionDescribes(old_, new_, r, oldCursor, newCursor)
  {
    if !SameSlices(old_, oldCursor, r.oldStart, new_, newCursor, r.newStart) {
      return false;
    }
    return !SameSlices(old_, r.oldStart, r.oldEnd, new_, r.newStart, r.newEnd);
  }

  /** The loop over the hunks with its two cursors. */
  method RunCursors(old_: seq<Line>, new_: seq<Line>, hunks: seq<Hunk>) returns (r: bool)
    ensures r <==> DescribesFrom(old_, new_, RegionsOf(hunks), 0, 0)
  {
    ghost var decided := DescribesFrom(old_, new_, RegionsOf(hunks), 0, 0);
    var oldCursor, newCursor := 0, 0;
    assert RegionsOf(hunks)[0..] == RegionsOf(hunks);
    for i := 0 to |hunks|
      invariant decided <==> DescribesFrom(old_, new_, RegionsOf(hunks)[i..], oldCursor, newCursor)
    {
      Turn(old_, new_, hunks, i, oldCursor, newCursor);
      var region := RegionOf(hunks[i]);
      var described := CompareRegion(old_, new_, region, oldCursor, newCursor);
      if !described {
        return false;
      }
      oldCursor, newCursor := region.oldEnd, region.newEnd;
    }
    return SameSlices(old_, oldCursor, |old_|, new_, newCursor, |new_|);
  }

  // ---- What an exact diff is ----

  predicate RegionFits(r: Region, oldCursor: int, newCursor: int, oldLines: int, newLines: int) {
    0 <= oldCursor <= r.oldStart <= r.oldEnd <= oldLines && 0 <= newCursor <= r.newStart <= r.newEnd <= newLines
  }

  /** Regions that lie one after the other, from the cursors to the ends of the two texts. */
  predicate FitFrom(regions: seq<Region>, oldCursor: int, newCursor: int, oldLines: int, newLines: int) {
    if regions == [] then 0 <= oldCursor <= oldLines && 0 <= newCursor <= newLines
    else
      && RegionFits(regions[0], oldCursor, newCursor, oldLines, newLines)
      && FitFrom(regions[1..], regions[0].oldEnd, regions[0].newEnd, oldLines, newLines)
  }

  /** The old text with each old region replaced by the lines of its region in the new text, from a cursor on. */
  function Patch(old_: seq<Line>, new_: seq<Line>, regions: seq<Region>, oldCursor: int, newCursor: int): seq<Line>
    requires FitFrom(regions, oldCursor, newCursor, |old_|, |new_|)
  {
    if regions == [] then old_[oldCursor..]
    else
      var r := regions[0];
      old_[oldCursor..r.oldStart] + (new_[r.newStart..r.newEnd] + Patch(old_, new_, regions[1..], r.oldEnd, r.newEnd))
  }

  /** Each region starts on the new side where the regions before it have moved its old start to. */
  predicate AlignedFrom(regions: seq<Region>, shift: int) {
    regions == [] ||
    (regions[0].newStart - regions[0].oldStart == shift
     && AlignedFrom(regions[1..], regions[0].newEnd - regions[0].oldEnd))
  }

  /** The region replaces its old lines by different ones. */
  predicate Changes(old_: seq<Line>, new_: seq<Line>, r: Region)
    requires RegionFits(r, 0, 0, |old_|, |new_|)
  {
    old_[r.oldStart..r.oldEnd] != new_[r.newStart..r.newEnd]
  }

  ghost predicate AllFit(regions: seq<Region>, oldLines: int, newLines: int) {
    forall i :: 0 <= i < |regions| ==> RegionFits(regions[i], 0, 0, oldLines, newLines)
  }

  ghost predicate AllChange(old_: seq<Line>, new_: seq<Line>, regions: seq<Region>)
    requires AllFit(regions, |old_|, |new_|)
  {
    forall i :: 0 <= i < |regions| ==> Changes(old_, new_, regions[i])
  }

  /** Every hunk changes something, every hunk stands where the earlier ones have moved it, and patching the
      old text gives the new text. */
  ghost predicate IsExactDiff(old_: seq<Line>, new_: seq<Line>, hunks: seq<Hunk>)
    requires Admissible(hunks, |old_|, |new_|)
  {
    RegionsFit(hunks, |old_|, |new_|);
    && AllChange(old_, new_, RegionsOf(hunks))
    && AlignedFrom(RegionsOf(hunks), 0)
    && Patch(old_, new_, RegionsOf(hunks), 0, 0) == new_
  }

  lemma {:induction false} RegionsFitFrom(hunks: seq<Hunk>, oldCursor: int, newCursor: int, oldLines: int,
                                          newLines: int)
    requires Admissible(hunks, oldLines, newLines)
    requires 0 <= oldCursor <= oldLines && 0 <= newCursor <= newLines
    requires hunks != [] ==> oldCursor <= RegionOf(hunks[0]).oldStart && newCursor <= RegionOf(hunks[0]).newStart
    ensures FitFrom(RegionsOf(hunks), oldCursor, newCursor, oldLines, newLines)
    decreases |hunks|
  {
    if hunks != [] {
      var h, rest := hunks[0], hunks[1..];
      var r := RegionOf(h);
      assert HunkIsBounded(h, oldLines, newLines);
      forall i, j | 0 <= i < j < |rest|
        ensures Before(rest[i], rest[j])
      {
        assert Before(hunks[i + 1], hunks[j + 1]);
      }
      if rest != [] {
        assert Before(hunks[0], hunks[1]) && rest[0] == hunks[1];
        assert HunkIsBounded(hunks[1], oldLines, newLines);
      }
      RegionsFitFrom(rest, r.oldEnd, r.newEnd, oldLines, newLines);
      assert RegionsOf(hunks)[1..] == RegionsOf(rest);
    }
  }

  lemma {:induction false} EachFits(regions: seq<Region>, oldCursor: int, newCursor: int, oldLines: int, newLines: int)
    requires FitFrom(regions, oldCursor, newCursor, oldLines, newLines)
    ensures 0 <= oldCursor <= oldLines && 0 <= newCursor <= newLines
    ensures AllFit(regions, oldLines, newLines)
    decreases |regions|
  {
    if regions != [] {
      EachFits(regions[1..], regions[0].oldEnd, regions[0].newEnd, oldLines, newLines);
    }
  }

  lemma RegionsFit(hunks: seq<Hunk>, oldLines: int, newLines: int)
    requires Admissible(hunks, oldLines, newLines) && oldLines >= 0 && newLines >= 0
    ensures FitFrom(RegionsOf(hunks), 0, 0, oldLines, newLines)
    ensures AllFit(RegionsOf(hunks), oldLines, newLines)
  {
    if hunks != [] {
      assert HunkIsBounded(hunks[0], oldLines, newLines);
    }
    RegionsFitFrom(hunks, 0, 0, oldLines, newLines);
    EachFits(RegionsOf(hunks), 0, 0, oldLines, newLines);
  }

  // ---- Slices in range ----

  lemma {:induction false} AgreeIsEqual(s: seq<Line>, a: nat, b: nat, t: seq<Line>, c: nat, d: nat)
    requires a <= b <= |s| && c <= d <= |t|
    ensures LinesAgree(s, a, b, t, c, d) <==> s[a..b] == t[c..d]
    decreases b - a
  {
    if b - a != d - c {
      assert |s[a..b]| != |t[c..d]|;
    } else if a < b {
      AgreeIsEqual(s, a + 1, b, t, c + 1, d);
      assert s[a..b] == [s[a]] + s[a + 1..b] && t[c..d] == [t[c]] + t[c + 1..d];
    }
  }

  lemma SlicesInRange(s: seq<Line>, lo: int, hi: int, t: seq<Line>, lo': int, hi': int)
    requires 0 <= lo <= hi <= |s| && 0 <= lo' <= hi' <= |t|
    ensures SameSlices(s, lo, hi, t, lo', hi') <==> s[lo..hi] == t[lo'..hi']
  {
    AgreeIsEqual(s, lo, hi, t, lo', hi');
  }

  /** Patched text and new text agree from the cursor on exactly when the gaps agree and the rests agree. */
  lemma PatchStep(gap: seq<Line>, tail: seq<Line>, new_: seq<Line>, cursor: int, start: int, end: int)
    requires 0 <= cursor <= start <= end <= |new_| && |gap| == start - cursor
    ensures gap + (new_[start..end] + tail) == new_[cursor..] <==> gap == new_[cursor..start] && tail == new_[end..]
  {
    var x, y := gap + (new_[start..end] + tail), new_[cursor..];
    assert y == new_[cursor..start] + (new_[start..end] + new_[end..]);
    if x == y {
      assert gap == x[..|gap|] && new_[cursor..start] == y[..|gap|];
      assert tail == x[end - cursor..] && new_[end..] == y[end - cursor..];
    }
  }

  /** What the first turn decides, in terms of alignment and patching. */
  lemma FirstRegion(old_: seq<Line>, new_: seq<Line>, regions: seq<Region>, oldCursor: int, newCursor: int)
    requires regions != [] && FitFrom(regions, oldCursor, newCursor, |old_|, |new_|)
    requires RegionFits(regions[0], 0, 0, |old_|, |new_|)
    ensures var r := regions[0];
      RegionDescribes(old_, new_, r, oldCursor, newCursor)
      && Patch(old_, new_, regions[1..], r.oldEnd, r.newEnd) == new_[r.newEnd..]
      <==> Changes(old_, new_, r)
           && r.newStart - r.oldStart == newCursor - oldCursor
           && Patch(old_, new_, regions, oldCursor, newCursor) == new_[newCursor..]
  {
    var r := regions[0];
    SlicesInRange(old_, oldCursor, r.oldStart, new_, newCursor, r.newStart);
    SlicesInRange(old_, r.oldStart, r.oldEnd, new_, r.newStart, r.newEnd);
    var gap := old_[oldCursor..r.oldStart];
    if r.newStart - r.oldStart == newCursor - oldCursor {
      PatchStep(gap, Patch(old_, new_, regions[1..], r.oldEnd, r.newEnd), new_, newCursor, r.newStart, r.newEnd);
    } else {
      assert |gap| != |new_[newCursor..r.newStart]|;
    }
  }

  lemma AllFromFirst(old_: seq<Line>, new_: seq<Line>, regions: seq<Region>)
    requires regions != [] && AllFit(regions, |old_|, |new_|)
    ensures AllFit(regions[1..], |old_|, |new_|)
    ensures AllChange(old_, new_, regions) <==> Changes(old_, new_, regions[0]) && AllChange(old_, new_, regions[1..])
  {
    assert regions == [regions[0]] + regions[1..];
    forall i | 0 <= i < |regions[1..]|
      ensures RegionFits(regions[1..][i], 0, 0, |old_|, |new_|)
    {
      assert regions[1..][i] == regions[i + 1];
    }
    if AllChange(old_, new_, regions) {
      forall i | 0 <= i < |regions[1..]|
        ensures Changes(old_, new_, regions[1..][i])
      {
        assert regions[1..][i] == regions[i + 1];
      }
    }
  }

  /** The cursor loop decides exactly the patch property, from any pair of cursors it can stand on. */
  lemma {:induction false} DescribesExactly(old_: seq<Line>, new_: seq<Line>, regions: seq<Region>, oldCursor: int,
                                            newCursor: int)
    requires FitFrom(regions, oldCursor, newCursor, |old_|, |new_|)
    requires AllFit(regions, |old_|, |new_|)
    ensures DescribesFrom(old_, new_, regions, oldCursor, newCursor) <==>
            && AllChange(old_, new_, regions)
            && AlignedFrom(regions, newCursor - oldCursor)
            && Patch(old_, new_, regions, oldCursor, newCursor) == new_[newCursor..]
    decreases |regions|
  {
    if regions == [] {
      SlicesInRange(old_, oldCursor, |old_|, new_, newCursor, |new_|);
      assert old_[oldCursor..] == old_[oldCursor..|old_|] && new_[newCursor..] == new_[newCursor..|new_|];
    } else {
      FirstRegion(old_, new_, regions, oldCursor, newCursor);
      AllFromFirst(old_, new_, regions);
      DescribesExactly(old_, new_, regions[1..], regions[0].oldEnd, regions[0].newEnd);
    }
  }

  /** On admissible hunks the check is true exactly for an exact diff. */
  lemma DescribesIsExact(old_: seq<Line>, new_: seq<Line>, hunks: seq<Hunk>)
    requires Admissible(hunks, |old_|, |new_|)
    ensures DescribesFrom(old_, new_, RegionsOf(hunks), 0, 0) <==> IsExactDiff(old_, new_, hunks)
  {
    RegionsFit(hunks, |old_|, |new_|);
    DescribesExactly(old_, new_, RegionsOf(hunks), 0, 0);
    assert new_[0..] == new_;
  }

  // ---- Consequences ----

  function Reverse(h: Hunk): Hunk {
    Hunk(h.newFirst, h.newCount, h.oldFirst, h.oldCount)
  }

  function ReverseAll(hunks: seq<Hunk>): (r: seq<Hunk>)
    ensures |r| == |hunks| && forall i :: 0 <= i < |hunks| ==> r[i] == Reverse(hunks[i])
  {
    seq(|hunks|, i requires 0 <= i < |hunks| => Reverse(hunks[i]))
  }

  function Mirror(regions: seq<Region>): (r: seq<Region>)
    ensures |r| == |regions|
    ensures forall i :: 0 <= i < |regions| ==>
              r[i] == Region(regions[i].newStart, regions[i].newEnd, regions[i].oldStart, regions[i].oldEnd)
  {
    seq(|regions|, i requires 0 <= i < |regions| =>
      Region(regions[i].newStart, regions[i].newEnd, regions[i].oldStart, regions[i].oldEnd))
  }

  lemma {:induction false} AgreeIsSymmetric(s: seq<Line>, a: nat, b: nat, t: seq<Line>, c: nat, d: nat)
    requires a <= b <= |s| && c <= d <= |t|
    ensures LinesAgree(s, a, b, t, c, d) == LinesAgree(t, c, d, s, a, b)
    decreases b - a
  {
    if a < b && b - a == d - c {
      AgreeIsSymmetric(s, a + 1, b, t, c + 1, d);
    }
  }

  lemma SameSlicesIsSymmetric(s: seq<Line>, lo: int, hi: int, t: seq<Line>, lo': int, hi': int)
    ensures SameSlices(s, lo, hi, t, lo', hi') == SameSlices(t, lo', hi', s, lo, hi)
  {
    var a, b, c, d := Clamp(lo, |s|), Clamp(hi, |s|), Clamp(lo', |t|), Clamp(hi', |t|);
    AgreeIsSymmetric(s, a, if a <= b then b else a, t, c, if c <= d then d else c);
  }

  lemma {:induction false} DescribesBothWays(old_: seq<Line>, new_: seq<Line>, regions: seq<Region>, oldCursor: int,
                                             newCursor: int)
    ensures DescribesFrom(new_, old_, Mirror(regions), newCursor, oldCursor) <==>
              DescribesFrom(old_, new_, regions, oldCursor, newCursor)
    decreases |regions|
  {
    if regions == [] {
      SameSlicesIsSymmetric(old_, oldCursor, |old_|, new_, newCursor, |new_|);
    } else {
      var r := regions[0];
      assert Mirror(regions)[1..] == Mirror(regions[1..]);
      SameSlicesIsSymmetric(old_, oldCursor, r.oldStart, new_, newCursor, r.newStart);
      SameSlicesIsSymmetric(old_, r.oldStart, r.oldEnd, new_, r.newStart, r.newEnd);
      DescribesBothWays(old_, new_, regions[1..], r.oldEnd, r.newEnd);
    }
  }

  lemma ReverseIsAdmissible(hunks: seq<Hunk>, oldLines: int, newLines: int)
    requires Admissible(hunks, oldLines, newLines)
    ensures Admissible(ReverseAll(hunks), newLines, oldLines)
  {
    forall i | 0 <= i < |hunks|
      ensures HunkIsBounded(ReverseAll(hunks)[i], newLines, oldLines)
    {
      assert HunkIsBounded(hunks[i], oldLines, newLines);
    }
    forall i, j | 0 <= i < j < |hunks|
      ensures Before(ReverseAll(hunks)[i], ReverseAll(hunks)[j])
    {
      assert Before(hunks[i], hunks[j]);
    }
  }

  function LineDifference(hunks: seq<Hunk>): int {
    if hunks == [] then 0 else hunks[0].newCount - hunks[0].oldCount + LineDifference(hunks[1..])
  }

  lemma {:induction false} PatchedLength(old_: seq<Line>, new_: seq<Line>, hunks: seq<Hunk>, oldCursor: int,
                                         newCursor: int)
    requires FitFrom(RegionsOf(hunks), oldCursor, newCursor, |old_|, |new_|)
    ensures |Patch(old_, new_, RegionsOf(hunks), oldCursor, newCursor)| == |old_| - oldCursor + LineDifference(hunks)
    decreases |hunks|
  {
    if hunks != [] {
      var r := RegionOf(hunks[0]);
      assert RegionsOf(hunks)[1..] == RegionsOf(hunks[1..]);
      PatchedLength(old_, new_, hunks[1..], r.oldEnd, r.newEnd);
    }
  }

  lemma ExactDiffLength(old_: seq<Line>, new_: seq<Line>, hunks: seq<Hunk>)
    requires Admissible(hunks, |old_|, |new_|) && IsExactDiff(old_, new_, hunks)
    ensures |new_| - |old_| == LineDifference(hunks)
  {
    RegionsFit(hunks, |old_|, |new_|);
    PatchedLength(old_, new_, hunks, 0, 0);
  }

  /** An exact diff read backwards is an exact diff of the new text to the old one, and the line counts of
      its hunks account for the difference in length. */
  lemma ExactDiffReverses(old_: seq<Line>, new_: seq<Line>, hunks: seq<Hunk>)
    requires Admissible(hunks, |old_|, |new_|) && IsExactDiff(old_, new_, hunks)
    ensures Admissible(ReverseAll(hunks), |new_|, |old_|) && IsExactDiff(new_, old_, ReverseAll(hunks))
    ensures |new_| - |old_| == LineDifference(hunks)
  {
    ExactDiffLength(old_, new_, hunks);
    DescribesIsExact(old_, new_, hunks);
    DescribesBothWays(old_, new_, RegionsOf(hunks), 0, 0);
    ReversedRegions(hunks);
    ReverseIsAdmissible(hunks, |old_|, |new_|);
    DescribesIsExact(new_, old_, ReverseAll(hunks));
  }

  lemma ReversedRegions(hunks: seq<Hunk>)
    ensures RegionsOf(ReverseAll(hunks)) == Mirror(RegionsOf(hunks))
  {
  }

  /** Alignment is needed: these hunks are admissible, change something, and patch the old text to the new
      one, yet the check rejects them because the hunk does not stand where the new line was inserted. */
  lemma PatchAloneIsNotEnough() returns (old_: seq<Line>, new_: seq<Line>, hunks: seq<Hunk>)
    ensures Admissible(hunks, |old_|, |new_|)
    ensures FitFrom(RegionsOf(hunks), 0, 0, |old_|, |new_|) && AllFit(RegionsOf(hunks), |old_|, |new_|)
    ensures AllChange(old_, new_, RegionsOf(hunks)) && Patch(old_, new_, RegionsOf(hunks), 0, 0) == new_
    ensures !DescribesFrom(old_, new_, RegionsOf(hunks), 0, 0)
  {
    old_, new_, hunks := ["a", "b"], ["a", "b", "b"], [Hunk(1, 0, 3, 1)];
    RegionsFit(hunks, 2, 3);
    assert RegionsOf(hunks)[1..] == [];
    assert old_[0..1] + (new_[2..3] + old_[1..]) == new_;
    assert !SameSlices(old_, 0, 1, new_, 0, 2);
  }
}
