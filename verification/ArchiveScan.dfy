/** Reading archive members in blocks: the windowed scan for forbidden text and the bounded metadata read. */
module ArchiveScan {
  newtype byte = x: int | 0 <= x < 256
  type Bytes = seq<byte>

  const SCAN_CHUNK_SIZE: nat := 64 * 1024
  const PACKAGE_MANAGER_COMMAND_GAP: nat := 4096
  const SCAN_OVERLAP: nat := PACKAGE_MANAGER_COMMAND_GAP * 2 + 256
  const MAX_METADATA_BYTES: nat := 1024 * 1024

  /** An open archive member.  A read returns at least one byte until the end, and as few as it likes. */
  class Handle {
    const content: Bytes
    const grants: nat -> nat
    var position: nat

    constructor (content: Bytes, grants: nat -> nat)
      ensures this.content == content && this.grants == grants && position == 0
    {
      this.content, this.grants, position := content, grants, 0;
    }

    method Read(limit: nat) returns (block: Bytes)
      requires limit > 0 && position <= |content|
      modifies this
      ensures old(position) <= position <= |content| && block == content[old(position)..position]
      ensures |block| <= limit
      ensures block == [] <==> old(position) == |content|
    {
      var granted := if 0 < grants(position) <= limit then grants(position) else limit;
      var end := if position + granted <= |content| then position + granted else |content|;
      block, position := content[position..end], end;
    }
  }

  // ---- Windows ----

  /** The positions between the blocks of a stream that has been read to a length. */
  ghost predicate AreCuts(cuts: seq<nat>, length: nat) {
    && cuts != [] && cuts[0] == 0 && cuts[|cuts| - 1] == length
    && (forall k :: 0 <= k < |cuts| - 1 ==> cuts[k] < cuts[k + 1])
    && (forall k :: 0 <= k < |cuts| ==> cuts[k] <= length)
  }

  /** Where the tail that is kept at a position begins. */
  function TailStart(overlap: nat, position: nat): (r: nat)
    ensures r <= position
  {
    if position <= overlap then 0 else position - overlap
  }

  /** The `size` bytes from a position on lie inside the window of some block. */
  ghost predicate Covered(overlap: nat, cuts: seq<nat>, from: nat, size: nat) {
    exists k :: InWindow(overlap, cuts, k, from, size)
  }

  predicate InWindow(overlap: nat, cuts: seq<nat>, k: int, from: nat, size: nat) {
    0 <= k < |cuts| - 1 && TailStart(overlap, cuts[k]) <= from && from + size <= cuts[k + 1]
  }

  lemma CutBefore(cuts: seq<nat>, length: nat, to: nat) returns (k: nat)
    requires AreCuts(cuts, length) && 0 < to <= length
    ensures k < |cuts| - 1 && cuts[k] < to <= cuts[k + 1]
  {
    k := 0;
    while cuts[k + 1] < to
      invariant k < |cuts| - 1 && cuts[k] < to
      decreases |cuts| - k
    {
      k := k + 1;
    }
  }

  /** Whatever the blocks are, no stretch of at most `overlap + 1` bytes falls between two windows. */
  lemma ShortStretchesAreCovered(overlap: nat, cuts: seq<nat>, length: nat, from: nat, size: nat)
    requires AreCuts(cuts, length) && 0 < size <= overlap + 1 && from + size <= length
    ensures Covered(overlap, cuts, from, size)
  {
    var k := CutBefore(cuts, length, from + size);
    assert InWindow(overlap, cuts, k, from, size);
  }

  ghost predicate AlwaysCovered(overlap: nat, size: nat) {
    forall cuts, length: nat :: AreCuts(cuts, length) ==> AllCovered(overlap, cuts, length, size)
  }

  ghost predicate AllCovered(overlap: nat, cuts: seq<nat>, length: nat, size: nat) {
    forall from: nat :: Inside(from, size, length) ==> Covered(overlap, cuts, from, size)
  }

  predicate Inside(from: nat, size: nat, length: nat) {
    from + size <= length
  }

  function OneByOne(n: nat): (cuts: seq<nat>)
    ensures |cuts| == n + 1 && forall k :: 0 <= k <= n ==> cuts[k] == k
  {
    seq(n + 1, k => k)
  }

  /** That bound is exact: one more byte can be missed, when every read returns a single byte. */
  lemma CoveredExactly(overlap: nat, size: nat)
    requires size > 0
    ensures AlwaysCovered(overlap, size) <==> size <= overlap + 1
  {
    if size <= overlap + 1 {
      forall cuts, length: nat | AreCuts(cuts, length)
        ensures AllCovered(overlap, cuts, length, size)
      {
        forall from: nat | Inside(from, size, length)
          ensures Covered(overlap, cuts, from, size)
        {
          ShortStretchesAreCovered(overlap, cuts, length, from, size);
        }
      }
    } else {
      var cuts := OneByOne(size);
      assert AreCuts(cuts, size) && Inside(0, size, size);
      forall k
        ensures !InWindow(overlap, cuts, k, 0, size)
      {
      }
      assert !Covered(overlap, cuts, 0, size);
    }
  }

  // ---- The scan ----

  /** A forbidden text occurs in the bytes. */
  ghost predicate Occurs(bad: Bytes -> bool, s: Bytes) {
    exists from, to :: 0 <= from <= to <= |s| && bad(s[from..to])
  }

  /** The forbidden texts are not empty and at most 2 * 4096 + 257 bytes long, which the windows allow. */
  ghost predicate Bounded(bad: Bytes -> bool) {
    forall s :: bad(s) ==> 0 < |s| <= 8449
  }

  /** The search flags every window with a forbidden text, and perhaps more at a window's edges. */
  ghost predicate Finds(flags: Bytes -> bool, bad: Bytes -> bool) {
    forall s :: Occurs(bad, s) ==> flags(s)
  }

  function LastBytes(s: Bytes, n: nat): Bytes {
    if |s| <= n then s else s[|s| - n..]
  }

  function Window(content: Bytes, from: nat, to: nat): Bytes
    requires from <= to <= |content|
  {
    content[TailStart(SCAN_OVERLAP, from)..to]
  }

  /** None of the windows between the cuts is flagged. */
  ghost predicate NoneFlagged(content: Bytes, cuts: seq<nat>, length: nat, flags: Bytes -> bool)
    requires AreCuts(cuts, length) && length <= |content|
  {
    forall k :: 0 <= k < |cuts| - 1 ==> !flags(Window(content, cuts[k], cuts[k + 1]))
  }

  /** The next tail is the last `SCAN_OVERLAP` bytes read so far. */
  lemma TailOfWindow(content: Bytes, from: nat, to: nat)
    requires from <= to <= |content|
    ensures LastBytes(Window(content, from, to), SCAN_OVERLAP) == content[TailStart(SCAN_OVERLAP, to)..to]
  {
  }

  /** `_scan_archive_member`, for a search `flags` that is made on each window: a member passes only if no
      forbidden text occurs in it, and a rejection points at bytes of the member. */
  method ScanMember(handle: Handle, flags: Bytes -> bool, ghost bad: Bytes -> bool) returns (rejected: bool)
    requires handle.position == 0 && Bounded(bad) && Finds(flags, bad)
    modifies handle
    ensures Occurs(bad, handle.content) ==> rejected
    ensures rejected ==> exists from, to :: 0 <= from <= to <= |handle.content| && flags(handle.content[from..to])
  {
    var tail: Bytes := [];
    ghost var cuts: seq<nat> := [0];
    while true
      invariant handle.position <= |handle.content| && AreCuts(cuts, handle.position)
      invariant tail == handle.content[TailStart(SCAN_OVERLAP, handle.position)..handle.position]
      invariant NoneFlagged(handle.content, cuts, handle.position, flags)
      decreases |handle.content| - handle.position
    {
      ghost var before := handle.position;
      var block := handle.Read(SCAN_CHUNK_SIZE);
      if block == [] {
        NothingMissed(handle.content, cuts, flags, bad);
        return false;
      }
      var candidate := tail + block;
      assert candidate == Window(handle.content, before, handle.position);
      if flags(candidate) {
        return true;
      }
      MoreCuts(handle.content, cuts, before, handle.position, flags);
      cuts := cuts + [handle.position];
      TailOfWindow(handle.content, before, handle.position);
      tail := LastBytes(candidate, SCAN_OVERLAP);
    }
  }

  lemma MoreCuts(content: Bytes, cuts: seq<nat>, before: nat, after: nat, flags: Bytes -> bool)
    requires AreCuts(cuts, before) && before < after <= |content|
    requires NoneFlagged(content, cuts, before, flags) && !flags(Window(content, before, after))
    ensures AreCuts(cuts + [after], after) && NoneFlagged(content, cuts + [after], after, flags)
  {
  }

  lemma NothingMissed(content: Bytes, cuts: seq<nat>, flags: Bytes -> bool, bad: Bytes -> bool)
    requires AreCuts(cuts, |content|) && Bounded(bad) && Finds(flags, bad)
             && NoneFlagged(content, cuts, |content|, flags)
    ensures !Occurs(bad, content)
  {
    if Occurs(bad, content) {
      var from, to :| 0 <= from <= to <= |content| && bad(content[from..to]);
      ShortStretchesAreCovered(SCAN_OVERLAP, cuts, |content|, from, to - from);
      var k :| InWindow(SCAN_OVERLAP, cuts, k, from, to - from);
      OccursInWindow(content, cuts[k], cuts[k + 1], from, to, bad);
    }
  }

  lemma SliceOfSlice(s: Bytes, from: nat, to: nat, a: nat, b: nat)
    requires from <= to <= |s| && a <= b <= to - from
    ensures s[from..to][a..b] == s[from + a..from + b]
  {
    var part := s[from..to];
    var x, y := part[a..b], s[from + a..from + b];
    assert forall i :: 0 <= i < b - a ==> x[i] == part[a + i] == s[from + (a + i)] && y[i] == s[from + a + i];
    assert x == y;
  }

  lemma OccursInWindow(content: Bytes, start: nat, end: nat, from: nat, to: nat, bad: Bytes -> bool)
    requires start <= end <= |content| && TailStart(SCAN_OVERLAP, start) <= from <= to <= end && bad(content[from..to])
    ensures Occurs(bad, Window(content, start, end))
  {
    var shift := TailStart(SCAN_OVERLAP, start);
    var window := Window(content, start, end);
    SliceOfSlice(content, shift, end, from - shift, to - shift);
    assert bad(window[from - shift..to - shift]);
  }

  // ---- The bounded read ----

  datatype Metadata = Complete(content: Bytes) | TooLong

  function Smaller(a: nat, b: nat): nat {
    if a < b then a else b
  }

  function Joined(blocks: seq<Bytes>): Bytes {
    if blocks == [] then [] else Joined(blocks[..|blocks| - 1]) + blocks[|blocks| - 1]
  }

  /** `_read_bounded_archive_metadata`: the whole member if it fits the limit, and otherwise an error. */
  method ReadBounded(handle: Handle) returns (metadata: Metadata)
    requires handle.position == 0
    modifies handle
    ensures metadata == if |handle.content| <= 1048576 then Complete(handle.content) else TooLong
  {
    var chunks: seq<Bytes> := [];
    var total := 0;
    while total <= MAX_METADATA_BYTES
      invariant total == handle.position <= |handle.content| && total <= MAX_METADATA_BYTES + 1
      invariant Joined(chunks) == handle.content[..total]
      decreases |handle.content| - total
    {
      var block := handle.Read(Smaller(SCAN_CHUNK_SIZE, MAX_METADATA_BYTES + 1 - total));
      if block == [] {
        assert handle.content[..total] == handle.content;
        return Complete(Joined(chunks));
      }
      ghost var before := chunks;
      chunks := chunks + [block];
      assert chunks[..|chunks| - 1] == before;
      assert handle.content[..total] + block == handle.content[..handle.position];
      total := total + |block|;
    }
    return TooLong;
  }
}
