/** The amphipod disk of 2024/day9/day9.py. The dense disk map alternates file
    sizes and free-space sizes; the Blocks object holds one cell per disk block
    (a file id, or FREE) and the [start, size] spans of the files and of the free
    space. */
module DiskFragmenter {
  import opened Wrappers

  /** Blocks.BLOCK_FREE */
  const FREE: int := -1

  /** A span of cells [start, start + size): the source's two-element lists. */
  datatype Span = Span(start: int, size: int)

  predicate InSpan(s: Span, q: int) {
    s.start <= q < s.start + s.size
  }

  predicate IsDiskMap(m: seq<int>) {
    forall k :: 0 <= k < |m| ==> 0 <= m[k]
  }

  function SumOf(m: seq<int>): int {
    if m == [] then 0 else SumOf(m[..|m| - 1]) + m[|m| - 1]
  }

  /** What entry k of the disk map writes: file id k/2 at even entries, FREE at odd
      ones. */
  function Tag(k: nat): int {
    if k % 2 == 0 then k / 2 else FREE
  }

  function Fill(v: int, n: nat): (s: seq<int>)
    ensures |s| == n && forall i :: 0 <= i < n ==> s[i] == v
  {
    seq(n, _ => v)
  }

  /** The cells parse_map lays out: every entry in turn, its size times its tag. */
  function Layout(m: seq<int>): seq<int>
    requires IsDiskMap(m)
  {
    if m == [] then [] else Layout(m[..|m| - 1]) + Fill(Tag(|m| - 1), m[|m| - 1])
  }

  /** The file spans parse_map records: one per even entry. */
  function FileSpans(m: seq<int>): seq<Span> {
    if m == [] then []
    else
      var p := m[..|m| - 1];
      FileSpans(p) + (if (|m| - 1) % 2 == 0 then [Span(SumOf(p), m[|m| - 1])] else [])
  }

  /** The free spans parse_map records: one per odd entry of positive size. */
  function FreeSpans(m: seq<int>): seq<Span> {
    if m == [] then []
    else
      var p := m[..|m| - 1];
      FreeSpans(p) + (if (|m| - 1) % 2 == 1 && m[|m| - 1] > 0 then [Span(SumOf(p), m[|m| - 1])] else [])
  }

  /** What one more entry of the disk map adds to the sums, the layout and the spans. */
  lemma MapStep(m: seq<int>, j: int)
    requires IsDiskMap(m) && 0 <= j < |m|
    ensures IsDiskMap(m[..j]) && IsDiskMap(m[..j + 1])
    ensures SumOf(m[..j + 1]) == SumOf(m[..j]) + m[j]
    ensures Layout(m[..j + 1]) == Layout(m[..j]) + Fill(Tag(j), m[j])
    ensures FileSpans(m[..j + 1]) ==
      FileSpans(m[..j]) + (if j % 2 == 0 then [Span(SumOf(m[..j]), m[j])] else [])
    ensures FreeSpans(m[..j + 1]) ==
      FreeSpans(m[..j]) + (if j % 2 == 1 && m[j] > 0 then [Span(SumOf(m[..j]), m[j])] else [])
  {
    assert m[..j + 1][..j] == m[..j];
  }

  /** Files 0..upto-1 lie inside the disk and every one of their cells holds the
      file's id. */
  ghost predicate FilesHold(b: seq<int>, files: seq<Span>, upto: int) {
    0 <= upto <= |files| &&
    forall j :: 0 <= j < upto ==>
      0 <= files[j].start && 0 <= files[j].size && files[j].start + files[j].size <= |b| &&
      forall q :: InSpan(files[j], q) ==> b[q] == j
  }

  /** Every free span starts inside or at the end of the disk, and one of positive
      size lies inside the disk and holds FREE cells. */
  ghost predicate FreesHold(b: seq<int>, frees: seq<Span>) {
    forall k :: 0 <= k < |frees| ==>
      0 <= frees[k].start &&
      (frees[k].size > 0 ==>
         frees[k].start + frees[k].size <= |b| &&
         forall q :: InSpan(frees[k], q) ==> b[q] == FREE)
  }

  predicate Apart(x: Span, y: Span) {
    x.size <= 0 || y.size <= 0 || x.start + x.size <= y.start || y.start + y.size <= x.start
  }

  /** No cell belongs to two free spans. */
  predicate FreesDisjoint(frees: seq<Span>) {
    forall k, l :: 0 <= k < l < |frees| ==> Apart(frees[k], frees[l])
  }

  lemma {:induction false} SumOfPrefix(m: seq<int>, j: int)
    requires IsDiskMap(m) && 0 <= j <= |m|
    ensures 0 <= SumOf(m[..j]) <= SumOf(m)
    decreases |m|
  {
    if j < |m| {
      var p := m[..|m| - 1];
      assert p[..j] == m[..j];
      SumOfPrefix(p, j);
    } else {
      assert m[..j] == m;
      if m != [] {
        SumOfPrefix(m[..|m| - 1], |m| - 1);
      }
    }
  }

  lemma {:induction false} LayoutLength(m: seq<int>)
    requires IsDiskMap(m)
    ensures |Layout(m)| == SumOf(m)
  {
    if m != [] {
      LayoutLength(m[..|m| - 1]);
    }
  }

  /** The layout of a disk map: every file cell holds its file's id, every free span
      is FREE, and the free spans do not overlap. */
  lemma {:induction false} LayoutHolds(m: seq<int>)
    requires IsDiskMap(m)
    ensures FilesHold(Layout(m), FileSpans(m), |FileSpans(m)|)
    ensures |FileSpans(m)| == (|m| + 1) / 2
    ensures FreesHold(Layout(m), FreeSpans(m)) && FreesDisjoint(FreeSpans(m))
    ensures forall k :: 0 <= k < |FreeSpans(m)| ==> FreeSpans(m)[k].size > 0
  {
    if m != [] {
      var p := m[..|m| - 1];
      var k := |m| - 1;
      LayoutHolds(p);
      LayoutLength(p);
      LayoutLength(m);
      var lp, lm := Layout(p), Layout(m);
      assert lm == lp + Fill(Tag(k), m[k]);
      var fp, fm := FileSpans(p), FileSpans(m);
      forall j | 0 <= j < |fm|
        ensures 0 <= fm[j].start && 0 <= fm[j].size && fm[j].start + fm[j].size <= |lm|
        ensures forall q :: InSpan(fm[j], q) ==> lm[q] == j
      {
        if j < |fp| {
          assert fm[j] == fp[j];
          forall q | InSpan(fm[j], q) ensures lm[q] == j {
            assert lm[q] == lp[q];
          }
        } else {
          assert fm[j] == Span(SumOf(p), m[k]) && j == k / 2;
        }
      }
      var gp, gm := FreeSpans(p), FreeSpans(m);
      forall i | 0 <= i < |gm|
        ensures 0 <= gm[i].start && gm[i].size > 0
        ensures gm[i].start + gm[i].size <= |lm|
        ensures forall q :: InSpan(gm[i], q) ==> lm[q] == FREE
      {
        if i < |gp| {
          assert gm[i] == gp[i];
          forall q | InSpan(gm[i], q) ensures lm[q] == FREE {
            assert lm[q] == lp[q];
          }
        }
      }
      forall i, l | 0 <= i < l < |gm| ensures Apart(gm[i], gm[l]) {
        if l >= |gp| {
          assert gm[i] == gp[i];
          assert gp[i].start + gp[i].size <= |lp|;
        } else {
          assert gm[i] == gp[i] && gm[l] == gp[l];
        }
      }
    }
  }

  /** The checksum of a disk: the sum of position times id over non-free cells. */
  function Checksum(b: seq<int>): int {
    if b == [] then 0
    else Checksum(b[..|b| - 1]) + (if b[|b| - 1] != FREE then (|b| - 1) * b[|b| - 1] else 0)
  }

  /** Free cells only after all file cells. */
  predicate Compact(b: seq<int>) {
    forall p, q :: 0 <= p < q < |b| && b[p] == FREE ==> b[q] == FREE
  }

  /** Two arrangements of the same cells either both have a free cell or neither. */
  lemma {:induction false} SameFreeness(a: seq<int>, b: seq<int>)
    requires multiset(a) == multiset(b)
    ensures FirstFree(a) == |a| <==> FirstFree(b) == |b|
  {
    assert FREE in a <==> FREE in multiset(a);
    assert FREE in b <==> FREE in multiset(b);
    assert FirstFree(a) < |a| ==> a[FirstFree(a)] == FREE;
    assert FirstFree(b) < |b| ==> b[FirstFree(b)] == FREE;
  }

  /** Python's default search position of find_first_free_block, as a spec: the
      first FREE cell of b, or |b| if there is none. */
  function FirstFree(b: seq<int>): (r: nat)
    ensures r <= |b| && (r < |b| ==> b[r] == FREE)
    ensures forall q :: 0 <= q < r ==> b[q] != FREE
  {
    if b == [] || b[0] == FREE then 0 else 1 + FirstFree(b[1..])
  }

  /** The loop invariant of compact_blocks: cells before `offset` hold files, cells
      after `i` are free, the cells are a rearrangement of the original ones, and
      nothing before the original first free cell has moved. */
  ghost predicate CompactInv(b: seq<int>, orig: seq<int>, offset: int, i: int) {
    0 <= offset <= i < |b| == |orig| &&
    (offset > 0 ==> b[offset] != FREE) &&
    (forall q :: 0 <= q < offset ==> b[q] != FREE) &&
    (forall q :: i < q < |b| ==> b[q] == FREE) &&
    multiset(b) == multiset(orig) &&
    forall q :: 0 <= q < FirstFree(orig) ==> b[q] == orig[q]
  }

  lemma {:induction false} CompactInvInit(b: seq<int>)
    requires |b| > 0
    ensures CompactInv(b, b, 0, |b| - 1)
  {
  }

  lemma {:induction false} CompactInvSkip(b: seq<int>, orig: seq<int>, offset: int, i: int)
    requires CompactInv(b, orig, offset, i) && i > 0 && b[i] == FREE
    ensures CompactInv(b, orig, offset, i - 1)
  {
  }

  lemma {:induction false} CompactInvMove(b: seq<int>, orig: seq<int>, offset: int, i: int, f: int)
    requires CompactInv(b, orig, offset, i) && b[i] != FREE
    requires offset <= f < i && b[f] == FREE
    requires forall q :: offset <= q < f ==> b[q] != FREE
    ensures CompactInv(b[f := b[i]][i := FREE], orig, f, i - 1)
  {
    var b' := b[f := b[i]][i := FREE];
    assert b' == b[f := b[i]][i := b[f]];
    // The free cell f cannot lie in the unchanged prefix, whose cells are all files.
    var cell, origCell := b[f], orig[f];
    assert f >= FirstFree(orig);
  }

  /** No free cell from offset on: the disk has no free cell at all, and the scan is
      at its first step. */
  lemma {:induction false} CompactInvNone(b: seq<int>, orig: seq<int>, offset: int, i: int)
    requires CompactInv(b, orig, offset, i) && i > 0 && b[i] != FREE
    requires forall q :: offset <= q < |b| ==> b[q] != FREE
    ensures i == |b| - 1 && |b| >= 2 && FirstFree(orig) == |orig|
  {
    assert b[|b| - 1] != FREE;
    assert FirstFree(b) == |b|;
    SameFreeness(b, orig);
  }

  /** The first free cell lies after i: everything up to i holds files. */
  lemma {:induction false} CompactInvStop(b: seq<int>, orig: seq<int>, offset: int, i: int, f: int)
    requires CompactInv(b, orig, offset, i) && b[i] != FREE
    requires offset <= f < |b| && i <= f && b[f] == FREE
    requires forall q :: offset <= q < f ==> b[q] != FREE
    ensures Compact(b) && FirstFree(orig) < |orig|
  {
    SameFreeness(b, orig);
  }

  lemma {:induction false} CompactInvEnd(b: seq<int>, orig: seq<int>, offset: int)
    requires CompactInv(b, orig, offset, 0)
    ensures Compact(b) && (|b| >= 2 ==> FirstFree(orig) < |orig|)
  {
    if |b| >= 2 {
      assert b[|b| - 1] == FREE;
      SameFreeness(b, orig);
    }
  }

  lemma {:induction false} CompactInvKeeps(b: seq<int>, orig: seq<int>, offset: int, i: int)
    requires CompactInv(b, orig, offset, i)
    ensures multiset(b) == multiset(orig)
    ensures forall q :: 0 <= q < FirstFree(orig) ==> b[q] == orig[q]
  {
  }

  /** find_first_free_block(offset) as a spec: the first FREE cell at or after
      offset, or |b| if there is none. */
  function FirstFreeFrom(b: seq<int>, offset: nat): (r: nat)
    ensures offset <= r <= |b| || (offset > |b| && r == |b|)
    ensures r < |b| ==> b[r] == FREE
    ensures forall q :: offset <= q < r ==> b[q] != FREE
    decreases |b| - offset
  {
    if offset >= |b| then |b|
    else if b[offset] == FREE then offset
    else FirstFreeFrom(b, offset + 1)
  }

  /** A cell that is free, with only file cells between offset and it, is the first
      free cell from offset on; no free cell from offset on means |b|. */
  lemma FirstFreeFromIs(b: seq<int>, offset: nat, f: int)
    requires offset <= f <= |b| && (f < |b| ==> b[f] == FREE)
    requires forall q :: offset <= q < f ==> b[q] != FREE
    ensures FirstFreeFrom(b, offset) == f
  {
  }

  /** The cells compact_blocks leaves, scanning down from cell i: a free cell is
      skipped, a file cell moves into the first free cell from `offset` on when that
      cell lies below i, and otherwise the scan stops. */
  function CompactFrom(b: seq<int>, offset: nat, i: nat): (r: seq<int>)
    requires i < |b|
    ensures |r| == |b|
    decreases i
  {
    if i == 0 then b
    else if b[i] == FREE then CompactFrom(b, offset, i - 1)
    else
      var f := FirstFreeFrom(b, offset);
      if f < i then CompactFrom(b[f := b[i]][i := FREE], f, i - 1) else b
  }

  /** The disk after compact_blocks. */
  function Compacted(b: seq<int>): (r: seq<int>)
    ensures |r| == |b|
  {
    if b == [] then b else CompactFrom(b, 0, |b| - 1)
  }

  /** Every cell is a file id or FREE. */
  predicate Cells(b: seq<int>) {
    forall q :: 0 <= q < |b| ==> b[q] >= FREE
  }

  /** What the scan from a state of the loop ends with: the same cells rearranged,
      the cells before the original first free cell untouched, and free cells only
      after the file cells unless the disk has no free cell. */
  lemma {:induction false} CompactFromMeaning(b: seq<int>, orig: seq<int>, offset: nat, i: nat)
    requires CompactInv(b, orig, offset, i)
    ensures var r := CompactFrom(b, offset, i);
      multiset(r) == multiset(orig) &&
      (forall q :: 0 <= q < FirstFree(orig) ==> r[q] == orig[q]) &&
      (Compact(r) || (|b| >= 2 && FirstFree(orig) == |orig|))
    decreases i
  {
    if i == 0 {
      CompactInvEnd(b, orig, offset);
    } else if b[i] == FREE {
      CompactInvSkip(b, orig, offset, i);
      CompactFromMeaning(b, orig, offset, i - 1);
    } else {
      var f := FirstFreeFrom(b, offset);
      if f < i {
        CompactInvMove(b, orig, offset, i, f);
        CompactFromMeaning(b[f := b[i]][i := FREE], orig, f, i - 1);
      } else if f < |b| {
        CompactInvStop(b, orig, offset, i, f);
      } else {
        CompactInvNone(b, orig, offset, i);
      }
    }
  }

  /** Every move of the scan takes a file cell down, so the checksum never rises. */
  lemma {:induction false} CompactFromChecksum(b: seq<int>, offset: nat, i: nat)
    requires i < |b| && Cells(b)
    ensures Checksum(CompactFrom(b, offset, i)) <= Checksum(b)
    decreases i
  {
    if i > 0 {
      var f := FirstFreeFrom(b, offset);
      if b[i] == FREE {
        CompactFromChecksum(b, offset, i - 1);
      } else if f < i {
        MoveDownLowers(b, f, i);
        CompactFromChecksum(b[f := b[i]][i := FREE], f, i - 1);
      }
    }
  }

  lemma MoveDownLowers(b: seq<int>, f: int, i: int)
    requires 0 <= f < i < |b| && b[f] == FREE && b[i] != FREE && Cells(b)
    ensures var b' := b[f := b[i]][i := FREE];
      Cells(b') && Checksum(b') <= Checksum(b)
  {
    ChecksumMoveDown(b, f, i);
    var d, v := i - f, b[i];
    assert d * v >= 0;
  }

  /** Compaction rearranges the cells, keeps the ones before the first free cell,
      leaves no file cell after a free one when the disk has a free cell, and never
      raises the checksum. */
  lemma CompactedMeaning(b: seq<int>)
    requires Cells(b)
    ensures var r := Compacted(b);
      multiset(r) == multiset(b) &&
      (forall q :: 0 <= q < FirstFree(b) ==> r[q] == b[q]) &&
      (FirstFree(b) < |b| || |b| < 2 ==> Compact(r)) &&
      Checksum(r) <= Checksum(b)
  {
    if b != [] {
      CompactInvInit(b);
      CompactFromMeaning(b, b, 0, |b| - 1);
      CompactFromChecksum(b, 0, |b| - 1);
    }
  }

  /** The last file cell goes into the first free cell, and the scan then stops:
      [0, ., 1, 2] becomes [0, 2, 1, .], not [0, 1, 2, .]. */
  lemma CompactedExample()
    ensures Compacted([0, FREE, 1, 2]) == [0, 2, 1, FREE]
  {
    var b := [0, FREE, 1, 2];
    assert FirstFreeFrom(b, 0) == 1;
    var b' := [0, 2, 1, FREE];
    assert b[1 := b[3]][3 := FREE] == b';
    assert FirstFreeFrom(b', 3) == 3;
    assert FirstFreeFrom(b', 2) == 3;
    assert FirstFreeFrom(b', 1) == 3;
  }

  function Term(i: int, v: int): int {
    if v != FREE then i * v else 0
  }

  lemma {:induction false} ChecksumUpdate(b: seq<int>, k: int, v: int)
    requires 0 <= k < |b|
    ensures Checksum(b[k := v]) == Checksum(b) - Term(k, b[k]) + Term(k, v)
  {
    var n := |b|;
    var b' := b[k := v];
    if k < n - 1 {
      assert b'[..n - 1] == b[..n - 1][k := v];
      ChecksumUpdate(b[..n - 1], k, v);
    } else {
      assert b'[..n - 1] == b[..n - 1];
    }
  }

  /** Moving a file cell from position i down into a free cell f lowers the checksum
      by (i - f) times the file id: compaction never increases it. */
  lemma {:induction false} ChecksumMoveDown(b: seq<int>, f: int, i: int)
    requires 0 <= f < i < |b| && b[f] == FREE && b[i] != FREE
    ensures Checksum(b[f := b[i]][i := FREE]) == Checksum(b) - (i - f) * b[i]
  {
    ChecksumUpdate(b, f, b[i]);
    ChecksumUpdate(b[f := b[i]], i, FREE);
    assert i * b[i] - f * b[i] == (i - f) * b[i];
  }

  /** The cells after moving the size cells at src down to dst and freeing the
      source cells (the copy loop of compact_blocks_without_frag). */
  function Moved(b: seq<int>, dst: int, src: int, size: int): (r: seq<int>)
    requires 0 <= dst && 0 <= size && dst + size <= src && src + size <= |b|
    ensures |r| == |b|
  {
    seq(|b|, q requires 0 <= q < |b| =>
      if dst <= q < dst + size then b[q - dst + src]
      else if src <= q < src + size then FREE
      else b[q])
  }

  /** The free spans after update_free_block_index(offset, occupied). */
  function Shifted(frees: seq<Span>, offset: int, occupied: int): (r: seq<Span>)
    ensures |r| == |frees|
  {
    seq(|frees|, k requires 0 <= k < |frees| =>
      if frees[k].start == offset then Span(frees[k].start + occupied, frees[k].size - occupied)
      else frees[k])
  }

  lemma {:induction false} ApartShifted(x: Span, y: Span, offset: int, occ: int)
    requires Apart(x, y) && occ >= 0
    ensures Apart(if x.start == offset then Span(x.start + occ, x.size - occ) else x,
                  if y.start == offset then Span(y.start + occ, y.size - occ) else y)
  {
  }

  /** One move of compact_blocks_without_frag keeps the spans describing the disk:
      the remaining files still hold their ids, the shifted free spans are still
      free and still disjoint. */
  lemma {:induction false} MoveKeepsSpans(b: seq<int>, files: seq<Span>, idx: int,
                                          frees: seq<Span>, k: int)
    requires 0 <= idx < |files| && FilesHold(b, files, idx + 1)
    requires FreesHold(b, frees) && FreesDisjoint(frees)
    requires 0 <= k < |frees| && frees[k].size >= files[idx].size
    requires frees[k].start < files[idx].start
    ensures frees[k].start + files[idx].size <= files[idx].start
    ensures FilesHold(Moved(b, frees[k].start, files[idx].start, files[idx].size), files, idx)
    ensures FreesHold(Moved(b, frees[k].start, files[idx].start, files[idx].size),
                      Shifted(frees, frees[k].start, files[idx].size))
    ensures FreesDisjoint(Shifted(frees, frees[k].start, files[idx].size))
  {
    var dst, src, size := frees[k].start, files[idx].start, files[idx].size;
    if size > 0 {
      assert b[src] == idx;
      assert !InSpan(frees[k], src);
    }
    var b' := Moved(b, dst, src, size);
    var g := Shifted(frees, dst, size);
    var target, file := frees[k], files[idx];
    forall j | 0 <= j < idx
      ensures forall q :: InSpan(files[j], q) ==> b'[q] == j
    {
      forall q | InSpan(files[j], q) ensures b'[q] == j {
        assert b[q] == j;
        assert dst <= q < dst + size ==> InSpan(target, q);
        assert src <= q < src + size ==> InSpan(file, q);
      }
    }
    forall c | 0 <= c < |g|
      ensures 0 <= g[c].start
      ensures g[c].size > 0 ==> g[c].start + g[c].size <= |b'|
      ensures g[c].size > 0 ==> forall q :: InSpan(g[c], q) ==> b'[q] == FREE
    {
      forall q | InSpan(g[c], q) ensures b'[q] == FREE {
        assert InSpan(frees[c], q);
        assert c < k ==> Apart(frees[c], frees[k]);
        assert k < c ==> Apart(frees[k], frees[c]);
      }
    }
    forall c, l | 0 <= c < l < |g| ensures Apart(g[c], g[l]) {
      ApartShifted(frees[c], frees[l], dst, size);
    }
  }

  /** The inner loop of parse_map (2024/day9/day9.py:55-61): the `size` cells from
      `base` on take the file id when the entry is a file and stay free otherwise. */
  method FillRun(b: array<int>, base: nat, size: nat, id: int, isFile: bool)
    requires base + size <= b.Length
    requires forall q :: base <= q < b.Length ==> b[q] == FREE
    modifies b
    ensures b[..base + size] == old(b[..base]) + Fill(if isFile then id else FREE, size)
    ensures forall q :: base + size <= q < b.Length ==> b[q] == FREE
  {
    var blockIndex := base;
    for i := 0 to size
      invariant blockIndex == base + i
      invariant b[..base] == old(b[..base])
      invariant forall q :: base <= q < base + i ==> b[q] == if isFile then id else FREE
      invariant forall q :: base + i <= q < b.Length ==> b[q] == FREE
    {
      if isFile {
        b[blockIndex] := id;
      }
      blockIndex := blockIndex + 1;
    }
    assert b[..base + size] == old(b[..base]) + Fill(if isFile then id else FREE, size);
  }

  class Blocks {
    var blocks: array<int>
    var freeIndex: seq<Span>
    var nonfreeIndex: seq<Span>

    /** The spans the object records describe its cells (true after parse_map). */
    ghost predicate Valid()
      reads this, blocks
    {
      FilesHold(blocks[..], nonfreeIndex, |nonfreeIndex|) &&
      FreesHold(blocks[..], freeIndex) && FreesDisjoint(freeIndex)
    }

    /** parse_map (2024/day9/day9.py:25-68) on the digits of the map line. */
    constructor (mapLine: seq<int>)
      requires IsDiskMap(mapLine)
      ensures blocks[..] == Layout(mapLine)
      ensures nonfreeIndex == FileSpans(mapLine) && freeIndex == FreeSpans(mapLine)
      ensures Valid() && fresh(blocks)
    {
      SumOfPrefix(mapLine, 0);
      var b := new int[SumOf(mapLine)](_ => FREE);
      var frees: seq<Span> := [];
      var files: seq<Span> := [];
      var mapIndex := 0;
      var blockIndex := 0;
      var blockId := 0;
      while mapIndex < |mapLine|
        invariant 0 <= mapIndex <= |mapLine|
        invariant 0 <= blockIndex == SumOf(mapLine[..mapIndex]) <= b.Length
        invariant b[..blockIndex] == Layout(mapLine[..mapIndex])
        invariant forall q :: blockIndex <= q < b.Length ==> b[q] == FREE
        invariant files == FileSpans(mapLine[..mapIndex]) && frees == FreeSpans(mapLine[..mapIndex])
        invariant blockId == (mapIndex + 1) / 2
      {
        var blockSize := mapLine[mapIndex];
        MapStep(mapLine, mapIndex);
        SumOfPrefix(mapLine, mapIndex + 1);
        if mapIndex % 2 == 0 {
          files := files + [Span(blockIndex, blockSize)];
        } else if blockSize > 0 {
          frees := frees + [Span(blockIndex, blockSize)];
        }
        FillRun(b, blockIndex, blockSize, blockId, mapIndex % 2 == 0);
        assert Tag(mapIndex) == if mapIndex % 2 == 0 then blockId else FREE;
        blockIndex := blockIndex + blockSize;
        mapIndex := mapIndex + 1;
        if mapIndex % 2 == 1 {
          blockId := blockId + 1;
        }
      }
      assert mapLine[..mapIndex] == mapLine;
      blocks := b;
      freeIndex := frees;
      nonfreeIndex := files;
      LayoutHolds(mapLine);
      LayoutLength(mapLine);
      assert b[..] == b[..blockIndex];
    }

    /** find_first_free_block (2024/day9/day9.py:70-75). */
    method FindFirstFreeBlock(offset: nat) returns (r: Option<int>)
      ensures r.Some? ==> offset <= r.value < blocks.Length && blocks[r.value] == FREE
      ensures r.Some? ==> forall q :: offset <= q < r.value ==> blocks[q] != FREE
      ensures r.None? <==> forall q :: offset <= q < blocks.Length ==> blocks[q] != FREE
    {
      var i := offset;
      while i < blocks.Length
        invariant offset <= i
        invariant forall q :: offset <= q < i && q < blocks.Length ==> blocks[q] != FREE
      {
        if blocks[i] == FREE {
          return Some(i);
        }
        i := i + 1;
      }
      return None;
    }

    /** One cell moves into a free cell and leaves a free cell behind: the pair of
        assignments in compact_blocks and compact_blocks_without_frag. */
    method MoveBlock(dst: int, src: int)
      requires 0 <= dst < blocks.Length && 0 <= src < blocks.Length && dst != src
      requires blocks[dst] == FREE
      modifies blocks
      ensures blocks[..] == old(blocks[..])[dst := old(blocks[src])][src := FREE]
      ensures multiset(blocks[..]) == multiset(old(blocks[..]))
    {
      ghost var before := blocks[..];
      blocks[dst] := blocks[src];
      blocks[src] := FREE;
      assert blocks[..] == before[dst := before[src]][src := before[dst]];
    }

    /** compact_blocks (2024/day9/day9.py:93-116): from the end, move each file cell
        into the first free cell before it. When the disk has no free cell at all the
        source compares None with an int and raises; `failed` reports that case. */
    method CompactBlocks() returns (failed: bool)
      modifies blocks
      ensures multiset(blocks[..]) == multiset(old(blocks[..]))
      ensures failed <==> blocks.Length >= 2 && FirstFree(old(blocks[..])) == blocks.Length
      ensures !failed ==> Compact(blocks[..])
      ensures forall q :: 0 <= q < FirstFree(old(blocks[..])) ==> blocks[q] == old(blocks[q])
      ensures blocks[..] == Compacted(old(blocks[..]))
    {
      var n := blocks.Length;
      failed := false;
      if n == 0 {
        return;
      }
      ghost var orig := blocks[..];
      var offset := 0;
      var i := n - 1;
      var stop := false;
      CompactInvInit(orig);
      while i > 0 && !stop
        invariant CompactInv(blocks[..], orig, offset, i)
        invariant failed ==> stop && n >= 2 && FirstFree(orig) == n
        invariant stop && !failed ==> Compact(blocks[..]) && FirstFree(orig) < n
        invariant CompactFrom(blocks[..], offset, i) == Compacted(orig)
        invariant stop ==> CompactFrom(blocks[..], offset, i) == blocks[..]
        decreases i, if stop then 0 else 1
      {
        offset, i, failed, stop := CompactTurn(orig, offset, i);
      }
      if !stop {
        CompactInvEnd(blocks[..], orig, offset);
      }
      CompactInvKeeps(blocks[..], orig, offset, i);
    }

    /** One turn of the compact_blocks loop (2024/day9/day9.py:100-116) at cell i:
        skip a free cell, move a file cell down into the first free cell, or stop. */
    method CompactTurn(ghost orig: seq<int>, offset: int, i: int)
      returns (offset': int, i': int, failed: bool, stop: bool)
      requires CompactInv(blocks[..], orig, offset, i) && i > 0
      modifies blocks
      ensures CompactInv(blocks[..], orig, offset', i')
      ensures CompactFrom(blocks[..], offset', i') == CompactFrom(old(blocks[..]), offset, i)
      ensures stop ==> CompactFrom(blocks[..], offset', i') == blocks[..]
      ensures if stop then i' == i else i' == i - 1
      ensures failed ==> stop && blocks.Length >= 2 && FirstFree(orig) == blocks.Length
      ensures stop && !failed ==> Compact(blocks[..]) && FirstFree(orig) < blocks.Length
    {
      offset', i', failed, stop := offset, i, false, false;
      if blocks[i] != FREE {
        var f := FindFirstFreeBlock(offset);
        if f.None? {
          FirstFreeFromIs(blocks[..], offset, blocks.Length);
          CompactInvNone(blocks[..], orig, offset, i);
          failed, stop := true, true;
        } else if f.value < i {
          FirstFreeFromIs(blocks[..], offset, f.value);
          CompactInvMove(blocks[..], orig, offset, i, f.value);
          MoveBlock(f.value, i);
          offset' := f.value;
          i' := i - 1;
        } else {
          FirstFreeFromIs(blocks[..], offset, f.value);
          CompactInvStop(blocks[..], orig, offset, i, f.value);
          stop := true;
        }
      } else {
        CompactInvSkip(blocks[..], orig, offset, i);
        i' := i - 1;
      }
    }

    /** checksum_blocks (2024/day9/day9.py:136-142). */
    method ChecksumBlocks() returns (checksum: int)
      ensures checksum == Checksum(blocks[..])
    {
      checksum := 0;
      for i := 0 to blocks.Length
        invariant checksum == Checksum(blocks[..i])
      {
        assert blocks[..i + 1][..i] == blocks[..i];
        if blocks[i] != FREE {
          checksum := checksum + i * blocks[i];
        }
      }
      assert blocks[..blocks.Length] == blocks[..];
    }

    /** find_first_free_block_with_size (2024/day9/day9.py:77-82): the start of the
        first free span of at least `size` cells; `k` is that span's position. */
    method FindFirstFreeBlockWithSize(size: int) returns (r: Option<int>, ghost k: int)
      ensures r.None? <==> forall j :: 0 <= j < |freeIndex| ==> freeIndex[j].size < size
      ensures r.Some? ==> 0 <= k < |freeIndex| && freeIndex[k].size >= size && r.value == freeIndex[k].start
      ensures r.Some? ==> forall j :: 0 <= j < k ==> freeIndex[j].size < size
    {
      var i := 0;
      while i < |freeIndex|
        invariant 0 <= i <= |freeIndex|
        invariant forall j :: 0 <= j < i ==> freeIndex[j].size < size
      {
        if freeIndex[i].size >= size {
          k := i;
          return Some(freeIndex[i].start), k;
        }
        i := i + 1;
      }
      k := i;
      return None, k;
    }

    /** update_free_block_index (2024/day9/day9.py:84-91): every free span starting
        at offset gives up its first `occupied` cells. */
    method UpdateFreeBlockIndex(offset: int, occupied: int)
      modifies this
      ensures freeIndex == Shifted(old(freeIndex), offset, occupied)
      ensures blocks == old(blocks) && nonfreeIndex == old(nonfreeIndex)
    {
      var k := 0;
      while k < |freeIndex|
        invariant 0 <= k <= |freeIndex| == |old(freeIndex)|
        invariant blocks == old(blocks) && nonfreeIndex == old(nonfreeIndex)
        invariant forall j :: 0 <= j < |freeIndex| ==>
          freeIndex[j] == (if j < k then Shifted(old(freeIndex), offset, occupied)[j] else old(freeIndex)[j])
      {
        if freeIndex[k].start == offset {
          freeIndex := freeIndex[k := Span(freeIndex[k].start + occupied, freeIndex[k].size - occupied)];
        }
        k := k + 1;
      }
    }

    /** The copy loop of compact_blocks_without_frag (2024/day9/day9.py:127-131): a
        whole file moves down into free cells, and its old cells become free. */
    method MoveFile(dst: int, src: int, size: int)
      requires 0 <= dst && 0 <= size && dst + size <= src && src + size <= blocks.Length
      requires forall q :: dst <= q < dst + size ==> blocks[q] == FREE
      modifies blocks
      ensures blocks[..] == Moved(old(blocks[..]), dst, src, size)
      ensures multiset(blocks[..]) == multiset(old(blocks[..]))
    {
      for i := 0 to size
        invariant blocks[..] == Moved(old(blocks[..]), dst, src, i)
        invariant multiset(blocks[..]) == multiset(old(blocks[..]))
      {
        MoveBlock(dst + i, src + i);
        assert blocks[..] == Moved(old(blocks[..]), dst, src, i + 1);
      }
    }

    /** compact_blocks_without_frag (2024/day9/day9.py:118-134): files in decreasing id
        order move whole into the first free span large enough, if it lies before
        them. The source's `if free_block_offset` also skips a span starting at 0. */
    method CompactBlocksWithoutFrag()
      requires Valid()
      modifies this, blocks
      ensures blocks == old(blocks) && nonfreeIndex == old(nonfreeIndex)
      ensures multiset(blocks[..]) == multiset(old(blocks[..]))
      ensures FreesHold(blocks[..], freeIndex) && FreesDisjoint(freeIndex)
    {
      var idx := |nonfreeIndex|;
      while idx > 0
        invariant 0 <= idx <= |nonfreeIndex|
        invariant blocks == old(blocks) && nonfreeIndex == old(nonfreeIndex)
        invariant FilesHold(blocks[..], nonfreeIndex, idx)
        invariant FreesHold(blocks[..], freeIndex) && FreesDisjoint(freeIndex)
        invariant multiset(blocks[..]) == multiset(old(blocks[..]))
      {
        idx := idx - 1;
        var file := nonfreeIndex[idx];
        var f, k := FindFirstFreeBlockWithSize(file.size);
        if f.Some? && f.value != 0 && f.value < file.start {
          MoveKeepsSpans(blocks[..], nonfreeIndex, idx, freeIndex, k);
          MoveFile(f.value, file.start, file.size);
          UpdateFreeBlockIndex(f.value, file.size);
        } else {
          assert FilesHold(blocks[..], nonfreeIndex, idx);
        }
      }
    }
  }
}
