/** Finding a run of free blocks and moving a file's blocks there. */
module Allocator {
  import opened Bitmap

  /** How many bytes a run of blocks takes in the map. */
  function Bytes8(blockcount: nat): nat { (blockcount + 7) / 8 }

  /** Bytes k to k + n - 1 of the map lie inside it and are all free. */
  ghost predicate FreeBytes(bits: seq<bv8>, k: nat, n: nat) {
    k + n <= |bits| && forall i :: k <= i < k + n ==> bits[i] == 0
  }

  /** Where a run of n free bytes fits first, from byte k on; the length of the map when
      it fits nowhere. */
  ghost function FitFrom(bits: seq<bv8>, n: nat, k: nat): (f: nat)
    ensures f <= |bits|
    decreases |bits| - k
  {
    if k >= |bits| then |bits| else if FreeBytes(bits, k, n) then k else FitFrom(bits, n, k + 1)
  }

  lemma {:induction false} FitFromIsFirst(bits: seq<bv8>, n: nat, k: nat)
    requires n > 0
    ensures var f := FitFrom(bits, n, k);
            && (f < |bits| ==> k <= f && FreeBytes(bits, f, n))
            && forall m :: k <= m < f ==> !FreeBytes(bits, m, n)
    decreases |bits| - k
  {
    if k < |bits| && !FreeBytes(bits, k, n) {
      FitFromIsFirst(bits, n, k + 1);
    }
  }

  /** Free blocks at the end of a byte that has some block in use. */
  function Trailing(b: bv8): (n: nat)
    ensures n < 8
  {
    if BitSet(b, 7) then 0 else if BitSet(b, 6) then 1 else if BitSet(b, 5) then 2
    else if BitSet(b, 4) then 3 else if BitSet(b, 3) then 4 else if BitSet(b, 2) then 5
    else if BitSet(b, 1) then 6 else 7
  }

  lemma TrailingBits(b: bv8)
    requires b != 0
    ensures BitSet(b, 7 - Trailing(b))
    ensures forall j :: 7 - Trailing(b) < j < 8 ==> !BitSet(b, j)
  {
    ZeroHasNoBit(b);
  }

  lemma TrailingHalf(b: bv8)
    requires b != 0 && b & 1 == 0
    ensures b >> 1 != 0 && Trailing(b) == Trailing(b >> 1) + 1
  {
  }

  lemma TrailingOdd(b: bv8)
    ensures Trailing(b) == 0 <==> b & 1 == 1
  {
  }

  /** How far a run goes back into the byte before its first free byte. */
  function Back(b: bv8): nat { if b == 0 then 0 else Trailing(b) }

  /** Where a run of n blocks is put: at the first fit, moved back over the free blocks
      that end the byte before; 0 when it fits nowhere. `guard` is the byte before the
      map. */
  ghost function Target(bits: seq<bv8>, guard: bv8, minvld: nat, n: nat): int {
    var f := FitFrom(bits, Bytes8(n), 0);
    if f < |bits| then minvld + 8 * f - Back(if f == 0 then guard else bits[f - 1]) else 0
  }

  /** The run does not reach back into the guard byte. */
  ghost predicate StartsInside(bits: seq<bv8>, guard: bv8, n: nat) {
    FitFrom(bits, Bytes8(n), 0) > 0 || guard == 0 || guard & 1 == 1
  }

  /** The bytes the search looks at: a byte before the map, the map, a guard byte, and
      then whatever follows in memory. */
  ghost predicate Guarded(m: BlockMap, blockcount: nat)
    reads m.mem
  {
    && m.Valid() && m.base + m.mapsize + Bytes8(blockcount) <= m.mem.Length
    && m.base + m.mapsize < m.mem.Length
    && m.mem[m.base + m.mapsize] != 0
  }

  /** Searches for the first run of free bytes that holds the blocks, then moves the
      start back over the free blocks at the end of the byte before. Gives 0 when
      there is no such run. */
  method FindContiguous(m: BlockMap, blockcount: nat) returns (newaddr: int)
    requires Guarded(m, blockcount) && blockcount > 0
    ensures newaddr == Target(m.Map(), m.mem[m.base - 1], m.minvld, blockcount)
  {
    FitFromIsFirst(m.Map(), Bytes8(blockcount), 0);
    var numblock8 := Bytes8(blockcount);
    var bytptr, bytend := m.base, m.base + m.mapsize;
    newaddr := 0;
    while bytptr < bytend
      invariant m.base <= bytptr && (m.base < bytptr <= bytend ==> m.mem[bytptr - 1] != 0)
      invariant forall k: nat :: m.base + k < bytptr ==> !FreeBytes(m.Map(), k, numblock8)
      decreases bytend - bytptr
    {
      var j: int := numblock8 - 1;
      while j >= 0 && m.mem[bytptr + j] == 0
        invariant -1 <= j < numblock8
        invariant forall i :: bytptr + j < i < bytptr + numblock8 ==> m.mem[i] == 0
      {
        j := j - 1;
      }
      ghost var start := bytptr - m.base;
      if j >= 0 {
        forall k: nat | k <= start + j ensures !FreeBytes(m.Map(), k, numblock8) {
          SkippedTooFar(m, k, numblock8, start, j);
        }
        bytptr := bytptr + j + 1;
      } else {
        assert bytptr + numblock8 <= bytend;
        assert FreeBytes(m.Map(), start, numblock8);
        newaddr := m.minvld + (bytptr - m.base) * 8;
        var back := CountBack(m.mem[bytptr - 1]);
        newaddr := newaddr - back;
        return;
      }
    }
  }

  /** Shifts free bits out of a byte and counts them. */
  method CountBack(b: bv8) returns (back: nat)
    ensures back == Back(b)
  {
    back := 0;
    var i := b;
    while i != 0 && i & 1 == 0
      invariant Back(b) == back + Back(i)
      decreases Back(i)
    {
      TrailingHalf(i);
      back := back + 1;
      i := i >> 1;
    }
    if i != 0 {
      TrailingOdd(i);
    }
  }

  lemma SkippedTooFar(m: BlockMap, k: nat, n: nat, start: nat, j: nat)
    requires m.Valid() && k <= start + j && j < n && n > 0
    requires m.base + start + n <= m.mem.Length && m.mem[m.base + start + j] != 0
    requires k < start ==> !FreeBytes(m.Map(), k, n)
    ensures !FreeBytes(m.Map(), k, n)
  {
    if k >= start && k + n <= m.mapsize {
      assert m.Map()[start + j] == m.mem[m.base + start + j];
    }
  }

  /** The blocks of a run. */
  function Run(newaddr: nat, n: nat): (r: set<nat>)
    ensures forall b :: b in r <==> newaddr <= b < newaddr + n
    ensures |r| == n
  {
    if n == 0 then {} else Run(newaddr, n - 1) + {newaddr + n - 1}
  }

  /** There is no run exactly when nowhere in the map as many bytes in a row are zero as
      n blocks need at eight to a byte. */
  lemma TargetNone(bits: seq<bv8>, guard: bv8, minvld: nat, n: nat, bytes: nat)
    requires n > 0 && minvld > 0 && StartsInside(bits, guard, n) && 8 * bytes - 8 < n <= 8 * bytes
    ensures Target(bits, guard, minvld, n) == 0 <==> forall k: nat :: !FreeBytes(bits, k, bytes)
  {
    assert bytes == Bytes8(n);
    FitFromIsFirst(bits, Bytes8(n), 0);
    if FitFrom(bits, Bytes8(n), 0) < |bits| {
      RunInsideMap(bits, guard, minvld, n);
    }
  }

  /** The run starts less than eight blocks before the first place where enough bytes in
      a row are zero. */
  lemma FirstPlace(bits: seq<bv8>, guard: bv8, minvld: nat, n: nat, bytes: nat) returns (f: nat)
    requires n > 0 && FitFrom(bits, Bytes8(n), 0) < |bits| && 8 * bytes - 8 < n <= 8 * bytes
    ensures FreeBytes(bits, f, bytes) && forall k: nat :: k < f ==> !FreeBytes(bits, k, bytes)
    ensures minvld + 8 * f - 8 < Target(bits, guard, minvld, n) <= minvld + 8 * f
  {
    assert bytes == Bytes8(n);
    FitFromIsFirst(bits, Bytes8(n), 0);
    f := FitFrom(bits, Bytes8(n), 0);
  }

  lemma UsedBefore(bits: seq<bv8>, f: nat, n: nat)
    requires 0 < f && FreeBytes(bits, f, n) && !FreeBytes(bits, f - 1, n)
    ensures bits[f - 1] != 0
  {
  }

  /** The block before the run is in use, unless the run starts at the first byte. */
  lemma UsedBeforeRun(bits: seq<bv8>, guard: bv8, minvld: nat, n: nat)
    requires n > 0 && 0 < FitFrom(bits, Bytes8(n), 0) < |bits|
    ensures InUse(bits, minvld, Target(bits, guard, minvld, n) - 1)
  {
    var f := FitFrom(bits, Bytes8(n), 0);
    FitFromIsFirst(bits, Bytes8(n), 0);
    UsedBefore(bits, f, Bytes8(n));
    TrailingBits(bits[f - 1]);
  }

  /** No block of the run is in use, and the run does not pass the end of the map. */
  lemma RunIsFree(bits: seq<bv8>, guard: bv8, minvld: nat, n: nat)
    requires n > 0 && FitFrom(bits, Bytes8(n), 0) < |bits|
    ensures var t := Target(bits, guard, minvld, n);
            && (forall b :: t <= b < t + n ==> !InUse(bits, minvld, b))
            && t + n <= minvld + 8 * |bits|
  {
    var f, t := FitFrom(bits, Bytes8(n), 0), Target(bits, guard, minvld, n);
    FitFromIsFirst(bits, Bytes8(n), 0);
    if f > 0 {
      UsedBefore(bits, f, Bytes8(n));
    }
    forall b | t <= b < t + n ensures !InUse(bits, minvld, b) {
      FreeInRun(bits, f, n, b - minvld, minvld);
    }
  }

  /** One block of a run, counted from the first valid block. */
  lemma FreeInRun(bits: seq<bv8>, f: nat, n: nat, off: int, minvld: nat)
    requires FreeBytes(bits, f, Bytes8(n)) && off < 8 * f + n && (f > 0 ==> bits[f - 1] != 0)
    requires if f > 0 then off >= 8 * f - Trailing(bits[f - 1]) else off < 0 || off >= 8 * f
    ensures !InUse(bits, minvld, minvld + off)
  {
    if off >= 8 * f {
      ZeroHasNoBit(0);
      assert bits[off / 8] == 0;
    } else if off >= 0 {
      TrailingBits(bits[f - 1]);
      assert off / 8 == f - 1;
    }
  }

  /** The run lies inside the map exactly when it does not start in a byte before the
      map that ends in free bits. */
  lemma RunInsideMap(bits: seq<bv8>, guard: bv8, minvld: nat, n: nat)
    requires FitFrom(bits, Bytes8(n), 0) < |bits|
    ensures Target(bits, guard, minvld, n) >= minvld <==> StartsInside(bits, guard, n)
  {
    TrailingOdd(guard);
  }

  /** An even byte before the map whose first byte is free: the run begins before it. */
  lemma RunBeforeMap()
    ensures !StartsInside([0], 0xFE, 1) && Target([0], 0xFE, 3, 1) == 2
  {
    assert FreeBytes([0], 0, 1);
    TrailingHalf(0xFE);
    TrailingOdd(0x7F);
  }

  /** The last byte of a map is free and the one before it is full. */
  lemma SecondByteFits(bits: seq<bv8>, guard: bv8, minvld: nat)
    requires |bits| == 2 && bits[0] == 0xFF && bits[1] == 0
    ensures Target(bits, guard, minvld, 1) == minvld + 8
  {
    assert !FreeBytes(bits, 0, 1) && FreeBytes(bits, 1, 1);
    assert FitFrom(bits, 1, 0) == FitFrom(bits, 1, 1) == 1;
    TrailingOdd(0xFF);
  }

  lemma FirstByteUsed(bits: seq<bv8>, minvld: nat)
    requires |bits| == 2 && bits[0] == 0xFF && bits[1] == 0
    ensures Used(bits, minvld) == Run(minvld, 8)
  {
    ZeroHasNoBit(0);
    forall b: nat ensures InUse(bits, minvld, b) <==> minvld <= b < minvld + 8 {
    }
  }

  /** A map that reaches behind the last valid block: blocks 4 to 11 are valid and in
      use, and a file of one block is put at block 12. */
  lemma RunBehindLastBlock()
    ensures Used([0xFF, 0x00], 4) == Run(4, 8) && Target([0xFF, 0x00], 1, 4, 1) == 12
  {
    FirstByteUsed([0xFF, 0x00], 4);
    SecondByteFits([0xFF, 0x00], 1, 4);
  }

  /** Different blocks, all of them in the map. */
  ghost predicate Candidate(m: BlockMap, blocks: seq<nat>) {
    && (forall i, j :: 0 <= i < j < |blocks| ==> blocks[i] != blocks[j])
    && (forall i :: 0 <= i < |blocks| ==> m.Covers(blocks[i]))
  }

  function SetOf(blocks: seq<nat>): (r: set<nat>)
    ensures forall b :: b in r <==> b in blocks
    ensures (forall i, j :: 0 <= i < j < |blocks| ==> blocks[i] != blocks[j]) ==> |r| == |blocks|
  {
    if blocks == [] then {}
    else
      var n := |blocks| - 1;
      assert forall b :: b in blocks <==> b in blocks[..n] || b == blocks[n];
      SetOf(blocks[..n]) + {blocks[n]}
  }

  lemma ClearStep(before: set<nat>, blocks: seq<nat>, j: nat)
    requires j < |blocks|
    ensures before - SetOf(blocks[..j]) - {blocks[j]} == before - SetOf(blocks[..j + 1])
  {
    assert blocks[..j + 1][..j] == blocks[..j];
  }

  /** Frees the blocks of a file. */
  method FreeBlocks(m: BlockMap, blocks: seq<nat>)
    requires m.Valid() && Candidate(m, blocks)
    modifies m.mem
    ensures m.Marked() == old(m.Marked()) - SetOf(blocks) && m.Outside() == old(m.Outside())
  {
    ghost var before, now := m.Marked(), m.Marked();
    for j := 0 to |blocks|
      invariant m.Marked() == now && now == before - SetOf(blocks[..j]) && m.Outside() == old(m.Outside())
    {
      var was := m.ClrBit(blocks[j]);
      ClearStep(before, blocks, j);
      now := now - {blocks[j]};
    }
    assert blocks[..|blocks|] == blocks;
  }

  /** Some block of the run is among these. */
  predicate Clash(used: set<nat>, newaddr: nat, n: nat) {
    n > 0 && (Clash(used, newaddr, n - 1) || newaddr + n - 1 in used)
  }

  lemma {:induction false} ClashMeets(used: set<nat>, newaddr: nat, n: nat)
    ensures Clash(used, newaddr, n) <==> !(used !! Run(newaddr, n))
  {
    if n > 0 {
      ClashMeets(used, newaddr, n - 1);
      if used !! Run(newaddr, n) {
        assert newaddr + n - 1 in Run(newaddr, n);
      }
    }
  }

  function WithRun(before: set<nat>, newaddr: nat, j: nat): set<nat> { before + Run(newaddr, j) }

  lemma RunStep(before: set<nat>, newaddr: nat, j: nat)
    ensures newaddr + j in WithRun(before, newaddr, j) <==> newaddr + j in before
    ensures WithRun(before, newaddr, j) + {newaddr + j} == WithRun(before, newaddr, j + 1)
  {
  }

  /** Marks a run; says whether some block of it was marked already. */
  method MarkRun(m: BlockMap, newaddr: nat, n: nat) returns (wrong: bool)
    requires m.Valid() && m.minvld <= newaddr && newaddr + n <= m.minvld + 8 * m.mapsize
    modifies m.mem
    ensures wrong <==> !(old(m.Marked()) !! Run(newaddr, n))
    ensures m.Marked() == old(m.Marked()) + Run(newaddr, n) && m.Outside() == old(m.Outside())
  {
    wrong := false;
    ghost var before := m.Marked();
    assert before == WithRun(before, newaddr, 0);
    for j := 0 to n
      invariant Marking(m, before, newaddr, j, wrong) && m.Outside() == old(m.Outside())
    {
      wrong := MarkNext(m, before, newaddr, j, wrong);
    }
    ClashMeets(before, newaddr, n);
  }

  /** The first j blocks of a run have been marked. */
  ghost predicate Marking(m: BlockMap, before: set<nat>, newaddr: nat, j: nat, wrong: bool)
    requires m.Valid()
    reads m.mem
  {
    wrong == Clash(before, newaddr, j) && m.Marked() == WithRun(before, newaddr, j)
  }

  method MarkNext(m: BlockMap, ghost before: set<nat>, newaddr: nat, j: nat, soFar: bool) returns (wrong: bool)
    requires m.Valid() && m.minvld <= newaddr && newaddr + j < m.minvld + 8 * m.mapsize
    requires Marking(m, before, newaddr, j, soFar)
    modifies m.mem
    ensures Marking(m, before, newaddr, j + 1, wrong) && m.Outside() == old(m.Outside())
  {
    RunStep(before, newaddr, j);
    var already := m.SetBit(newaddr + j);
    wrong := soFar || already;
  }

  // ---------- moving files ----------

  /** The blocks in use after a file has moved: its blocks are freed, the run is marked. */
  function Moved(used: set<nat>, blocks: seq<nat>, newaddr: int): set<nat> {
    if newaddr > 0 then used - SetOf(blocks) + Run(newaddr, |blocks|) else used
  }

  /** Exchanging blocks for as many free ones. */
  lemma ExchangeCount(used: set<nat>, own: set<nat>, run: set<nat>)
    requires used !! run && |own| == |run|
    ensures |used - own + run| == |used| + |own - used|
  {
    var kept, gone := used - own, used * own;
    assert used == kept + gone;
    assert own == gone + (own - used);
    assert kept !! run;
  }

  lemma NothingMissing(own: set<nat>, used: set<nat>)
    ensures |own - used| == 0 <==> own <= used
  {
    if own - used == {} {
      assert forall b :: b in own ==> b in used || b in own - used;
    }
  }

  /** Moving a file to free blocks keeps the number of blocks in use if and only if all
      its blocks were in use; otherwise that number grows. */
  lemma MovedCount(used: set<nat>, blocks: seq<nat>, newaddr: int)
    requires forall i, j :: 0 <= i < j < |blocks| ==> blocks[i] != blocks[j]
    requires newaddr > 0 ==> used !! Run(newaddr, |blocks|)
    ensures |Moved(used, blocks, newaddr)| == |used| + if newaddr > 0 then |SetOf(blocks) - used| else 0
    ensures |Moved(used, blocks, newaddr)| == |used| <==> newaddr <= 0 || SetOf(blocks) <= used
  {
    if newaddr > 0 {
      ExchangeCount(used, SetOf(blocks), Run(newaddr, |blocks|));
      NothingMissing(SetOf(blocks), used);
    }
  }

  lemma MovedDisjoint(used: set<nat>, blocks: seq<nat>, newaddr: int)
    requires (forall i, j :: 0 <= i < j < |blocks| ==> blocks[i] != blocks[j]) && SetOf(blocks) !! used
    requires newaddr > 0 && used !! Run(newaddr, |blocks|)
    ensures |Moved(used, blocks, newaddr)| == |used| + |blocks|
  {
    MovedCount(used, blocks, newaddr);
    assert SetOf(blocks) - used == SetOf(blocks);
  }

  /** What a move needs of its run. */
  lemma RunCanBeMarked(bits: seq<bv8>, guard: bv8, minvld: nat, n: nat)
    requires n > 0 && StartsInside(bits, guard, n) && Target(bits, guard, minvld, n) != 0
    ensures var t := Target(bits, guard, minvld, n);
            t >= minvld && t + n <= minvld + 8 * |bits| && Used(bits, minvld) !! Run(t, n)
  {
    RunIsFree(bits, guard, minvld, n);
    RunInsideMap(bits, guard, minvld, n);
  }

  /** Moving a candidate: the run that the search finds is free, so no mark collides. */
  method MoveCandidate(m: BlockMap, blocks: seq<nat>) returns (newaddr: int, wrong: bool)
    requires Candidate(m, blocks) && blocks != [] && Guarded(m, |blocks|) && m.minvld > 0
    requires StartsInside(m.Map(), m.mem[m.base - 1], |blocks|)
    modifies m.mem
    ensures newaddr == old(Target(m.Map(), m.mem[m.base - 1], m.minvld, |blocks|))
    ensures newaddr != 0 ==> newaddr >= m.minvld && old(m.Marked()) !! Run(newaddr, |blocks|)
    ensures !wrong && m.Marked() == Moved(old(m.Marked()), blocks, newaddr) && m.Outside() == old(m.Outside())
  {
    newaddr := FindContiguous(m, |blocks|);
    wrong := false;
    if newaddr != 0 {
      RunCanBeMarked(m.Map(), m.mem[m.base - 1], m.minvld, |blocks|);
      FreeBlocks(m, blocks);
      wrong := MarkRun(m, newaddr, |blocks|);
    }
  }
}
