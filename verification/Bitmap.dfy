/** The map of used blocks: one bit per block, most significant bit first. */
module Bitmap {

  /** The bit that stands for block k of a byte. */
  function Mask(k: nat): bv8
    requires k < 8
  {
    match k
    case 0 => 0x80
    case 1 => 0x40
    case 2 => 0x20
    case 3 => 0x10
    case 4 => 0x08
    case 5 => 0x04
    case 6 => 0x02
    case 7 => 0x01
  }

  predicate BitSet(b: bv8, k: nat)
    requires k < 8
  {
    b & Mask(k) != 0
  }

  function WithBit(b: bv8, k: nat): bv8
    requires k < 8
  {
    b | Mask(k)
  }

  function WithoutBit(b: bv8, k: nat): bv8
    requires k < 8
  {
    b & !Mask(k)
  }

  lemma OrSets(b: bv8, k: nat)
    requires k < 8
    ensures forall j :: 0 <= j < 8 ==> (BitSet(WithBit(b, k), j) <==> j == k || BitSet(b, j))
  {
  }

  lemma AndNotClears(b: bv8, k: nat)
    requires k < 8
    ensures forall j :: 0 <= j < 8 ==> (BitSet(WithoutBit(b, k), j) <==> j != k && BitSet(b, j))
  {
  }

  lemma ZeroHasNoBit(b: bv8)
    ensures b == 0 <==> forall k :: 0 <= k < 8 ==> !BitSet(b, k)
  {
    if b != 0 {
      assert exists k :: 0 <= k < 8 && BitSet(b, k) by {
        if !BitSet(b, 0) && !BitSet(b, 1) && !BitSet(b, 2) && !BitSet(b, 3)
           && !BitSet(b, 4) && !BitSet(b, 5) && !BitSet(b, 6) {
          assert BitSet(b, 7);
        }
      }
    }
  }

  /** The first block of a byte has its highest bit, the last one its lowest. */
  lemma HighBitFirst(b: bv8)
    ensures BitSet(b, 0) <==> b >= 0x80
    ensures BitSet(b << 1, 0) <==> BitSet(b, 1)
    ensures BitSet(b << 2, 0) <==> BitSet(b, 2)
    ensures BitSet(b << 3, 0) <==> BitSet(b, 3)
    ensures BitSet(b << 4, 0) <==> BitSet(b, 4)
    ensures BitSet(b << 5, 0) <==> BitSet(b, 5)
    ensures BitSet(b << 6, 0) <==> BitSet(b, 6)
    ensures BitSet(b << 7, 0) <==> BitSet(b, 7)
  {
  }

  /** Whether a block is in use, where the map starts at block minvld. */
  predicate InUse(bits: seq<bv8>, minvld: nat, b: int) {
    minvld <= b < minvld + 8 * |bits| && BitSet(bits[(b - minvld) / 8], (b - minvld) % 8)
  }

  function Used(bits: seq<bv8>, minvld: nat): (u: set<nat>)
    ensures forall b :: b in u <==> InUse(bits, minvld, b)
  {
    set b: nat | minvld <= b < minvld + 8 * |bits| && InUse(bits, minvld, b)
  }

  lemma UsedWithBit(bits: seq<bv8>, minvld: nat, b: nat)
    requires minvld <= b < minvld + 8 * |bits|
    ensures var at, k := (b - minvld) / 8, (b - minvld) % 8;
      Used(bits[at := WithBit(bits[at], k)], minvld) == Used(bits, minvld) + {b}
  {
    var at, k := (b - minvld) / 8, (b - minvld) % 8;
    var bits' := bits[at := WithBit(bits[at], k)];
    OrSets(bits[at], k);
    forall x: nat ensures InUse(bits', minvld, x) <==> x == b || InUse(bits, minvld, x) {
    }
  }

  lemma UsedWithoutBit(bits: seq<bv8>, minvld: nat, b: nat)
    requires minvld <= b < minvld + 8 * |bits|
    ensures var at, k := (b - minvld) / 8, (b - minvld) % 8;
      Used(bits[at := WithoutBit(bits[at], k)], minvld) == Used(bits, minvld) - {b}
  {
    var at, k := (b - minvld) / 8, (b - minvld) % 8;
    var bits' := bits[at := WithoutBit(bits[at], k)];
    AndNotClears(bits[at], k);
    forall x: nat ensures InUse(bits', minvld, x) <==> x != b && InUse(bits, minvld, x) {
    }
  }

  /** The blocks in use behind the last whole group of four bytes. */
  function LeftOver(bits: seq<bv8>, minvld: nat): set<nat> {
    set b | b in Used(bits, minvld) && (b - minvld) / 8 >= |bits| / 4 * 4
  }

  lemma ClearedLeaves(bits: seq<bv8>, cleared: seq<bv8>, minvld: nat)
    requires |cleared| == |bits|
    requires forall i :: 0 <= i < |bits| ==> cleared[i] == if i < |bits| / 4 * 4 then 0 else bits[i]
    ensures Used(cleared, minvld) == LeftOver(bits, minvld)
  {
    ZeroHasNoBit(0);
    forall b: nat ensures InUse(cleared, minvld, b) <==> b in LeftOver(bits, minvld) {
    }
  }

  lemma NothingLeftOver(bits: seq<bv8>, minvld: nat)
    requires |bits| % 4 == 0
    ensures LeftOver(bits, minvld) == {}
  {
  }

  // ---------- the map as a function of the blocks in use ----------

  /** The first k bits of the byte whose first bit stands for block `at`. */
  function ByteOf(used: set<nat>, at: nat, k: nat): bv8
    requires k <= 8
  {
    if k == 0 then 0
    else if at + k - 1 in used then WithBit(ByteOf(used, at, k - 1), k - 1) else ByteOf(used, at, k - 1)
  }

  lemma {:induction false} ByteOfBits(used: set<nat>, at: nat, k: nat)
    requires k <= 8
    ensures forall j :: 0 <= j < 8 ==> (BitSet(ByteOf(used, at, k), j) <==> j < k && at + j in used)
  {
    if k == 0 {
      ZeroHasNoBit(0);
    } else {
      ByteOfBits(used, at, k - 1);
      OrSets(ByteOf(used, at, k - 1), k - 1);
    }
  }

  lemma SameBits(a: bv8, b: bv8)
    requires forall k :: 0 <= k < 8 ==> (BitSet(a, k) <==> BitSet(b, k))
    ensures a == b
  {
    assert BitSet(a, 0) <==> BitSet(b, 0);
    assert BitSet(a, 1) <==> BitSet(b, 1);
    assert BitSet(a, 2) <==> BitSet(b, 2);
    assert BitSet(a, 3) <==> BitSet(b, 3);
    assert BitSet(a, 4) <==> BitSet(b, 4);
    assert BitSet(a, 5) <==> BitSet(b, 5);
    assert BitSet(a, 6) <==> BitSet(b, 6);
    assert BitSet(a, 7) <==> BitSet(b, 7);
  }

  /** The n bytes of a map in which exactly these blocks are in use. */
  function MapOf(used: set<nat>, minvld: nat, n: nat): (bits: seq<bv8>)
    ensures |bits| == n && forall i :: 0 <= i < n ==> bits[i] == ByteOf(used, minvld + 8 * i, 8)
  {
    if n == 0 then [] else MapOf(used, minvld, n - 1) + [ByteOf(used, minvld + 8 * (n - 1), 8)]
  }

  lemma ByteBack(used: set<nat>, at: nat, b: bv8)
    requires forall k {:trigger BitSet(b, k)} :: 0 <= k < 8 ==> (at + k in used <==> BitSet(b, k))
    ensures ByteOf(used, at, 8) == b
  {
    ByteOfBits(used, at, 8);
    SameBits(ByteOf(used, at, 8), b);
  }

  lemma ByteOfMap(bits: seq<bv8>, minvld: nat, i: nat)
    requires i < |bits|
    ensures ByteOf(Used(bits, minvld), minvld + 8 * i, 8) == bits[i]
  {
    forall k | 0 <= k < 8 ensures minvld + 8 * i + k in Used(bits, minvld) <==> BitSet(bits[i], k) {
      InUseAt(bits, minvld, i, k);
    }
    ByteBack(Used(bits, minvld), minvld + 8 * i, bits[i]);
  }

  /** A map is determined by the blocks in use. */
  lemma MapOfUsed(bits: seq<bv8>, minvld: nat)
    ensures MapOf(Used(bits, minvld), minvld, |bits|) == bits
  {
    forall i | 0 <= i < |bits| ensures MapOf(Used(bits, minvld), minvld, |bits|)[i] == bits[i] {
      ByteOfMap(bits, minvld, i);
    }
  }

  lemma InUseAt(bits: seq<bv8>, minvld: nat, i: nat, k: nat)
    requires i < |bits| && k < 8
    ensures minvld + 8 * i + k in Used(bits, minvld) <==> BitSet(bits[i], k)
  {
    assert (8 * i + k) / 8 == i && (8 * i + k) % 8 == k;
  }

  /** The map in memory: `base` bytes before it and whatever follows it. The source
      looks one byte before the map and some bytes past its end. */
  class BlockMap {
    const mem: array<bv8>
    const base: nat
    const mapsize: nat
    const minvld: nat

    ghost predicate Valid() {
      1 <= base && base + mapsize <= mem.Length
    }

    constructor (mem: array<bv8>, base: nat, mapsize: nat, minvld: nat)
      requires 1 <= base && base + mapsize <= mem.Length
      ensures Valid() && this.mem == mem && this.base == base && this.mapsize == mapsize && this.minvld == minvld
    {
      this.mem, this.base, this.mapsize, this.minvld := mem, base, mapsize, minvld;
    }

    function Map(): seq<bv8>
      requires Valid()
      reads mem
    {
      mem[base..base + mapsize]
    }

    function Marked(): set<nat>
      requires Valid()
      reads mem
    {
      Used(Map(), minvld)
    }

    /** The memory before and behind the map. */
    function Outside(): (seq<bv8>, seq<bv8>)
      requires Valid()
      reads mem
    {
      (mem[..base], mem[base + mapsize..])
    }

    predicate Covers(b: int) { minvld <= b < minvld + 8 * mapsize }

    /** Zeroes the map, four bytes at a time; up to three bytes at its end are missed. */
    method ClearMap()
      requires Valid()
      modifies mem
      ensures forall i :: 0 <= i < mapsize / 4 * 4 ==> Map()[i] == 0
      ensures forall i :: mapsize / 4 * 4 <= i < mapsize ==> Map()[i] == old(Map()[i])
      ensures Marked() == LeftOver(old(Map()), minvld)
      ensures Outside() == old(Outside())
    {
      var iptr := base;
      var i := mapsize / 4;
      while i > 0
        invariant 0 <= i <= mapsize / 4 && iptr + 4 * i == base + mapsize / 4 * 4
        invariant forall j :: base <= j < iptr ==> mem[j] == 0
        invariant forall j :: 0 <= j < mem.Length && !(base <= j < iptr) ==> mem[j] == old(mem[j])
      {
        i := i - 1;
        mem[iptr], mem[iptr + 1], mem[iptr + 2], mem[iptr + 3] := 0, 0, 0, 0;
        iptr := iptr + 4;
      }
      assert mem[..base] == old(mem[..base]) && mem[base + mapsize..] == old(mem[base + mapsize..]);
      ClearedLeaves(old(Map()), Map(), minvld);
    }

    /** Marks a block; says whether it was marked already. */
    method SetBit(blkadr: nat) returns (already: bool)
      requires Valid() && Covers(blkadr)
      modifies mem
      ensures already <==> blkadr in old(Marked())
      ensures Marked() == old(Marked()) + {blkadr}
      ensures Outside() == old(Outside())
    {
      var blkoff := blkadr - minvld;
      var at, bit := blkoff / 8, blkoff % 8;
      ghost var bits := Map();
      already := BitSet(mem[base + at], bit);
      if !already {
        mem[base + at] := WithBit(mem[base + at], bit);
        UsedWithBit(bits, minvld, blkadr);
        assert Map() == bits[at := WithBit(bits[at], bit)];
      }
    }

    /** Unmarks a block; says whether it was marked. */
    method ClrBit(blkadr: nat) returns (was: bool)
      requires Valid() && Covers(blkadr)
      modifies mem
      ensures was <==> blkadr in old(Marked())
      ensures Marked() == old(Marked()) - {blkadr}
      ensures Outside() == old(Outside())
    {
      var blkoff := blkadr - minvld;
      var at, bit := blkoff / 8, blkoff % 8;
      ghost var bits := Map();
      was := BitSet(mem[base + at], bit);
      if was {
        mem[base + at] := WithoutBit(mem[base + at], bit);
        UsedWithoutBit(bits, minvld, blkadr);
        assert Map() == bits[at := WithoutBit(bits[at], bit)];
      }
    }
  }
}
