/** The iterator that hands out a file's blocks one at a time, loading each indirect
    block over the buffer it reads from. */
module BlockIterator {
  import opened Bytes
  import opened BlockTree
  import opened Defrag

  const BGDMSZ := FMSZ + SMSZ                // first slot under the double indirect block
  const BGTMSZ := FMSZ + SMSZ + SMSZ * SMSZ  // first slot under the triple indirect block

  /** Entry i of an indirect block; a block number of zero stands for all holes. */
  function Under(g: Disk, b: nat, i: nat): nat {
    if b == 0 then 0 else Entry(g.read(b), i)
  }

  /** The indirect block that holds the 128 slots of group d: group 0 hangs off the
      single indirect entry, the others off the double indirect block. */
  function GroupBlock(g: Disk, es: seq<nat>, d: nat): nat
    requires |es| == FMSZ + 3
  {
    if d == 0 then es[FMSZ] else Under(g, es[FMSZ + 1], d - 1)
  }

  /** Logical block k of a file, 0 for a hole. */
  function Slot(g: Disk, es: seq<nat>, k: nat): nat
    requires |es| == FMSZ + 3
  {
    if k < FMSZ then es[k] else Under(g, GroupBlock(g, es, (k - FMSZ) / SMSZ), (k - FMSZ) % SMSZ)
  }

  /** Slots lo to hi - 1 are all holes. */
  ghost predicate Holes(g: Disk, es: seq<nat>, lo: nat, hi: nat)
    requires |es| == FMSZ + 3
  {
    forall k :: lo <= k < hi ==> Slot(g, es, k) == 0
  }

  lemma GroupHoles(g: Disk, es: seq<nat>, d: nat)
    requires |es| == FMSZ + 3 && GroupBlock(g, es, d) == 0
    ensures Holes(g, es, FMSZ + d * SMSZ, FMSZ + (d + 1) * SMSZ)
  {
    forall k | FMSZ + d * SMSZ <= k < FMSZ + (d + 1) * SMSZ ensures Slot(g, es, k) == 0 {
      assert (k - FMSZ) / SMSZ == d;
    }
  }

  datatype Got = Found(block: nat) | End | TooLarge

  class FileBlocks {
    const g: Disk
    const mapb: array<byte>
    var indrct: seq<nat>
    var nxtblk: nat
    /** The thirteen block numbers of the file. */
    ghost var es: seq<nat>

    /** The buffer holds what the next slot is read from, unless the next slot starts a
        group, whose block is still to be loaded. */
    ghost predicate Valid()
      reads this, mapb
    {
      && mapb.Length == 3 * SMSZ && |es| == FMSZ + 3 && indrct == es[FMSZ..] && nxtblk <= BGTMSZ
      && (nxtblk < FMSZ ==> forall k :: 0 <= k < FMSZ ==> Entry(mapb[..], k + 3) == es[k])
      && (nxtblk > FMSZ && (nxtblk - FMSZ) % SMSZ != 0 ==> Loaded((nxtblk - FMSZ) / SMSZ))
    }

    /** The buffer holds the indirect block of group d. */
    ghost predicate Loaded(d: nat)
      requires mapb.Length == 3 * SMSZ && |es| == FMSZ + 3
      reads this, mapb
    {
      forall i :: 0 <= i < SMSZ ==> Entry(mapb[..], i) == Under(g, GroupBlock(g, es, d), i)
    }

    /** Opens a file, given its descriptor. */
    constructor Opnfbks(g: Disk, fdn: seq<byte>)
      requires |fdn| == FDNSIZ
      ensures Valid() && fresh(mapb) && this.g == g && es == BlockList(fdn) && nxtblk == 0
    {
      this.g := g;
      mapb := new byte[3 * SMSZ](i requires i >= 0 => if i < |fdn| then fdn[i] else 0);
      es := BlockList(fdn);
      nxtblk := 0;
      var ind := L3tol(fdn[9 + 3 * FMSZ..], 3);
      indrct := ind;
      new;
      forall i | 0 <= i < 3 ensures indrct[i] == es[FMSZ + i] {
        assert Entry(fdn[9 + 3 * FMSZ..], i) == Entry(fdn[9..], FMSZ + i);
      }
      forall k | 0 <= k < FMSZ ensures Entry(mapb[..], k + 3) == es[k] {
        assert Entry(mapb[..], k + 3) == Entry(fdn[9..], k);
      }
    }

    /** Reads the block numbers of an indirect block into the buffer. */
    method Rdmapb(b: nat)
      requires mapb.Length == 3 * SMSZ
      modifies mapb
      ensures forall i :: 0 <= i < SMSZ ==> Entry(mapb[..], i) == Entry(g.read(b), i)
    {
      var block := g.read(b);
      for i := 0 to 3 * SMSZ
        invariant forall j :: 0 <= j < i ==> mapb[j] == block[j]
      {
        mapb[i] := block[i];
      }
    }

    /** Goes through groups, from group 1 on, until one has a block; gives that block,
        or 0 at the end of the double indirect range. */
    method FindGroup() returns (blkadr: nat)
      requires Valid() && BGDMSZ <= nxtblk < BGTMSZ && (nxtblk - FMSZ) % SMSZ == 0
      requires forall i :: 0 <= i < SMSZ ==> Entry(mapb[..], i) == GroupBlock(g, es, i + 1)
      modifies this`nxtblk
      ensures Valid() && old(nxtblk) <= nxtblk && (nxtblk - FMSZ) % SMSZ == 0
      ensures Holes(g, es, old(nxtblk), nxtblk)
      ensures nxtblk < BGTMSZ ==> blkadr != 0 && blkadr == GroupBlock(g, es, (nxtblk - FMSZ) / SMSZ)
    {
      blkadr := 0;
      ghost var start := nxtblk;
      while nxtblk < BGTMSZ
        invariant start <= nxtblk <= BGTMSZ && (nxtblk - FMSZ) % SMSZ == 0
        invariant Holes(g, es, start, nxtblk)
      {
        var d := (nxtblk - BGDMSZ) / SMSZ;
        assert (nxtblk - FMSZ) / SMSZ == d + 1;
        blkadr := L3Entry(mapb, d);
        if blkadr != 0 {
          break;
        }
        GroupHoles(g, es, d + 1);
        nxtblk := nxtblk + SMSZ;
      }
    }

    /** At the start of a group under the double indirect block: finds the next one that
        has a block, which is given, or goes to the end of the range. */
    method NextDoubleGroup() returns (blkadr: nat)
      requires Valid() && FMSZ < nxtblk < BGTMSZ && (nxtblk - FMSZ) % SMSZ == 0
      modifies this`nxtblk, mapb
      ensures Valid() && old(nxtblk) <= nxtblk && (nxtblk - FMSZ) % SMSZ == 0
      ensures Holes(g, es, old(nxtblk), nxtblk)
      ensures nxtblk < BGTMSZ ==> blkadr != 0 && blkadr == GroupBlock(g, es, (nxtblk - FMSZ) / SMSZ)
    {
      blkadr := indrct[1];
      if blkadr == 0 {
        NoDouble(g, es, nxtblk);
        nxtblk := BGTMSZ;
      } else {
        Rdmapb(blkadr);
        blkadr := FindGroup();
      }
    }

    /** At the start of a group: moves on to the next group that has a block and loads
        it, or to the end of the double indirect range. */
    method NextGroup() returns (done: bool)
      requires Valid() && nxtblk >= FMSZ && (nxtblk - FMSZ) % SMSZ == 0
      modifies this`nxtblk, mapb
      ensures Valid() && old(nxtblk) <= nxtblk && (nxtblk - FMSZ) % SMSZ == 0
      ensures Holes(g, es, old(nxtblk), nxtblk)
      ensures done <==> nxtblk == BGTMSZ
      ensures !done ==> Loaded((nxtblk - FMSZ) / SMSZ)
    {
      var blkadr := 0;
      if nxtblk == FMSZ {
        blkadr := indrct[0];
        if blkadr == 0 {
          GroupHoles(g, es, 0);
          nxtblk := nxtblk + SMSZ;
        }
      }
      if FMSZ < nxtblk < BGTMSZ {
        blkadr := NextDoubleGroup();
      }
      done := nxtblk >= BGTMSZ;
      if !done {
        Rdmapb(blkadr);
      }
    }

    /** The search from slot `start` has passed only holes; blkadr is the block it has
        come to, or 0 when it is still going on behind the direct blocks. */
    ghost predicate Searched(start: nat, blkadr: nat)
      reads this, mapb
    {
      && Valid() && start <= nxtblk
      && if blkadr == 0 then FMSZ <= nxtblk && Holes(g, es, start, nxtblk)
         else start < nxtblk && Holes(g, es, start, nxtblk - 1) && Slot(g, es, nxtblk - 1) == blkadr
    }

    /** Goes through the direct blocks until one is not a hole; 0 when there is none. */
    method NextDirect() returns (blkadr: nat)
      requires Valid()
      modifies this`nxtblk
      ensures Searched(old(nxtblk), blkadr)
    {
      ghost var start := nxtblk;
      while nxtblk < FMSZ
        invariant Valid() && start <= nxtblk && Holes(g, es, start, nxtblk)
        invariant start < FMSZ ==> nxtblk <= FMSZ
      {
        blkadr := L3Entry(mapb, nxtblk + 3);
        nxtblk := nxtblk + 1;
        if blkadr != 0 {
          return;
        }
      }
      return 0;
    }

    /** Takes the next slot out of the loaded buffer. */
    method TakeSlot(ghost start: nat) returns (blkadr: nat)
      requires Searched(start, 0) && nxtblk < BGTMSZ && Loaded((nxtblk - FMSZ) / SMSZ)
      modifies this`nxtblk
      ensures Searched(start, blkadr) && nxtblk == old(nxtblk) + 1
    {
      ghost var k := nxtblk - FMSZ;
      blkadr := L3Entry(mapb, (nxtblk - FMSZ) % SMSZ);
      assert Slot(g, es, nxtblk) == blkadr;
      nxtblk := nxtblk + 1;
      SameGroup(k);
    }

    /** Goes on by one slot, first to the next group that has a block where one starts. */
    method SearchOn(ghost start: nat) returns (done: bool, blkadr: nat)
      requires Searched(start, 0)
      modifies this`nxtblk, mapb
      ensures Searched(start, blkadr)
      ensures if done then blkadr == 0 && nxtblk == BGTMSZ else nxtblk > old(nxtblk)
    {
      blkadr := 0;
      done := false;
      if (nxtblk - FMSZ) % SMSZ == 0 {
        ghost var k := nxtblk;
        done := NextGroup();
        HolesOn(g, es, start, k, nxtblk);
      }
      if !done {
        blkadr := TakeSlot(start);
      }
    }

    /** The next block of the file that is not a hole. */
    method Gfblks() returns (r: Got)
      requires Valid()
      modifies this`nxtblk, mapb
      ensures Searched(old(nxtblk), if r.Found? then r.block else 0) && (r.Found? ==> r.block != 0)
      ensures !r.Found? ==> nxtblk == BGTMSZ
      ensures r.End? ==> es[FMSZ + 2] == 0
      ensures r.TooLarge? ==> es[FMSZ + 2] != 0
    {
      ghost var start := nxtblk;
      var blkadr := NextDirect();
      while blkadr == 0
        invariant Searched(start, blkadr)
        decreases BGTMSZ - nxtblk, blkadr == 0
      {
        var done;
        done, blkadr := SearchOn(start);
        if done {
          return if indrct[2] == 0 then End else TooLarge;
        }
      }
      return Found(blkadr);
    }
  }

  lemma HolesOn(g: Disk, es: seq<nat>, lo: nat, mid: nat, hi: nat)
    requires |es| == FMSZ + 3 && Holes(g, es, lo, mid) && Holes(g, es, mid, hi)
    ensures Holes(g, es, lo, hi)
  {
  }

  lemma SameGroup(k: nat)
    ensures (k + 1) % SMSZ != 0 ==> (k + 1) / SMSZ == k / SMSZ
  {
  }

  lemma NoDouble(g: Disk, es: seq<nat>, k: nat)
    requires |es| == FMSZ + 3 && es[FMSZ + 1] == 0 && k >= BGDMSZ
    ensures Holes(g, es, k, BGTMSZ)
  {
  }

  /** Unpacks one three-byte block number in place. */
  method L3Entry(a: array<byte>, i: nat) returns (v: nat)
    requires 3 * i + 3 <= a.Length
    ensures v == Entry(a[..], i)
  {
    v := 0x1_0000 * a[3 * i] as int + 0x100 * a[3 * i + 1] as int + a[3 * i + 2] as int;
  }

  // ---------- agreement with the walk ----------

  /** The slots of a file. */
  ghost function Slots(g: Disk, es: seq<nat>): nat -> nat
    requires |es| == FMSZ + 3
  {
    (k: nat) => Slot(g, es, k)
  }

  /** Slots lo to hi - 1 without the holes. */
  ghost function Kept(f: nat -> nat, lo: nat, hi: nat): seq<nat> {
    if hi <= lo then [] else Kept(f, lo, hi - 1) + if f(hi - 1) == 0 then [] else [f(hi - 1)]
  }

  ghost predicate AllZero(f: nat -> nat, lo: nat, hi: nat) {
    forall k: nat :: lo <= k < hi ==> f(k) == 0
  }

  /** The blocks among these claims that hold file contents. */
  function DataOf(cs: seq<Claim>): seq<nat> {
    if cs == [] then []
    else (if cs[0].Data? then [cs[0].block] else []) + DataOf(cs[1..])
  }

  /** Holes of a file are zeros of its slots. */
  lemma HolesAreZero(g: Disk, es: seq<nat>, lo: nat, hi: nat)
    requires |es| == FMSZ + 3 && Holes(g, es, lo, hi)
    ensures AllZero(Slots(g, es), lo, hi)
  {
  }

  /** The blocks that an iterator has given so far. */
  ghost predicate Collected(f: FileBlocks, slots: nat -> nat, blocks: seq<nat>)
    reads f, f.mapb
  {
    f.Valid() && slots == Slots(f.g, f.es) && blocks == Kept(slots, 0, f.nxtblk)
  }

  /** One call of the iterator adds what it gives. */
  method CollectNext(f: FileBlocks, ghost slots: nat -> nat, ghost blocks: seq<nat>) returns (r: Got)
    requires Collected(f, slots, blocks)
    modifies f`nxtblk, f.mapb
    ensures Collected(f, slots, if r.Found? then blocks + [r.block] else blocks)
    ensures if r.Found? then f.nxtblk > old(f.nxtblk) else f.nxtblk == BGTMSZ
    ensures r.TooLarge? ==> f.es[FMSZ + 2] != 0
    ensures r.End? ==> f.es[FMSZ + 2] == 0
  {
    ghost var k := f.nxtblk;
    r := f.Gfblks();
    HolesAreZero(f.g, f.es, k, if r.Found? then f.nxtblk - 1 else f.nxtblk);
    KeptNext(slots, k, f.nxtblk, r);
  }

  /** Reads a file's blocks until the iterator ends. */
  method AllBlocks(g: Disk, fdn: seq<byte>) returns (blocks: seq<nat>, tooLarge: bool)
    requires |fdn| == FDNSIZ
    ensures tooLarge <==> BlockList(fdn)[FMSZ + 2] != 0
    ensures blocks == Kept(Slots(g, BlockList(fdn)), 0, BGTMSZ)
  {
    var f := new FileBlocks.Opnfbks(g, fdn);
    ghost var slots := Slots(g, f.es);
    blocks := [];
    while true
      invariant fresh(f) && fresh(f.mapb) && f.g == g && f.es == BlockList(fdn) && Collected(f, slots, blocks)
      invariant f.nxtblk <= BGTMSZ
      decreases BGTMSZ - f.nxtblk
    {
      var r := CollectNext(f, slots, blocks);
      if !r.Found? {
        return blocks, r.TooLarge?;
      }
      blocks := blocks + [r.block];
    }
  }

  lemma {:induction false} KeptHoles(f: nat -> nat, lo: nat, mid: nat, hi: nat)
    requires lo <= mid <= hi && AllZero(f, mid, hi)
    ensures Kept(f, lo, hi) == Kept(f, lo, mid)
  {
    if mid < hi {
      KeptHoles(f, lo, mid, hi - 1);
    }
  }

  /** What one call of the iterator adds. */
  lemma KeptNext(f: nat -> nat, k: nat, next: nat, r: Got)
    requires r.Found? ==> k < next && r.block != 0 && f(next - 1) == r.block && AllZero(f, k, next - 1)
    requires !r.Found? ==> k <= next && AllZero(f, k, next)
    ensures Kept(f, 0, next) == Kept(f, 0, k) + if r.Found? then [r.block] else []
  {
    if r.Found? {
      KeptHoles(f, 0, k, next - 1);
    } else {
      KeptHoles(f, 0, k, next);
    }
  }

  lemma {:induction false} KeptSplit(f: nat -> nat, lo: nat, mid: nat, hi: nat)
    requires lo <= mid <= hi
    ensures Kept(f, lo, hi) == Kept(f, lo, mid) + Kept(f, mid, hi)
  {
    if mid < hi {
      KeptSplit(f, lo, mid, hi - 1);
    }
  }

  lemma {:induction false} DataAppend(a: seq<Claim>, b: seq<Claim>)
    ensures DataOf(a + b) == DataOf(a) + DataOf(b)
  {
    if a == [] {
      assert a + b == b;
    } else {
      assert (a + b)[1..] == a[1..] + b;
      DataAppend(a[1..], b);
      Assoc(if a[0].Data? then [a[0].block] else [], DataOf(a[1..]), DataOf(b));
    }
  }

  /** The list s is what slots lo onwards hold. */
  ghost predicate Fills(f: nat -> nat, lo: nat, s: seq<nat>) {
    forall i {:trigger s[i]} :: 0 <= i < |s| ==> f(lo + i) == s[i]
  }

  /** A list of data blocks that fills consecutive slots. */
  lemma {:induction false} DirectKept(g: Disk, f: nat -> nat, lo: nat, s: seq<nat>, n: nat)
    requires n <= |s| && Fills(f, lo, s)
    ensures DataOf(AllClaims(g, 0, s[..n])) == Kept(f, lo, lo + n)
  {
    if n > 0 {
      DirectKept(g, f, lo, s, n - 1);
      AllClaimsStep(g, 0, s, n - 1);
      DataAppend(AllClaims(g, 0, s[..n - 1]), Claims(g, 0, s[n - 1]));
      assert DataOf([Data(s[n - 1])]) == [s[n - 1]];
      assert f(lo + (n - 1)) == s[n - 1];
    }
  }

  lemma AllKept(g: Disk, f: nat -> nat, lo: nat, s: seq<nat>, hi: nat)
    requires Fills(f, lo, s) && hi == lo + |s|
    ensures DataOf(AllClaims(g, 0, s)) == Kept(f, lo, hi)
  {
    DirectKept(g, f, lo, s, |s|);
    assert s[..|s|] == s;
  }

  /** The contents that hang off an indirect block are those that its entries name. */
  lemma UnderIndirect(g: Disk, level: nat, b: nat)
    requires b != 0 && InRange(g, b)
    ensures DataOf(AllClaims(g, level + 1, [b])) == DataOf(AllClaims(g, level, Pointers(g, b)))
  {
    SingleClaims(g, level + 1, b);
    DataAppend([Indirect(b)], AllClaims(g, level, Pointers(g, b)));
    assert DataOf([Indirect(b)]) == [];
  }

  lemma RangeUnderIndirect(g: Disk, level: nat, b: nat)
    requires b != 0 && AllInRange(g, AllClaims(g, level + 1, [b]))
    ensures InRange(g, b) && AllInRange(g, AllClaims(g, level, Pointers(g, b)))
  {
    SingleClaims(g, level + 1, b);
    assert InRange(g, Claims(g, level + 1, b)[0].block);
    InRangeAppend(g, [Indirect(b)], AllClaims(g, level, Pointers(g, b)));
  }

  /** The 128 slots from lo on hold the entries of indirect block b, or nothing. */
  ghost predicate GroupAt(g: Disk, f: nat -> nat, lo: nat, b: nat) {
    if b == 0 then AllZero(f, lo, lo + SMSZ) else Fills(f, lo, Pointers(g, b))
  }

  /** What an indirect block claims is what the slots of its group hold. */
  lemma GroupKept(g: Disk, f: nat -> nat, lo: nat, b: nat, hi: nat)
    requires GroupAt(g, f, lo, b) && AllInRange(g, AllClaims(g, 1, [b])) && hi == lo + SMSZ
    ensures DataOf(AllClaims(g, 1, [b])) == Kept(f, lo, hi)
  {
    if b == 0 {
      SingleClaims(g, 1, 0);
      KeptHoles(f, lo, lo, hi);
    } else {
      RangeUnderIndirect(g, 0, b);
      UnderIndirect(g, 0, b);
      AllKept(g, f, lo, Pointers(g, b), hi);
    }
  }

  lemma GroupsAppend(g: Disk, s: seq<nat>, b: nat)
    requires AllInRange(g, AllClaims(g, 1, s + [b]))
    ensures AllInRange(g, AllClaims(g, 1, s)) && AllInRange(g, AllClaims(g, 1, [b]))
    ensures DataOf(AllClaims(g, 1, s + [b])) == DataOf(AllClaims(g, 1, s)) + DataOf(AllClaims(g, 1, [b]))
  {
    AllClaimsAppend(g, 1, s, [b]);
    InRangeAppend(g, AllClaims(g, 1, s), AllClaims(g, 1, [b]));
    DataAppend(AllClaims(g, 1, s), AllClaims(g, 1, [b]));
  }

  ghost predicate GroupsAt(g: Disk, f: nat -> nat, lo: nat, s: seq<nat>) {
    forall i {:trigger s[i]} :: 0 <= i < |s| ==> GroupAt(g, f, lo + SMSZ * i, s[i])
  }

  /** Groups one after the other from slot lo on. */
  lemma {:induction false} GroupsKept(g: Disk, f: nat -> nat, lo: nat, s: seq<nat>, n: nat, hi: nat)
    requires n <= |s| && AllInRange(g, AllClaims(g, 1, s[..n])) && hi == lo + SMSZ * n
    requires GroupsAt(g, f, lo, s)
    ensures DataOf(AllClaims(g, 1, s[..n])) == Kept(f, lo, hi)
  {
    if n > 0 {
      var mid, b := lo + SMSZ * (n - 1), s[n - 1];
      assert GroupAt(g, f, mid, b);
      assert s[..n] == s[..n - 1] + [b];
      GroupsAppend(g, s[..n - 1], b);
      GroupsKept(g, f, lo, s, n - 1, mid);
      GroupKept(g, f, mid, b, hi);
      KeptSplit(f, lo, mid, hi);
    }
  }

  /** The groups that hang off the double indirect entry, or nothing. */
  ghost predicate DoubleAt(g: Disk, f: nat -> nat, b: nat) {
    if b == 0 then AllZero(f, BGDMSZ, BGTMSZ)
    else GroupsAt(g, f, BGDMSZ, Pointers(g, b))
  }

  /** All that hangs off the double indirect entry. */
  lemma DoubleKept(g: Disk, f: nat -> nat, b: nat)
    requires DoubleAt(g, f, b) && AllInRange(g, AllClaims(g, 2, [b]))
    ensures DataOf(AllClaims(g, 2, [b])) == Kept(f, BGDMSZ, BGTMSZ)
  {
    if b == 0 {
      SingleClaims(g, 2, b);
      KeptHoles(f, BGDMSZ, BGDMSZ, BGTMSZ);
    } else {
      var s := Pointers(g, b);
      RangeUnderIndirect(g, 1, b);
      UnderIndirect(g, 1, b);
      assert s[..SMSZ] == s;
      GroupsKept(g, f, BGDMSZ, s, SMSZ, BGTMSZ);
    }
  }

  /** The slots of a file are where the iterator looks for them. */
  lemma GroupSlots(g: Disk, es: seq<nat>, d: nat, lo: nat)
    requires |es| == FMSZ + 3 && lo == FMSZ + d * SMSZ
    ensures GroupAt(g, Slots(g, es), lo, GroupBlock(g, es, d))
  {
    forall i | 0 <= i < SMSZ ensures Slot(g, es, lo + i) == Under(g, GroupBlock(g, es, d), i) {
      assert (lo + i - FMSZ) / SMSZ == d && (lo + i - FMSZ) % SMSZ == i;
    }
    forall k: nat | lo <= k < lo + SMSZ ensures Slot(g, es, k) == Under(g, GroupBlock(g, es, d), k - lo) {
      assert Slot(g, es, lo + (k - lo)) == Under(g, GroupBlock(g, es, d), k - lo);
    }
  }

  lemma DoubleSlots(g: Disk, es: seq<nat>)
    requires |es| == FMSZ + 3
    ensures DoubleAt(g, Slots(g, es), es[FMSZ + 1])
  {
    var b := es[FMSZ + 1];
    if b == 0 {
      NoDouble(g, es, BGDMSZ);
    } else {
      forall i | 0 <= i < SMSZ ensures GroupAt(g, Slots(g, es), BGDMSZ + SMSZ * i, Pointers(g, b)[i]) {
        GroupSlots(g, es, i + 1, BGDMSZ + SMSZ * i);
        assert GroupBlock(g, es, i + 1) == Pointers(g, b)[i];
      }
    }
  }

  lemma FirstThree(a: seq<Claim>, b: seq<Claim>, c: seq<Claim>, g: Disk)
    requires AllInRange(g, a + b + c)
    ensures AllInRange(g, a) && AllInRange(g, b) && AllInRange(g, c)
    ensures DataOf(a + b + c) == DataOf(a) + DataOf(b) + DataOf(c)
  {
    InRangeAppend(g, a + b, c);
    InRangeAppend(g, a, b);
    DataAppend(a + b, c);
    DataAppend(a, b);
  }

  /** A file without a triple indirect block, whose slots are f. */
  lemma WalkedKept(g: Disk, f: nat -> nat, es: seq<nat>)
    requires |es| == FMSZ + 3 && es[FMSZ + 2] == 0 && AllInRange(g, FileClaims(g, es))
    requires Fills(f, 0, es[..FMSZ]) && GroupAt(g, f, FMSZ, es[FMSZ]) && DoubleAt(g, f, es[FMSZ + 1])
    ensures Kept(f, 0, BGTMSZ) == DataOf(FileClaims(g, es))
  {
    var c0, c1 := AllClaims(g, 0, es[..FMSZ]), AllClaims(g, 1, [es[FMSZ]]);
    var c2, c3 := AllClaims(g, 2, [es[FMSZ + 1]]), AllClaims(g, 3, [es[FMSZ + 2]]);
    SingleClaims(g, 3, 0);
    assert c0 + c1 + c2 + c3 == c0 + c1 + c2;
    FirstThree(c0, c1, c2, g);
    AllKept(g, f, 0, es[..FMSZ], FMSZ);
    GroupKept(g, f, FMSZ, es[FMSZ], BGDMSZ);
    DoubleKept(g, f, es[FMSZ + 1]);
    KeptSplit(f, 0, FMSZ, BGDMSZ);
    KeptSplit(f, 0, BGDMSZ, BGTMSZ);
  }

  /** The iterator gives, in order, exactly the data blocks that the walk visits, for
      any file within the valid range that has no triple indirect block. */
  lemma IteratorAgreesWithWalk(g: Disk, mode: Mode, es: seq<nat>, s: Snapshot, t: Snapshot)
    requires |es| == FMSZ + 3 && es[FMSZ + 2] == 0
    requires Walked(g, mode, FileClaims(g, es), s, t) && t.clean
    ensures t.visited == s.visited + FileClaims(g, es)
    ensures Kept(Slots(g, es), 0, BGTMSZ) == DataOf(FileClaims(g, es))
  {
    GroupSlots(g, es, 0, FMSZ);
    DoubleSlots(g, es);
    WalkedKept(g, Slots(g, es), es);
  }
}
