/** Walking the block trees of all files, to build the map of used blocks or to list
    the blocks of one file. */
module Defrag {
  import opened Bytes
  import opened BlockTree
  import opened Bitmap

  const MAX_DUPS := 60
  const MAX_OORS := 40
  const MAX_BLOCKS := 16384

  datatype Mode = BuildMap | BuildFile

  /** What a walk has produced so far: whether no error was recorded, the marked
      blocks, the listed blocks, and every claim it visited, in order. */
  datatype Snapshot = Snapshot(clean: bool, used: set<nat>, blocks: seq<nat>, visited: seq<Claim>)

  /** Claims that a walk can take in without recording an error. */
  ghost predicate Fits(g: Disk, mode: Mode, s: Snapshot, cs: seq<Claim>) {
    if mode == BuildMap then Acceptable(g, s.used, cs) else AllInRange(g, cs)
  }

  function BlockNumbers(cs: seq<Claim>): seq<nat> {
    if cs == [] then [] else [cs[0].block] + BlockNumbers(cs[1..])
  }

  function ListOne(blocks: seq<nat>, b: nat): seq<nat> {
    if |blocks| < MAX_BLOCKS then blocks + [b % 0x1_0000] else blocks
  }

  /** The list after these claims: it keeps 16 bits of each block number and does not
      grow beyond MAX_BLOCKS. */
  function Listed(blocks: seq<nat>, cs: seq<Claim>): seq<nat>
    decreases |cs|
  {
    if cs == [] then blocks
    else Listed(ListOne(blocks, cs[0].block), cs[1..])
  }

  function TakeIn(mode: Mode, s: Snapshot, cs: seq<Claim>): Snapshot {
    Snapshot(s.clean,
             if mode == BuildMap then s.used + BlocksOf(cs) else s.used,
             if mode == BuildFile then Listed(s.blocks, cs) else s.blocks,
             s.visited + cs)
  }

  /** What walking these claims must do: record an error exactly when they do not fit
      or there was one before, and otherwise take all of them in. */
  ghost predicate Walked(g: Disk, mode: Mode, cs: seq<Claim>, s: Snapshot, t: Snapshot) {
    && (t.clean <==> s.clean && Fits(g, mode, s, cs))
    && (t.clean ==> t == TakeIn(mode, s, cs))
  }

  lemma {:induction false} ListedAppend(blocks: seq<nat>, a: seq<Claim>, b: seq<Claim>)
    ensures Listed(blocks, a + b) == Listed(Listed(blocks, a), b)
    decreases |a|
  {
    if a == [] {
      assert a + b == b;
    } else {
      assert (a + b)[1..] == a[1..] + b;
      ListedAppend(ListOne(blocks, a[0].block), a[1..], b);
    }
  }

  /** A file's blocks are all listed when there is room for them and 16 bits are enough. */
  lemma {:induction false} ListedAll(blocks: seq<nat>, cs: seq<Claim>)
    requires |blocks| + |cs| <= 16384
    requires forall i :: 0 <= i < |cs| ==> cs[i].block < 0x1_0000
    ensures Listed(blocks, cs) == blocks + BlockNumbers(cs)
    decreases |cs|
  {
    if cs != [] {
      var b, rest := cs[0].block, BlockNumbers(cs[1..]);
      assert ListOne(blocks, b) == blocks + [b];
      ListedAll(blocks + [b], cs[1..]);
      Assoc(blocks, [b], rest);
    } else {
      assert blocks + [] == blocks;
    }
  }

  lemma FitsAppend(g: Disk, mode: Mode, s: Snapshot, a: seq<Claim>, b: seq<Claim>)
    ensures Fits(g, mode, s, a + b) <==> Fits(g, mode, s, a) && Fits(g, mode, TakeIn(mode, s, a), b)
  {
    AcceptableAppend(g, s.used, a, b);
    InRangeAppend(g, a, b);
  }

  lemma InRangeAppend(g: Disk, a: seq<Claim>, b: seq<Claim>)
    ensures AllInRange(g, a + b) <==> AllInRange(g, a) && AllInRange(g, b)
  {
    var c := a + b;
    if AllInRange(g, c) {
      forall i | 0 <= i < |a| ensures InRange(g, a[i].block) {
        assert c[i] == a[i];
      }
      forall i | 0 <= i < |b| ensures InRange(g, b[i].block) {
        assert c[|a| + i] == b[i];
      }
    }
  }

  lemma TakeInAppend(mode: Mode, s: Snapshot, a: seq<Claim>, b: seq<Claim>)
    ensures TakeIn(mode, TakeIn(mode, s, a), b) == TakeIn(mode, s, a + b)
  {
    BlocksOfAppend(a, b);
    ListedAppend(s.blocks, a, b);
    assert s.visited + a + b == s.visited + (a + b);
  }

  /** Walking one list of claims and then another walks both. */
  lemma WalkedInTurn(g: Disk, mode: Mode, a: seq<Claim>, b: seq<Claim>, s: Snapshot, t: Snapshot, u: Snapshot)
    requires Walked(g, mode, a, s, t) && Walked(g, mode, b, t, u)
    ensures Walked(g, mode, a + b, s, u)
  {
    FitsAppend(g, mode, s, a, b);
    TakeInAppend(mode, s, a, b);
  }

  /** A walk that gives up early has recorded an error, and so must the whole walk. */
  lemma WalkedAborted(g: Disk, mode: Mode, a: seq<Claim>, b: seq<Claim>, s: Snapshot, t: Snapshot)
    requires Walked(g, mode, a, s, t) && !t.clean
    ensures Walked(g, mode, a + b, s, t)
  {
    FitsAppend(g, mode, s, a, b);
  }

  lemma WalkedNothing(g: Disk, mode: Mode, s: Snapshot)
    ensures Walked(g, mode, [], s, s)
  {
    assert BlocksOf([]) == {} && s.visited + [] == s.visited;
  }

  /** A claim outside the valid range fits nowhere, whatever follows it. */
  lemma WalkedOutOfRange(g: Disk, mode: Mode, cs: seq<Claim>, s: Snapshot, t: Snapshot)
    requires cs != [] && !InRange(g, cs[0].block) && !t.clean
    ensures Walked(g, mode, cs, s, t)
  {
    assert !AllInRange(g, cs);
  }

  /** Taking in a single claim. */
  lemma WalkedOne(g: Disk, mode: Mode, c: Claim, s: Snapshot, t: Snapshot)
    requires InRange(g, c.block) && t.visited == s.visited + [c]
    requires t.clean <==> s.clean && (mode == BuildMap ==> c.block !in s.used)
    requires t.used == if mode == BuildMap then s.used + {c.block} else s.used
    requires t.blocks == if mode == BuildFile then ListOne(s.blocks, c.block) else s.blocks
    ensures Walked(g, mode, [c], s, t)
  {
    var one := [c];
    assert one[0] == c && BlocksOf(one) == {c.block};
    assert Listed(s.blocks, [c]) == ListOne(s.blocks, c.block) by {
      assert [c][1..] == [];
    }
    assert Acceptable(g, s.used, [c]) <==> c.block !in s.used;
    assert AllInRange(g, [c]);
  }

  const FDNSIZ := 64

  /** The thirteen block numbers of a file descriptor. */
  function BlockList(fdn: seq<byte>): (es: seq<nat>)
    requires |fdn| == FDNSIZ
    ensures |es| == FMSZ + 3
  {
    Entries(fdn[9..], FMSZ + 3)
  }

  // ---------- the walk ----------

  /** Listing a file's blocks leaves the map's memory alone. */
  ghost predicate Quiet(mode: Mode, before: seq<bv8>, after: seq<bv8>) {
    mode == BuildFile ==> before == after
  }

  class Defragmenter {
    const g: Disk
    const bits: BlockMap
    var mode: Mode
    var dupsCnt: nat
    var dupblks: nat
    var oorsCnt: nat
    var oorblks: nat
    /** Blocks of the current file, at most MAX_BLOCKS of them. */
    var blocks: seq<nat>
    ghost var visited: seq<Claim>

    constructor (g: Disk, bits: BlockMap)
      ensures this.g == g && this.bits == bits
    {
      this.g, this.bits := g, bits;
      mode := BuildMap;
      dupsCnt, dupblks, oorsCnt, oorblks := 0, 0, 0, 0;
      blocks, visited := [], [];
    }

    /** The map covers the valid range. */
    ghost predicate Valid()
    {
      && bits.Valid() && bits.minvld == g.minvld
      && g.maxvld < g.minvld + 8 * bits.mapsize
    }

    ghost function Now(): Snapshot
      requires Valid()
      reads this, bits.mem
    {
      Snapshot(dupsCnt == 0 && oorsCnt == 0, bits.Marked(), blocks, visited)
    }

    /** Records a duplicate block; the table of them stops growing when it is full. */
    method SetDup()
      modifies this`dupsCnt, this`dupblks
      ensures dupsCnt > 0
    {
      dupblks := dupblks + 1;
      if dupsCnt < MAX_DUPS {
        dupsCnt := dupsCnt + 1;
      }
    }

    /** Records a block outside the valid range. */
    method SetOor()
      modifies this`oorsCnt, this`oorblks
      ensures oorsCnt > 0
    {
      oorblks := oorblks + 1;
      if oorsCnt < MAX_OORS {
        oorsCnt := oorsCnt + 1;
      }
    }

    /** Marks or lists a block that is in range. */
    method TakeBlock(blkadr: nat, ghost c: Claim)
      requires Valid() && InRange(g, blkadr) && c.block == blkadr
      modifies this, bits.mem
      ensures mode == old(mode) && Quiet(mode, old(bits.mem[..]), bits.mem[..]) && bits.Outside() == old(bits.Outside())
      ensures Walked(g, mode, [c], old(Now()), Now())
    {
      ghost var before := Now();
      if mode == BuildMap {
        var already := bits.SetBit(blkadr);
        if already {
          SetDup();
        }
      } else {
        if |blocks| < MAX_BLOCKS {
          blocks := blocks + [blkadr % 0x1_0000];
        }
      }
      visited := visited + [c];
      WalkedOne(g, mode, c, before, Now());
    }

    /** Takes in a data block. */
    method MapBlock(blkadr: nat)
      requires Valid()
      modifies this, bits.mem
      ensures mode == old(mode) && Quiet(mode, old(bits.mem[..]), bits.mem[..]) && bits.Outside() == old(bits.Outside())
      ensures Walked(g, mode, [Data(blkadr)], old(Now()), Now())
    {
      ghost var before := Now();
      if blkadr < g.minvld || blkadr > g.maxvld {
        SetOor();
        WalkedOutOfRange(g, mode, [Data(blkadr)], before, Now());
        return;
      }
      TakeBlock(blkadr, Data(blkadr));
    }

    /** Takes in an indirect block; says whether it was out of range. */
    method MapIndirectBlock(blkadr: nat) returns (err: bool)
      requires Valid()
      modifies this, bits.mem
      ensures mode == old(mode) && Quiet(mode, old(bits.mem[..]), bits.mem[..]) && bits.Outside() == old(bits.Outside())
      ensures Walked(g, mode, [Indirect(blkadr)], old(Now()), Now())
      ensures err <==> !InRange(g, blkadr)
      ensures err ==> !Now().clean
    {
      ghost var before := Now();
      if blkadr < g.minvld || blkadr > g.maxvld {
        SetOor();
        WalkedOutOfRange(g, mode, [Indirect(blkadr)], before, Now());
        return true;
      }
      TakeBlock(blkadr, Indirect(blkadr));
      return false;
    }

    /** Whether an indirect block number is to be followed; one beyond the last valid
        block is recorded instead. */
    method CheckRange(blkadr: nat) returns (follow: bool)
      requires Valid()
      modifies this`oorsCnt, this`oorblks
      ensures follow <==> 0 < blkadr <= g.maxvld
      ensures blkadr > g.maxvld ==> !Now().clean
      ensures blkadr <= g.maxvld ==> Now() == old(Now())
    {
      if blkadr != 0 {
        if blkadr <= g.maxvld {
          return true;
        }
        SetOor();
      }
      return false;
    }

    /** Walks a single indirect block; says whether it was out of range. */
    method DoSind(blkadr: nat) returns (err: bool)
      requires Valid()
      modifies this, bits.mem
      ensures mode == old(mode) && Quiet(mode, old(bits.mem[..]), bits.mem[..]) && bits.Outside() == old(bits.Outside())
      ensures Walked(g, mode, Claims(g, 1, blkadr), old(Now()), Now())
      ensures err ==> !Now().clean
    {
      ghost var s0 := Now();
      err := MapIndirectBlock(blkadr);
      if err {
        assert [Indirect(blkadr)] + [] == [Indirect(blkadr)];
        return;
      }
      var es := L3tol(g.read(blkadr), SMSZ);
      ghost var head := [Indirect(blkadr)];
      assert head + AllClaims(g, 0, es[..0]) == head;
      for i := 0 to SMSZ
        invariant mode == old(mode) && Quiet(mode, old(bits.mem[..]), bits.mem[..]) && bits.Outside() == old(bits.Outside())
        invariant Walked(g, mode, head + AllClaims(g, 0, es[..i]), s0, Now())
      {
        AllClaimsStep(g, 0, es, i);
        if es[i] != 0 {
          ghost var s1 := Now();
          MapBlock(es[i]);
          ClaimsInTurn(g, mode, head, AllClaims(g, 0, es[..i]), Claims(g, 0, es[i]), s0, s1, Now());
        }
      }
      assert es[..SMSZ] == es;
    }

    /** Walks a single indirect entry if it is not zero; says whether it gave up. */
    method SindEntry(b: nat) returns (err: bool)
      requires Valid()
      modifies this, bits.mem
      ensures mode == old(mode) && Quiet(mode, old(bits.mem[..]), bits.mem[..]) && bits.Outside() == old(bits.Outside())
      ensures Walked(g, mode, AllClaims(g, 1, [b]), old(Now()), Now())
      ensures err ==> !Now().clean
    {
      ghost var s0 := Now();
      SingleClaims(g, 1, b);
      err := false;
      var follow := CheckRange(b);
      if b == 0 {
        WalkedNothing(g, mode, s0);
      } else if follow {
        err := DoSind(b);
      } else {
        WalkedOutOfRange(g, mode, Claims(g, 1, b), s0, Now());
      }
    }

    /** Walks a double indirect block; says whether it gave up. */
    method DoDind(blkadr: nat) returns (err: bool)
      requires Valid()
      modifies this, bits.mem
      ensures mode == old(mode) && Quiet(mode, old(bits.mem[..]), bits.mem[..]) && bits.Outside() == old(bits.Outside())
      ensures Walked(g, mode, Claims(g, 2, blkadr), old(Now()), Now())
      ensures err ==> !Now().clean
    {
      ghost var s0 := Now();
      err := MapIndirectBlock(blkadr);
      if err {
        assert [Indirect(blkadr)] + [] == [Indirect(blkadr)];
        return;
      }
      var es := L3tol(g.read(blkadr), SMSZ);
      ghost var head := [Indirect(blkadr)];
      assert head + AllClaims(g, 1, es[..0]) == head;
      for i := 0 to SMSZ
        invariant mode == old(mode) && Quiet(mode, old(bits.mem[..]), bits.mem[..]) && bits.Outside() == old(bits.Outside())
        invariant Walked(g, mode, head + AllClaims(g, 1, es[..i]), s0, Now())
      {
        ghost var s1 := Now();
        err := SindEntry(es[i]);
        EntryInTurn(g, mode, head, 1, es, i, s0, s1, Now());
        if err {
          RestAborted(g, mode, head, 1, es, i + 1, s0, Now());
          return;
        }
      }
      assert es[..SMSZ] == es;
    }

    /** Walks a double indirect entry if it is not zero; says whether it gave up. */
    method DindEntry(b: nat) returns (err: bool)
      requires Valid()
      modifies this, bits.mem
      ensures mode == old(mode) && Quiet(mode, old(bits.mem[..]), bits.mem[..]) && bits.Outside() == old(bits.Outside())
      ensures Walked(g, mode, AllClaims(g, 2, [b]), old(Now()), Now())
      ensures err ==> !Now().clean
    {
      ghost var s0 := Now();
      SingleClaims(g, 2, b);
      err := false;
      var follow := CheckRange(b);
      if b == 0 {
        WalkedNothing(g, mode, s0);
      } else if follow {
        err := DoDind(b);
      } else {
        WalkedOutOfRange(g, mode, Claims(g, 2, b), s0, Now());
      }
    }

    /** Walks a triple indirect block; says whether it gave up. */
    method DoTind(blkadr: nat) returns (err: bool)
      requires Valid()
      modifies this, bits.mem
      ensures mode == old(mode) && Quiet(mode, old(bits.mem[..]), bits.mem[..]) && bits.Outside() == old(bits.Outside())
      ensures Walked(g, mode, Claims(g, 3, blkadr), old(Now()), Now())
      ensures err ==> !Now().clean
    {
      ghost var s0 := Now();
      err := MapIndirectBlock(blkadr);
      if err {
        assert [Indirect(blkadr)] + [] == [Indirect(blkadr)];
        return;
      }
      var es := L3tol(g.read(blkadr), SMSZ);
      ghost var head := [Indirect(blkadr)];
      assert head + AllClaims(g, 2, es[..0]) == head;
      for i := 0 to SMSZ
        invariant mode == old(mode) && Quiet(mode, old(bits.mem[..]), bits.mem[..]) && bits.Outside() == old(bits.Outside())
        invariant Walked(g, mode, head + AllClaims(g, 2, es[..i]), s0, Now())
      {
        ghost var s1 := Now();
        err := DindEntry(es[i]);
        EntryInTurn(g, mode, head, 2, es, i, s0, s1, Now());
        if err {
          RestAborted(g, mode, head, 2, es, i + 1, s0, Now());
          return;
        }
      }
      assert es[..SMSZ] == es;
    }

    /** Walks the ten direct blocks of a file. */
    method DoDirect(es: seq<nat>)
      requires Valid() && |es| >= FMSZ
      modifies this, bits.mem
      ensures mode == old(mode) && Quiet(mode, old(bits.mem[..]), bits.mem[..]) && bits.Outside() == old(bits.Outside())
      ensures Walked(g, mode, AllClaims(g, 0, es[..FMSZ]), old(Now()), Now())
    {
      ghost var s0 := Now();
      WalkedNothing(g, mode, s0);
      for i := 0 to FMSZ
        invariant mode == old(mode) && Quiet(mode, old(bits.mem[..]), bits.mem[..]) && bits.Outside() == old(bits.Outside())
        invariant Walked(g, mode, AllClaims(g, 0, es[..i]), s0, Now())
      {
        AllClaimsStep(g, 0, es, i);
        if es[i] != 0 {
          ghost var s1 := Now();
          MapBlock(es[i]);
          WalkedInTurn(g, mode, AllClaims(g, 0, es[..i]), Claims(g, 0, es[i]), s0, s1, Now());
        }
      }
    }

    /** Walks a triple indirect entry if it is not zero; says whether it gave up. */
    method TindEntry(b: nat) returns (err: bool)
      requires Valid()
      modifies this, bits.mem
      ensures mode == old(mode) && Quiet(mode, old(bits.mem[..]), bits.mem[..]) && bits.Outside() == old(bits.Outside())
      ensures Walked(g, mode, AllClaims(g, 3, [b]), old(Now()), Now())
      ensures err ==> !Now().clean
    {
      ghost var s0 := Now();
      SingleClaims(g, 3, b);
      err := false;
      var follow := CheckRange(b);
      if b == 0 {
        WalkedNothing(g, mode, s0);
      } else if follow {
        err := DoTind(b);
      } else {
        WalkedOutOfRange(g, mode, Claims(g, 3, b), s0, Now());
      }
    }

    /** Walks all blocks of a file, from its 64-byte descriptor. */
    method MarkInMap(fdn: seq<byte>) returns (err: bool)
      requires Valid() && |fdn| == FDNSIZ
      modifies this, bits.mem
      ensures mode == old(mode) && Quiet(mode, old(bits.mem[..]), bits.mem[..]) && bits.Outside() == old(bits.Outside())
      ensures Walked(g, mode, FileClaims(g, BlockList(fdn)), old(Now()).(blocks := []), Now())
      ensures err ==> !Now().clean
    {
      blocks := [];
      ghost var s0 := Now();
      var es := L3tol(fdn[9..], FMSZ + 3);
      ghost var a, b, c, d := AllClaims(g, 0, es[..FMSZ]), AllClaims(g, 1, [es[FMSZ]]),
                              AllClaims(g, 2, [es[FMSZ + 1]]), AllClaims(g, 3, [es[FMSZ + 2]]);
      DoDirect(es);
      ghost var s1 := Now();
      err := SindEntry(es[FMSZ]);
      ghost var s2 := Now();
      WalkedInTurn(g, mode, a, b, s0, s1, s2);
      if err {
        WalkedAborted(g, mode, a + b, c, s0, s2);
        WalkedAborted(g, mode, a + b + c, d, s0, s2);
        return;
      }
      err := DindEntry(es[FMSZ + 1]);
      ghost var s3 := Now();
      WalkedInTurn(g, mode, a + b, c, s0, s2, s3);
      if err {
        WalkedAborted(g, mode, a + b + c, d, s0, s3);
        return;
      }
      err := TindEntry(es[FMSZ + 2]);
      WalkedInTurn(g, mode, a + b + c, d, s0, s3, Now());
    }
  }

  lemma ClaimsInTurn(g: Disk, mode: Mode, head: seq<Claim>, a: seq<Claim>, b: seq<Claim>,
                     s: Snapshot, t: Snapshot, u: Snapshot)
    requires Walked(g, mode, head + a, s, t) && Walked(g, mode, b, t, u)
    ensures Walked(g, mode, head + (a + b), s, u)
  {
    WalkedInTurn(g, mode, head + a, b, s, t, u);
    Assoc(head, a, b);
  }

  /** The next entry of an indirect block. */
  lemma EntryInTurn(g: Disk, mode: Mode, head: seq<Claim>, level: nat, es: seq<nat>, i: nat,
                    s: Snapshot, t: Snapshot, u: Snapshot)
    requires i < |es| && Walked(g, mode, head + AllClaims(g, level, es[..i]), s, t)
    requires Walked(g, mode, AllClaims(g, level, [es[i]]), t, u)
    ensures Walked(g, mode, head + AllClaims(g, level, es[..i + 1]), s, u)
  {
    assert es[..i + 1] == es[..i] + [es[i]];
    AllClaimsAppend(g, level, es[..i], [es[i]]);
    ClaimsInTurn(g, mode, head, AllClaims(g, level, es[..i]), AllClaims(g, level, [es[i]]), s, t, u);
  }

  /** Leaving the loop over an indirect block early. */
  lemma RestAborted(g: Disk, mode: Mode, head: seq<Claim>, level: nat, es: seq<nat>, i: nat, s: Snapshot, t: Snapshot)
    requires i <= |es| && Walked(g, mode, head + AllClaims(g, level, es[..i]), s, t) && !t.clean
    ensures Walked(g, mode, head + AllClaims(g, level, es), s, t)
  {
    assert es == es[..i] + es[i..];
    AllClaimsAppend(g, level, es[..i], es[i..]);
    WalkedAborted(g, mode, head + AllClaims(g, level, es[..i]), AllClaims(g, level, es[i..]), s, t);
    Assoc(head, AllClaims(g, level, es[..i]), AllClaims(g, level, es[i..]));
  }

  /** Unpacks three-byte block numbers. */
  method L3tol(src: seq<byte>, count: nat) returns (blocks: seq<nat>)
    requires 3 * count <= |src|
    ensures blocks == Entries(src, count)
  {
    blocks := [];
    var at := 0;
    for i := 0 to count
      invariant at == 3 * i && blocks == Entries(src, i)
    {
      blocks := blocks + [0x1_0000 * src[at] as int + 0x100 * src[at + 1] as int + src[at + 2] as int];
      at := at + 3;
    }
  }
}
