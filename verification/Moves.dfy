/** Moving all files that are to be defragmented, one after the other. */
module Moves {
  import opened Bytes
  import opened BlockTree
  import opened Bitmap
  import opened Defrag
  import opened Allocator
  import opened DiskCheck

  // ---------- what a series of moves does to the blocks in use ----------

  /** The map's first block, its length, and the byte before it. */
  datatype Area = Area(minvld: nat, mapsize: nat, guard: bv8)

  /** Where n blocks are put when these are in use. */
  ghost function Place(a: Area, used: set<nat>, n: nat): int {
    Target(MapOf(used, a.minvld, a.mapsize), a.guard, a.minvld, n)
  }

  ghost predicate PlacedInside(a: Area, used: set<nat>, n: nat) {
    StartsInside(MapOf(used, a.minvld, a.mapsize), a.guard, n)
  }

  ghost function After(a: Area, used: set<nat>, blocks: seq<nat>): set<nat> {
    Moved(used, blocks, Place(a, used, |blocks|))
  }

  ghost function AfterAll(a: Area, used: set<nat>, files: seq<seq<nat>>): set<nat>
    decreases |files|
  {
    if files == [] then used else AfterAll(a, After(a, used, files[0]), files[1..])
  }

  /** No run reaches back before the map. */
  ghost predicate AllInside(a: Area, used: set<nat>, files: seq<seq<nat>>)
    decreases |files|
  {
    files == [] || (PlacedInside(a, used, |files[0]|) && AllInside(a, After(a, used, files[0]), files[1..]))
  }

  /** Every run ends at or before a last block. */
  ghost predicate AllEndBy(a: Area, used: set<nat>, files: seq<seq<nat>>, last: nat)
    decreases |files|
  {
    files == [] || ((Place(a, used, |files[0]|) == 0 || Place(a, used, |files[0]|) + |files[0]| - 1 <= last)
                    && AllEndBy(a, After(a, used, files[0]), files[1..], last))
  }

  /** A file's blocks are all in use at its turn, or it is not moved. */
  ghost predicate EachInUse(a: Area, used: set<nat>, files: seq<seq<nat>>)
    decreases |files|
  {
    files == [] || ((Place(a, used, |files[0]|) == 0 || SetOf(files[0]) <= used)
                    && EachInUse(a, After(a, used, files[0]), files[1..]))
  }

  /** Lists of different blocks, none of them empty. */
  ghost predicate Files(files: seq<seq<nat>>) {
    forall i :: 0 <= i < |files| ==> files[i] != [] && Distinct(files[i])
  }

  lemma InMapOf(a: Area, used: set<nat>, b: nat)
    requires b in used && a.minvld <= b < a.minvld + 8 * a.mapsize
    ensures InUse(MapOf(used, a.minvld, a.mapsize), a.minvld, b)
  {
    ByteOfBits(used, a.minvld + (b - a.minvld) / 8 * 8, 8);
  }

  /** A file is put at free blocks of the map, or not moved. */
  lemma PlaceIsFree(a: Area, used: set<nat>, n: nat)
    requires a.minvld > 0 && n > 0 && PlacedInside(a, used, n)
    ensures Place(a, used, n) != 0 ==> Place(a, used, n) >= a.minvld && used !! Run(Place(a, used, n), n)
  {
    var bits, t := MapOf(used, a.minvld, a.mapsize), Place(a, used, n);
    if t != 0 {
      RunIsFree(bits, a.guard, a.minvld, n);
      RunInsideMap(bits, a.guard, a.minvld, n);
      forall b | b in used ensures b !in Run(t, n) {
        if b in Run(t, n) {
          InMapOf(a, used, b);
        }
      }
    }
  }

  lemma AfterCount(a: Area, used: set<nat>, blocks: seq<nat>)
    requires a.minvld > 0 && blocks != [] && Distinct(blocks) && PlacedInside(a, used, |blocks|)
    ensures |After(a, used, blocks)| >= |used|
    ensures |After(a, used, blocks)| == |used| <==> Place(a, used, |blocks|) == 0 || SetOf(blocks) <= used
  {
    PlaceIsFree(a, used, |blocks|);
    MovedCount(used, blocks, Place(a, used, |blocks|));
  }

  /** As many blocks are in use after all moves as before if and only if each file's
      blocks were in use at its turn. */
  lemma {:induction false} AfterAllCount(a: Area, used: set<nat>, files: seq<seq<nat>>)
    requires a.minvld > 0 && Files(files) && AllInside(a, used, files)
    ensures |AfterAll(a, used, files)| >= |used|
    ensures |AfterAll(a, used, files)| == |used| <==> EachInUse(a, used, files)
    decreases |files|
  {
    if files != [] {
      AfterCount(a, used, files[0]);
      AfterAllCount(a, After(a, used, files[0]), files[1..]);
    }
  }

  /** Files that share no block with each other. */
  ghost predicate Separate(files: seq<seq<nat>>) {
    forall i, j :: 0 <= i < j < |files| ==> SetOf(files[i]) !! SetOf(files[j])
  }

  ghost predicate AllWithin(used: set<nat>, files: seq<seq<nat>>) {
    forall i :: 0 <= i < |files| ==> SetOf(files[i]) <= used
  }

  /** Separate files in use stay in use until their turn. */
  lemma {:induction false} SeparateFilesInUse(a: Area, used: set<nat>, files: seq<seq<nat>>)
    requires Separate(files) && AllWithin(used, files)
    ensures EachInUse(a, used, files)
    decreases |files|
  {
    if files != [] {
      var rest := files[1..];
      forall i | 0 <= i < |rest| ensures SetOf(rest[i]) <= After(a, used, files[0]) {
        assert SetOf(files[0]) !! SetOf(files[i + 1]) && SetOf(files[i + 1]) <= used;
      }
      forall i, j | 0 <= i < j < |rest| ensures SetOf(rest[i]) !! SetOf(rest[j]) {
        assert SetOf(files[i + 1]) !! SetOf(files[j + 1]);
      }
      SeparateFilesInUse(a, After(a, used, files[0]), rest);
    }
  }

  /** The blocks of a file that has moved are free. */
  lemma OwnBlocksFreed(a: Area, used: set<nat>, blocks: seq<nat>)
    requires a.minvld > 0 && blocks != [] && Distinct(blocks) && SetOf(blocks) <= used
    requires PlacedInside(a, used, |blocks|) && Place(a, used, |blocks|) != 0
    ensures After(a, used, blocks) !! SetOf(blocks) && |After(a, used, blocks)| == |used|
  {
    PlaceIsFree(a, used, |blocks|);
    AfterCount(a, used, blocks);
  }

  lemma MovedWithoutOwning(a: Area, used: set<nat>, blocks: seq<nat>)
    requires a.minvld > 0 && blocks != [] && Distinct(blocks) && SetOf(blocks) !! used
    requires PlacedInside(a, used, |blocks|) && Place(a, used, |blocks|) != 0
    ensures |After(a, used, blocks)| == |used| + |blocks|
  {
    PlaceIsFree(a, used, |blocks|);
    MovedDisjoint(used, blocks, Place(a, used, |blocks|));
  }

  lemma FirstMove(a: Area, used: set<nat>, first: seq<nat>, rest: seq<seq<nat>>)
    ensures AfterAll(a, used, [first] + rest) == AfterAll(a, After(a, used, first), rest)
    ensures AllInside(a, used, [first] + rest)
            <==> PlacedInside(a, used, |first|) && AllInside(a, After(a, used, first), rest)
  {
    assert ([first] + rest)[1..] == rest;
  }

  lemma TwoMoves(a: Area, used: set<nat>, first: seq<nat>, second: seq<nat>)
    ensures AfterAll(a, used, [first, second]) == After(a, After(a, used, first), second)
    ensures AllInside(a, used, [first, second])
            <==> PlacedInside(a, used, |first|) && PlacedInside(a, After(a, used, first), |second|)
  {
    assert [first, second] == [first] + [second] && [second] == [second] + [];
    FirstMove(a, used, first, [second]);
    FirstMove(a, After(a, used, first), second, []);
  }

  /** A file that is listed twice, as one with two names is: when both moves find a
      place, its blocks are counted twice in the end. */
  lemma ListedTwice(a: Area, used: set<nat>, blocks: seq<nat>)
    requires a.minvld > 0 && blocks != [] && Distinct(blocks) && SetOf(blocks) <= used
    requires AllInside(a, used, [blocks, blocks])
    requires Place(a, used, |blocks|) != 0 && Place(a, After(a, used, blocks), |blocks|) != 0
    ensures |AfterAll(a, used, [blocks, blocks])| == |used| + |blocks|
  {
    TwoMoves(a, used, blocks, blocks);
    OwnBlocksFreed(a, used, blocks);
    MovedWithoutOwning(a, After(a, used, blocks), blocks);
  }

  /** With nothing or an odd byte before the map no run reaches back before it. */
  lemma {:induction false} OddGuardInside(a: Area, used: set<nat>, files: seq<seq<nat>>)
    requires a.guard == 0 || a.guard & 1 == 1
    ensures AllInside(a, used, files)
    decreases |files|
  {
    if files != [] {
      OddGuardInside(a, After(a, used, files[0]), files[1..]);
    }
  }

  ghost predicate AllUpTo(blocks: seq<nat>, last: nat) {
    forall i :: 0 <= i < |blocks| ==> blocks[i] <= last
  }

  function Beyond(used: set<nat>, last: nat): set<nat> { set b | b in used && b > last }

  lemma AfterBeyond(a: Area, used: set<nat>, blocks: seq<nat>, last: nat)
    requires a.minvld > 0 && blocks != [] && PlacedInside(a, used, |blocks|)
    requires AllUpTo(blocks, last)
    ensures Beyond(used, last) <= Beyond(After(a, used, blocks), last)
    ensures Beyond(used, last) == Beyond(After(a, used, blocks), last)
            <==> Place(a, used, |blocks|) == 0 || Place(a, used, |blocks|) + |blocks| - 1 <= last
  {
    var t := Place(a, used, |blocks|);
    PlaceIsFree(a, used, |blocks|);
    if t != 0 && t + |blocks| - 1 > last {
      assert t + |blocks| - 1 in Beyond(After(a, used, blocks), last);
    }
  }

  /** No block behind the last valid one comes into use if and only if every run ends
      at it or before it. */
  lemma {:induction false} AfterAllBeyond(a: Area, used: set<nat>, files: seq<seq<nat>>, last: nat)
    requires a.minvld > 0 && Files(files) && AllInside(a, used, files)
    requires forall i :: 0 <= i < |files| ==> AllUpTo(files[i], last)
    ensures Beyond(used, last) <= Beyond(AfterAll(a, used, files), last)
    ensures Beyond(used, last) == Beyond(AfterAll(a, used, files), last) <==> AllEndBy(a, used, files, last)
    decreases |files|
  {
    if files != [] {
      AfterBeyond(a, used, files[0], last);
      AfterAllBeyond(a, After(a, used, files[0]), files[1..], last);
    }
  }

  // ---------- the moves themselves ----------

  /** The map of a disk, as the moves see it. */
  function AreaOf(m: BlockMap): Area
    requires m.Valid()
    reads m.mem
  {
    Area(m.minvld, m.mapsize, m.mem[m.base - 1])
  }

  lemma {:induction false} NumbersAt(cs: seq<Claim>)
    ensures |BlockNumbers(cs)| == |cs|
    ensures forall i :: 0 <= i < |cs| ==> BlockNumbers(cs)[i] == cs[i].block
  {
    if cs != [] {
      NumbersAt(cs[1..]);
    }
  }

  lemma NumbersOf(cs: seq<Claim>)
    ensures SetOf(BlockNumbers(cs)) == BlocksOf(cs)
    ensures NoneTwice(cs) ==> Distinct(BlockNumbers(cs))
  {
    var bs := BlockNumbers(cs);
    NumbersAt(cs);
    forall b ensures b in SetOf(bs) <==> b in BlocksOf(cs) {
      if b in bs {
        var i :| 0 <= i < |bs| && bs[i] == b;
        assert cs[i].block == b;
      }
      if b in BlocksOf(cs) {
        var i :| 0 <= i < |cs| && cs[i].block == b;
        assert bs[i] == b;
      }
    }
  }

  /** The block lists of some files, where f says what each descriptor claims. */
  function Lists(f: nat -> seq<Claim>, fdns: seq<nat>): (files: seq<seq<nat>>)
    ensures |files| == |fdns| && forall i :: 0 <= i < |fdns| ==> files[i] == BlockNumbers(f(fdns[i]))
  {
    if fdns == [] then [] else [BlockNumbers(f(fdns[0]))] + Lists(f, fdns[1..])
  }

  /** A sound disk whose blocks are all marked. Other blocks may be marked as well:
      those of the swap area, and those that clearing the map left. */
  ghost predicate MapBuilt(g: Disk, f: nat -> seq<Claim>, total: nat, used: set<nat>) {
    Acceptable(g, {}, Gather(f, total)) && BlocksOf(Gather(f, total)) <= used
  }

  /** Files that the defragmenter can list: they have blocks, and not too many. */
  ghost predicate Listable(f: nat -> seq<Claim>, total: nat, fdns: seq<nat>) {
    forall i :: 0 <= i < |fdns| ==> fdns[i] < total && 0 < |f(fdns[i])| <= 16384
  }

  lemma SoundFiles(g: Disk, f: nat -> seq<Claim>, total: nat, fdns: seq<nat>, used: set<nat>)
    requires MapBuilt(g, f, total, used) && Listable(f, total, fdns)
    ensures Files(Lists(f, fdns)) && AllWithin(used, Lists(f, fdns))
    ensures forall i :: 0 <= i < |fdns| ==> AllUpTo(Lists(f, fdns)[i], g.maxvld)
    ensures forall i :: 0 <= i < |fdns| ==> Acceptable(g, {}, f(fdns[i]))
  {
    var files := Lists(f, fdns);
    forall i | 0 <= i < |fdns|
      ensures files[i] != [] && Distinct(files[i]) && SetOf(files[i]) <= used
      ensures AllUpTo(files[i], g.maxvld) && Acceptable(g, {}, f(fdns[i]))
    {
      OneFilesClaims(g, f, total, fdns[i]);
      NumbersOf(f(fdns[i]));
      NumbersAt(f(fdns[i]));
    }
  }

  /** Different files of a sound disk are separate. */
  lemma SeparateFiles(g: Disk, f: nat -> seq<Claim>, total: nat, fdns: seq<nat>, used: set<nat>)
    requires MapBuilt(g, f, total, used) && Listable(f, total, fdns) && Distinct(fdns)
    ensures Separate(Lists(f, fdns))
  {
    var files := Lists(f, fdns);
    forall i, j | 0 <= i < j < |fdns| ensures SetOf(files[i]) !! SetOf(files[j]) {
      var n, m := fdns[i], fdns[j];
      NumbersOf(f(n));
      NumbersOf(f(m));
      if n < m {
        TwoFilesClaims(g, f, total, n, m);
      } else {
        TwoFilesClaims(g, f, total, m, n);
      }
    }
  }

  /** Moving different files of a sound disk keeps the number of blocks in use. */
  lemma DifferentFilesKeepCount(g: Disk, f: nat -> seq<Claim>, total: nat, fdns: seq<nat>, a: Area, used: set<nat>)
    requires MapBuilt(g, f, total, used) && Listable(f, total, fdns) && Distinct(fdns)
    requires a.minvld > 0 && AllInside(a, used, Lists(f, fdns))
    ensures |AfterAll(a, used, Lists(f, fdns))| == |used|
  {
    SoundFiles(g, f, total, fdns, used);
    SeparateFiles(g, f, total, fdns, used);
    SeparateFilesInUse(a, used, Lists(f, fdns));
    AfterAllCount(a, used, Lists(f, fdns));
  }

  /** f says what these files claim, all of them regular. */
  ghost predicate RegularFiles(g: Disk, f: nat -> seq<Claim>, fdns: seq<nat>) {
    forall i {:trigger fdns[i]} :: 0 <= i < |fdns| ==>
      FileType(Fdn(g, fdns[i])) == S_IFREG && f(fdns[i]) == FileClaims(g, BlockList(Fdn(g, fdns[i])))
  }

  ghost predicate AllRegular(g: Disk, fdns: seq<nat>) {
    forall i {:trigger fdns[i]} :: 0 <= i < |fdns| ==> FileType(Fdn(g, fdns[i])) == S_IFREG
  }

  lemma ClaimsAreRegular(g: Disk, f: nat -> seq<Claim>, fdns: seq<nat>)
    requires AllRegular(g, fdns) && f == ClaimsAt(g)
    ensures RegularFiles(g, f, fdns)
  {
  }

  /** Ready to move a file of at most `room` blocks, with these blocks in use. */
  ghost predicate MapReady(m: BlockMap, a: Area, room: nat, used: set<nat>)
    reads m.mem
  {
    Guarded(m, room) && AreaOf(m) == a && a.minvld > 0 && m.Marked() == used
  }

  /** Ready to list it as well. */
  ghost predicate Ready(d: Defragmenter, a: Area, room: nat, used: set<nat>)
    reads d, d.bits.mem
  {
    d.Valid() && d.Now().clean && d.g.maxvld < 0x1_0000 && MapReady(d.bits, a, room, used)
  }

  /** Equal memory is as ready as before. */
  lemma SameMemory(m: BlockMap, before: seq<bv8>, a: Area, room: nat, used: set<nat>)
    requires m.Valid() && m.mem[..] == before
    ensures MapReady(m, a, room, used)
            <==> m.base + m.mapsize + Bytes8(room) <= |before| && m.base + m.mapsize < |before|
                 && before[m.base + m.mapsize] != 0 && a == Area(m.minvld, m.mapsize, before[m.base - 1])
                 && a.minvld > 0 && Used(before[m.base..m.base + m.mapsize], m.minvld) == used
  {
    assert m.Map() == m.mem[..][m.base..m.base + m.mapsize];
    assert m.mem[..][m.base - 1] == m.mem[m.base - 1];
    if m.base + m.mapsize < |before| {
      assert m.mem[..][m.base + m.mapsize] == m.mem[m.base + m.mapsize];
    }
  }

  /** Lists the blocks of a regular file, without touching the map. */
  method ListFile(d: Defragmenter, fdn: seq<byte>, ghost cs: seq<Claim>, ghost a: Area, ghost room: nat, ghost used: set<nat>)
    requires Ready(d, a, room, used) && |fdn| == FDNSIZ && cs == FileClaims(d.g, BlockList(fdn))
    requires |cs| <= 16384 && AllInRange(d.g, cs)
    modifies d, d.bits.mem
    ensures d.blocks == BlockNumbers(cs) && Ready(d, a, room, used)
  {
    ghost var before := d.bits.mem[..];
    SameMemory(d.bits, before, a, room, used);
    ListedAll([], cs);
    d.mode := BuildFile;
    var err := d.MarkInMap(fdn);
    SameMemory(d.bits, before, a, room, used);
    assert [] + BlockNumbers(cs) == BlockNumbers(cs);
  }

  lemma FromMap(m: BlockMap, a: Area, room: nat, used: set<nat>)
    requires MapReady(m, a, room, used)
    ensures MapOf(used, a.minvld, a.mapsize) == m.Map()
  {
    MapOfUsed(m.Map(), m.minvld);
  }

  /** Moves one list of blocks. */
  method MoveBlocks(m: BlockMap, blocks: seq<nat>, ghost a: Area, ghost room: nat, ghost used: set<nat>)
    returns (newaddr: int, wrong: bool)
    requires MapReady(m, a, room, used) && 0 < |blocks| <= room && Candidate(m, blocks)
    requires PlacedInside(a, used, |blocks|)
    modifies m.mem
    ensures newaddr == Place(a, used, |blocks|) && !wrong
    ensures newaddr != 0 ==> newaddr >= a.minvld && used !! Run(newaddr, |blocks|)
    ensures MapReady(m, a, room, After(a, used, blocks))
  {
    FromMap(m, a, room, used);
    ghost var outside := m.Outside();
    newaddr, wrong := MoveCandidate(m, blocks);
    assert m.Outside().0[m.base - 1] == outside.0[m.base - 1] && m.Outside().1[0] == outside.1[0];
  }

  lemma FileIsCandidate(d: Defragmenter, cs: seq<Claim>)
    requires d.Valid() && Acceptable(d.g, {}, cs)
    ensures Candidate(d.bits, BlockNumbers(cs)) && |BlockNumbers(cs)| == |cs|
  {
    NumbersAt(cs);
  }

  /** Lists the blocks of one file and moves them. */
  method MoveFile(d: Defragmenter, n: nat, ghost cs: seq<Claim>, ghost a: Area, ghost room: nat, ghost used: set<nat>)
    returns (newaddr: int, wrong: bool)
    requires Ready(d, a, room, used) && 0 < |cs| <= room && |cs| <= 16384
    requires cs == FileClaims(d.g, BlockList(Fdn(d.g, n))) && Acceptable(d.g, {}, cs)
    requires PlacedInside(a, used, |cs|)
    modifies d, d.bits.mem
    ensures newaddr == Place(a, used, |cs|) && !wrong
    ensures newaddr != 0 ==> newaddr >= a.minvld && used !! Run(newaddr, |cs|)
    ensures Ready(d, a, room, After(a, used, BlockNumbers(cs)))
  {
    FileIsCandidate(d, cs);
    ListFile(d, Fdn(d.g, n), cs, a, room, used);
    newaddr, wrong := MoveBlocks(d.bits, d.blocks, a, room, used);
  }

  /** The files still to be moved lead to the goal. */
  ghost predicate Leads(a: Area, used: set<nat>, rest: seq<seq<nat>>, goal: set<nat>) {
    AllInside(a, used, rest) && AfterAll(a, used, rest) == goal
  }

  lemma LeadsOn(a: Area, used: set<nat>, files: seq<seq<nat>>, i: nat, goal: set<nat>)
    requires i < |files| && Leads(a, used, files[i..], goal)
    ensures PlacedInside(a, used, |files[i]|) && Leads(a, After(a, used, files[i]), files[i + 1..], goal)
  {
    assert files[i..] == [files[i]] + files[i + 1..];
    FirstMove(a, used, files[i], files[i + 1..]);
  }

  /** Lists and moves all candidates. On a sound disk whose blocks are all marked
      nothing collides. Different candidates keep the number of blocks in use, and
      blocks behind the last valid one come into use exactly when some run ends there. */
  method MoveFiles(d: Defragmenter, fdns: seq<nat>, ghost f: nat -> seq<Claim>, ghost total: nat,
                   ghost a: Area, ghost room: nat, ghost used: set<nat>)
    returns (wrong: bool)
    requires Ready(d, a, room, used) && MapBuilt(d.g, f, total, used)
    requires RegularFiles(d.g, f, fdns) && Listable(f, total, fdns) && forall i :: 0 <= i < |fdns| ==> |f(fdns[i])| <= room
    requires AllInside(a, used, Lists(f, fdns))
    modifies d, d.bits.mem
    ensures !wrong && Ready(d, a, room, AfterAll(a, used, Lists(f, fdns)))
    ensures Distinct(fdns) ==> |AfterAll(a, used, Lists(f, fdns))| == |used|
    ensures Beyond(used, d.g.maxvld) == Beyond(AfterAll(a, used, Lists(f, fdns)), d.g.maxvld)
            <==> AllEndBy(a, used, Lists(f, fdns), d.g.maxvld)
  {
    ghost var files := Lists(f, fdns);
    SoundFiles(d.g, f, total, fdns, used);
    wrong := MoveEach(d, fdns, f, files, a, room, used);
    if Distinct(fdns) {
      DifferentFilesKeepCount(d.g, f, total, fdns, a, used);
    }
    AfterAllBeyond(a, used, files, d.g.maxvld);
  }

  /** What moving one file after the other needs to know of the files. */
  ghost predicate Movable(g: Disk, f: nat -> seq<Claim>, fdns: seq<nat>, files: seq<seq<nat>>, room: nat) {
    && |files| == |fdns|
    && forall i {:trigger fdns[i]} {:trigger files[i]} :: 0 <= i < |fdns| ==> MovableFile(g, f(fdns[i]), fdns[i], files[i], room)
  }

  ghost predicate MovableFile(g: Disk, cs: seq<Claim>, n: nat, file: seq<nat>, room: nat) {
    && file == BlockNumbers(cs) && 0 < |cs| <= room && |cs| <= 16384
    && cs == FileClaims(g, BlockList(Fdn(g, n))) && Acceptable(g, {}, cs)
  }

  method MoveEach(d: Defragmenter, fdns: seq<nat>, ghost f: nat -> seq<Claim>, ghost files: seq<seq<nat>>,
                  ghost a: Area, ghost room: nat, ghost used: set<nat>)
    returns (wrong: bool)
    requires Ready(d, a, room, used) && Movable(d.g, f, fdns, files, room) && AllInside(a, used, files)
    modifies d, d.bits.mem
    ensures !wrong && Ready(d, a, room, AfterAll(a, used, files))
  {
    wrong := false;
    ghost var now, goal := used, AfterAll(a, used, files);
    assert files[0..] == files;
    for i := 0 to |fdns|
      invariant !wrong && Ready(d, a, room, now) && Leads(a, now, files[i..], goal)
    {
      LeadsOn(a, now, files, i, goal);
      NumbersAt(f(fdns[i]));
      var newaddr, clash := MoveFile(d, fdns[i], f(fdns[i]), a, room, now);
      wrong := wrong || clash;
      now := After(a, now, files[i]);
    }
    assert files[|files|..] == [];
  }

  lemma StillGuarded(m: BlockMap, outside: (seq<bv8>, seq<bv8>), room: nat)
    requires m.Valid() && m.Outside() == outside
    ensures Guarded(m, room) <==> |outside.1| > 0 && Bytes8(room) <= |outside.1| && outside.1[0] != 0
    ensures m.mem[m.base - 1] == outside.0[m.base - 1]
  {
  }

  /** What is marked when the moves begin: what clearing left, what the disk claims, and
      the swap area. */
  function InitialMarks(left: set<nat>, claims: seq<Claim>, swapbeg: nat, swapsize: nat): set<nat> {
    left + BlocksOf(claims) + Run(swapbeg, swapsize)
  }

  /** A block is in use at first when clearing left its bit, when it is in the swap area,
      or when a descriptor of the disk leads to it. */
  lemma MarkedAtFirst(g: Disk, f: nat -> seq<Claim>, total: nat, left: set<nat>, swapbeg: nat, swapsize: nat, b: nat)
    requires Acceptable(g, {}, Gather(f, total)) && f == ClaimsAt(g)
    ensures b in InitialMarks(left, Gather(f, total), swapbeg, swapsize) <==>
              b in left || swapbeg <= b < swapbeg + swapsize || exists n: nat :: n < total && Owns(g, n, b)
  {
    ClaimedMeans(g, f, total, b);
  }

  /** The memory in which the map is built, and the swap area. */
  ghost predicate Prepared(d: Defragmenter, a: Area, room: nat, swapbeg: nat, swapsize: nat)
    reads d, d.bits.mem
  {
    && d.Valid() && Guarded(d.bits, room) && AreaOf(d.bits) == a && a.minvld > 0 && d.g.maxvld < 0x1_0000
    && a.minvld <= swapbeg && swapbeg + swapsize <= a.minvld + 8 * a.mapsize
  }

  /** Marks the swap area. */
  method MarkArea(m: BlockMap, swapbeg: nat, swapsize: nat, ghost a: Area, ghost room: nat, ghost used: set<nat>)
    requires MapReady(m, a, room, used) && a.minvld <= swapbeg && swapbeg + swapsize <= a.minvld + 8 * a.mapsize
    modifies m.mem
    ensures MapReady(m, a, room, used + Run(swapbeg, swapsize))
  {
    ghost var outside := m.Outside();
    StillGuarded(m, outside, room);
    var ignored := MarkRun(m, swapbeg, swapsize);
    StillGuarded(m, outside, room);
  }

  /** Marks the swap area of a disk that was found sound. */
  method MarkSwap(d: Defragmenter, swapbeg: nat, swapsize: nat, ghost a: Area, ghost room: nat, ghost used: set<nat>)
    requires Ready(d, a, room, used) && a.minvld <= swapbeg && swapbeg + swapsize <= a.minvld + 8 * a.mapsize
    modifies d.bits.mem
    ensures Ready(d, a, room, used + Run(swapbeg, swapsize))
  {
    MarkArea(d.bits, swapbeg, swapsize, a, room, used);
  }

  /** Checks the disk; when nothing is wrong with it the moves can begin. */
  method Check(d: Defragmenter, sszfdn: nat, ghost a: Area, ghost room: nat, ghost left: set<nat>, ghost claims: seq<Claim>)
    returns (bad: bool)
    requires d.Valid() && Guarded(d.bits, room) && AreaOf(d.bits) == a && a.minvld > 0 && d.g.maxvld < 0x1_0000
    requires left == LeftOver(d.bits.Map(), d.bits.minvld) && claims == DiskClaims(d.g, FDNPB * sszfdn)
    modifies d, d.bits.mem
    ensures !bad <==> Acceptable(d.g, {}, claims) && BlocksOf(claims) !! left
    ensures !bad ==> Ready(d, a, room, left + BlocksOf(claims))
  {
    ghost var outside := d.bits.Outside();
    StillGuarded(d.bits, outside, room);
    bad := BuildsFdnsMap(d, sszfdn, left, claims);
    StillGuarded(d.bits, outside, room);
  }

  /** The whole run: checks the disk, and moves the candidates unless something is wrong
      with it. */
  method CheckAndMove(d: Defragmenter, sszfdn: nat, swapbeg: nat, swapsize: nat, fdns: seq<nat>, ghost a: Area,
                      ghost room: nat, ghost f: nat -> seq<Claim>, ghost used: set<nat>)
    returns (bad: bool, wrong: bool)
    requires Prepared(d, a, room, swapbeg, swapsize) && f == ClaimsAt(d.g)
    requires used == InitialMarks(LeftOver(d.bits.Map(), a.minvld), Gather(f, FDNPB * sszfdn), swapbeg, swapsize)
    requires AllRegular(d.g, fdns) && Listable(f, FDNPB * sszfdn, fdns) && forall i :: 0 <= i < |fdns| ==> |f(fdns[i])| <= room
    requires AllInside(a, used, Lists(f, fdns))
    modifies d, d.bits.mem
    ensures var claims := Gather(f, FDNPB * sszfdn);
            !bad <==> Acceptable(d.g, {}, claims) && BlocksOf(claims) !! LeftOver(old(d.bits.Map()), a.minvld)
    ensures !bad ==> !wrong && d.bits.Marked() == AfterAll(a, used, Lists(f, fdns))
    ensures !bad && Distinct(fdns) ==> |d.bits.Marked()| == |used|
    ensures !bad ==> (Beyond(d.bits.Marked(), d.g.maxvld) == Beyond(used, d.g.maxvld)
                      <==> AllEndBy(a, used, Lists(f, fdns), d.g.maxvld))
  {
    wrong := false;
    ClaimsAreRegular(d.g, f, fdns);
    ghost var left, claims := LeftOver(d.bits.Map(), d.bits.minvld), Gather(f, FDNPB * sszfdn);
    bad := Check(d, sszfdn, a, room, left, claims);
    if !bad {
      MarkSwap(d, swapbeg, swapsize, a, room, left + BlocksOf(claims));
      wrong := MoveFiles(d, fdns, f, FDNPB * sszfdn, a, room, used);
    }
  }

  // ---------- copying the blocks of a file ----------

  /** A disk that is written to. */
  class Device {
    var read: nat -> Block

    constructor (read: nat -> Block)
      ensures this.read == read
    {
      this.read := read;
    }

    method Wtblk(b: nat, contents: Block)
      modifies this
      ensures forall n :: read(n) == if n == b then contents else old(read(n))
    {
      var was := read;
      read := (n: nat) => if n == b then contents else was(n);
    }
  }

  /** A run of n blocks holds what one block held, and all others are as before. */
  ghost predicate RunFilled(before: nat -> Block, after: nat -> Block, newaddr: nat, n: nat, source: nat) {
    forall b: nat :: after(b) == before(if newaddr <= b < newaddr + n then source else b)
  }

  /** Copies a file of n blocks to a run. Which block is read does not depend on which is
      written: it is always the one that stands in the list at the candidate's own
      number. So the whole run gets the contents of that block. */
  method CopyBlocks(dev: Device, source: nat, newaddr: nat, n: nat)
    modifies dev
    ensures RunFilled(old(dev.read), dev.read, newaddr, n, source)
  {
    ghost var before := dev.read;
    for j := 0 to n
      invariant RunFilled(before, dev.read, newaddr, j, source)
    {
      var buffer := dev.read(source);
      dev.Wtblk(newaddr + j, buffer);
    }
  }

  /** The run holds the contents of the file if and only if all blocks of the file have
      the contents of the one that is read. */
  lemma CopyKeepsContents(before: nat -> Block, after: nat -> Block, blocks: seq<nat>, source: nat, newaddr: nat)
    requires RunFilled(before, after, newaddr, |blocks|, source)
    ensures (forall j {:trigger blocks[j]} :: 0 <= j < |blocks| ==> after(newaddr + j) == before(blocks[j]))
            <==> (forall j {:trigger blocks[j]} :: 0 <= j < |blocks| ==> before(blocks[j]) == before(source))
  {
  }

  /** A file of the blocks 2 and 3, which differ, moved to blocks 5 and 6 as the first
      candidate: the second block is lost. */
  lemma SecondBlockLost(after: nat -> Block)
    requires RunFilled(SmallDiskBlock, after, 5, 2, 2)
    ensures after(6) != SmallDiskBlock(3)
  {
    assert after(6) == SmallDiskBlock(2);
    assert SmallDiskBlock(2)[0] == S_IFREG && SmallDiskBlock(3)[0] == 0;
  }
}
