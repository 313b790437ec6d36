/** Building the map of used blocks from every file descriptor on the disk. */
module DiskCheck {
  import opened Bytes
  import opened BlockTree
  import opened Bitmap
  import opened Defrag

  const FDNPB := 8  // descriptors in a block

  /** Descriptor number n, counting from 0: eight to a block, from block 2 on. */
  function Fdn(g: Disk, n: nat): (fdn: seq<byte>)
    ensures |fdn| == FDNSIZ
  {
    g.read(n / FDNPB + 2)[n % FDNPB * FDNSIZ..(n % FDNPB + 1) * FDNSIZ]
  }

  /** The file type bits of a descriptor: its mode byte under the mask 0xCF. */
  function FileType(fdn: seq<byte>): nat
    requires |fdn| == FDNSIZ
  {
    fdn[0] / 64 * 64 + fdn[0] % 16
  }

  const S_IFREG := 0x01
  const S_IFDIR := 0x09

  /** What one descriptor claims: only regular files and directories have blocks. */
  function FdnClaims(g: Disk, fdn: seq<byte>): seq<Claim>
    requires |fdn| == FDNSIZ
  {
    if FileType(fdn) in {S_IFREG, S_IFDIR} then FileClaims(g, BlockList(fdn)) else []
  }

  /** The first n of a series of lists, one after the other. */
  function Gather(f: nat -> seq<Claim>, n: nat): seq<Claim> {
    if n == 0 then [] else Gather(f, n - 1) + f(n - 1)
  }

  /** What each descriptor of a disk claims. */
  function ClaimsAt(g: Disk): nat -> seq<Claim> { (n: nat) => FdnClaims(g, Fdn(g, n)) }

  /** What the first n descriptors claim. */
  function DiskClaims(g: Disk, n: nat): seq<Claim> { Gather(ClaimsAt(g), n) }

  /** In map-building mode the list of blocks does not affect what fits. */
  lemma WalkedFrom(g: Disk, cs: seq<Claim>, s: Snapshot, t: Snapshot)
    requires Walked(g, BuildMap, cs, s.(blocks := []), t)
    ensures t.clean <==> s.clean && Acceptable(g, s.used, cs)
    ensures t.clean ==> t.used == s.used + BlocksOf(cs)
  {
  }

  /** A regular file or a directory: the mode byte under the mask 0xCF is 0x01 or 0x09. */
  predicate HasBlocks(fdn: seq<byte>) {
    fdn != [] && fdn[0] in {0x01, 0x11, 0x21, 0x31, 0x09, 0x19, 0x29, 0x39}
  }

  lemma ModeMeans(mode: byte)
    ensures mode / 64 * 64 + mode % 16 in {0x01, 0x09} <==> mode in {0x01, 0x11, 0x21, 0x31, 0x09, 0x19, 0x29, 0x39}
  {
    assert mode == 64 * (mode / 64) + 16 * (mode / 16 % 4) + mode % 16;
  }

  /** Marks the blocks of one descriptor. */
  method CheckFdn(d: Defragmenter, fdn: seq<byte>)
    requires d.Valid() && d.mode == BuildMap && |fdn| == FDNSIZ
    modifies d, d.bits.mem
    ensures d.mode == BuildMap && d.bits.Outside() == old(d.bits.Outside())
    ensures !HasBlocks(fdn) ==> d.Now() == old(d.Now())
    ensures HasBlocks(fdn) ==> (d.Now().clean <==> old(d.Now()).clean
                                                   && Acceptable(d.g, old(d.Now()).used, FileClaims(d.g, BlockList(fdn))))
    ensures HasBlocks(fdn) && d.Now().clean ==> d.Now().used == old(d.Now()).used + BlocksOf(FileClaims(d.g, BlockList(fdn)))
  {
    ghost var s := d.Now();
    ModeMeans(fdn[0]);
    var filetype := FileType(fdn);
    if filetype == S_IFREG || filetype == S_IFDIR {
      var err := d.MarkInMap(fdn);
      WalkedFrom(d.g, FileClaims(d.g, BlockList(fdn)), s, d.Now());
    }
  }

  /** The state of the check after n descriptors, where f says what each one claims. */
  ghost predicate Checked(g: Disk, f: nat -> seq<Claim>, missed: set<nat>, n: nat, s: Snapshot) {
    && (s.clean <==> Acceptable(g, missed, Gather(f, n)))
    && (s.clean ==> s.used == missed + BlocksOf(Gather(f, n)))
  }

  lemma CheckedNone(g: Disk, f: nat -> seq<Claim>, missed: set<nat>, s: Snapshot)
    requires s.clean && s.used == missed
    ensures Checked(g, f, missed, 0, s)
  {
    assert missed + BlocksOf([]) == missed;
  }

  lemma CheckedNext(g: Disk, f: nat -> seq<Claim>, missed: set<nat>, n: nat, s: Snapshot, t: Snapshot)
    requires Checked(g, f, missed, n, s)
    requires t.clean <==> s.clean && Acceptable(g, s.used, f(n))
    requires t.clean ==> t.used == s.used + BlocksOf(f(n))
    ensures Checked(g, f, missed, n + 1, t)
  {
    AcceptableAppend(g, missed, Gather(f, n), f(n));
    BlocksOfAppend(Gather(f, n), f(n));
  }

  lemma FdnInBlock(g: Disk, fdnbno: nat, n: nat, k: nat)
    requires n == FDNPB * fdnbno && k < FDNPB
    ensures Fdn(g, n + k) == g.read(fdnbno + 2)[k * FDNSIZ..(k + 1) * FDNSIZ]
  {
    assert (n + k) / FDNPB == fdnbno && (n + k) % FDNPB == k;
  }

  /** f says what the descriptors in this block claim, the first of them being n. */
  ghost predicate Describes(g: Disk, f: nat -> seq<Claim>, n: nat, fdnbuf: Block) {
    forall k :: 0 <= k < FDNPB ==> f(n + k) == FdnClaims(g, fdnbuf[k * FDNSIZ..(k + 1) * FDNSIZ])
  }

  lemma BlockDescriptors(g: Disk, fdnbno: nat, n: nat)
    requires n == FDNPB * fdnbno
    ensures Describes(g, ClaimsAt(g), n, g.read(fdnbno + 2))
  {
    forall k | 0 <= k < FDNPB
      ensures ClaimsAt(g)(n + k) == FdnClaims(g, g.read(fdnbno + 2)[k * FDNSIZ..(k + 1) * FDNSIZ])
    {
      BlockDescriptor(g, fdnbno, n, k);
    }
  }

  lemma BlockDescriptor(g: Disk, fdnbno: nat, n: nat, k: nat)
    requires n == FDNPB * fdnbno && k < FDNPB
    ensures ClaimsAt(g)(n + k) == FdnClaims(g, g.read(fdnbno + 2)[k * FDNSIZ..(k + 1) * FDNSIZ])
  {
    FdnInBlock(g, fdnbno, n, k);
  }

  /** The map is being built and n descriptors have been checked. */
  ghost predicate Building(d: Defragmenter, f: nat -> seq<Claim>, missed: set<nat>, n: nat)
    reads d, d.bits.mem
  {
    d.Valid() && d.mode == BuildMap && Checked(d.g, f, missed, n, d.Now())
  }

  /** Checks descriptor k of a block, of which descriptor n is the first. */
  method CheckNext(d: Defragmenter, fdnbuf: Block, k: nat, ghost f: nat -> seq<Claim>, ghost n: nat, ghost missed: set<nat>)
    requires Building(d, f, missed, n + k) && k < FDNPB && Describes(d.g, f, n, fdnbuf)
    modifies d, d.bits.mem
    ensures Building(d, f, missed, n + k + 1) && d.bits.Outside() == old(d.bits.Outside())
  {
    ghost var s := d.Now();
    assert f(n + k) == FdnClaims(d.g, fdnbuf[k * FDNSIZ..(k + 1) * FDNSIZ]);
    CheckFdn(d, fdnbuf[k * FDNSIZ..(k + 1) * FDNSIZ]);
    ModeMeans(fdnbuf[k * FDNSIZ..(k + 1) * FDNSIZ][0]);
    CheckedNext(d.g, f, missed, n + k, s, d.Now());
  }

  /** Checks the eight descriptors of a block, of which descriptor n is the first. */
  method CheckFdnBlock(d: Defragmenter, fdnbuf: Block, ghost f: nat -> seq<Claim>, ghost n: nat, ghost missed: set<nat>)
    requires Building(d, f, missed, n)
    requires Describes(d.g, f, n, fdnbuf)
    modifies d, d.bits.mem
    ensures Building(d, f, missed, n + FDNPB) && d.bits.Outside() == old(d.bits.Outside())
  {
    for k := 0 to FDNPB
      invariant Building(d, f, missed, n + k) && d.bits.Outside() == old(d.bits.Outside())
    {
      CheckNext(d, fdnbuf, k, f, n, missed);
    }
  }

  /** Clears the map, up to the blocks behind its last whole group of four bytes. */
  method StartMap(d: Defragmenter)
    requires d.Valid()
    modifies d, d.bits.mem
    ensures Building(d, ClaimsAt(d.g), LeftOver(old(d.bits.Map()), d.bits.minvld), 0) && d.bits.Outside() == old(d.bits.Outside())
  {
    d.dupsCnt, d.oorsCnt, d.dupblks, d.oorblks := 0, 0, 0, 0;
    d.mode := BuildMap;
    d.bits.ClearMap();
    CheckedNone(d.g, ClaimsAt(d.g), d.bits.Marked(), d.Now());
  }

  /** New claims are sound claims that meet no block in use. */
  lemma AcceptableIffSound(g: Disk, used: set<nat>, cs: seq<Claim>)
    ensures Acceptable(g, used, cs) <==> Acceptable(g, {}, cs) && BlocksOf(cs) !! used
  {
    if BlocksOf(cs) !! used {
      forall i | 0 <= i < |cs| ensures cs[i].block !in used {
        assert cs[i].block in BlocksOf(cs);
      }
    }
  }

  /** f says what every descriptor of the disk claims. */
  ghost predicate DescribesDisk(g: Disk, f: nat -> seq<Claim>) {
    forall b: nat {:trigger g.read(b + 2)} :: Describes(g, f, FDNPB * b, g.read(b + 2))
  }

  lemma AllDescribed(g: Disk)
    ensures DescribesDisk(g, ClaimsAt(g))
  {
    forall b: nat ensures Describes(g, ClaimsAt(g), FDNPB * b, g.read(b + 2)) {
      BlockDescriptors(g, b, FDNPB * b);
    }
  }

  /** Reads one block of descriptors, the first of which is descriptor n, and checks them. */
  method CheckFdnsAt(d: Defragmenter, fdnbno: nat, ghost f: nat -> seq<Claim>, ghost n: nat, ghost left: set<nat>)
    requires Building(d, f, left, n)
    requires n == FDNPB * fdnbno && DescribesDisk(d.g, f)
    modifies d, d.bits.mem
    ensures Building(d, f, left, n + FDNPB) && d.bits.Outside() == old(d.bits.Outside())
  {
    CheckFdnBlock(d, d.g.read(fdnbno + 2), f, n, left);
  }

  /** Walks all descriptors. */
  method CheckAllFdns(d: Defragmenter, sszfdn: nat, ghost f: nat -> seq<Claim>, ghost left: set<nat>)
    requires Building(d, f, left, 0) && DescribesDisk(d.g, f)
    modifies d, d.bits.mem
    ensures Building(d, f, left, FDNPB * sszfdn) && d.bits.Outside() == old(d.bits.Outside())
  {
    ghost var n := 0;
    for fdnbno := 0 to sszfdn
      invariant n == FDNPB * fdnbno && Building(d, f, left, n) && d.bits.Outside() == old(d.bits.Outside())
    {
      CheckFdnsAt(d, fdnbno, f, n, left);
      n := n + FDNPB;
    }
  }

  // ---------- what the descriptors say, byte by byte ----------

  lemma SoundParts(g: Disk, a: seq<Claim>, b: seq<Claim>)
    requires Acceptable(g, {}, a + b)
    ensures Acceptable(g, {}, a) && Acceptable(g, {}, b) && BlocksOf(a) !! BlocksOf(b)
    ensures BlocksOf(a) <= BlocksOf(a + b) && BlocksOf(b) <= BlocksOf(a + b)
  {
    AcceptableAppend(g, {}, a, b);
    AcceptableIffSound(g, {} + BlocksOf(a), b);
    BlocksOfAppend(a, b);
  }

  /** On a sound disk the claims of one file are sound, and a part of all claims. */
  lemma {:induction false} OneFilesClaims(g: Disk, f: nat -> seq<Claim>, total: nat, n: nat)
    requires n < total && Acceptable(g, {}, Gather(f, total))
    ensures Acceptable(g, {}, f(n)) && BlocksOf(f(n)) <= BlocksOf(Gather(f, total))
  {
    SoundParts(g, Gather(f, total - 1), f(total - 1));
    if n < total - 1 {
      OneFilesClaims(g, f, total - 1, n);
    }
  }

  /** On a sound disk different files share no block. */
  lemma {:induction false} TwoFilesClaims(g: Disk, f: nat -> seq<Claim>, total: nat, n: nat, m: nat)
    requires n < m < total && Acceptable(g, {}, Gather(f, total))
    ensures BlocksOf(f(n)) !! BlocksOf(f(m))
  {
    SoundParts(g, Gather(f, total - 1), f(total - 1));
    if m < total - 1 {
      TwoFilesClaims(g, f, total - 1, n, m);
    } else {
      OneFilesClaims(g, f, total - 1, n);
    }
  }

  /** Descriptor n, counting from 0: 64 bytes, eight to a block, from block 2 on. */
  function Descriptor(g: Disk, n: nat): seq<byte> {
    g.read(n / 8 + 2)[64 * (n % 8)..64 * (n % 8) + 64]
  }

  lemma DescriptorIsFdn(g: Disk, n: nat)
    ensures Descriptor(g, n) == Fdn(g, n)
  {
  }

  lemma ClaimsOfDescriptor(g: Disk, n: nat)
    ensures |Descriptor(g, n)| == FDNSIZ
    ensures ClaimsAt(g)(n) == if HasBlocks(Descriptor(g, n)) then FileClaims(g, BlockList(Descriptor(g, n))) else []
  {
    DescriptorIsFdn(g, n);
    ModeMeans(Fdn(g, n)[0]);
  }

  lemma BelongsToMeans(g: Disk, fdn: seq<byte>, b: nat)
    requires |fdn| == FDNSIZ && AllInRange(g, FileClaims(g, BlockList(fdn)))
    ensures b in BlocksOf(FileClaims(g, BlockList(fdn))) <==> BelongsTo(g, fdn, b)
  {
    var es := BlockList(fdn);
    forall k | 0 <= k < FMSZ + 3 ensures es[k] == NumberAt(fdn, 9 + 3 * k) {
      NumberInList(fdn, k);
    }
    ClaimedOfFile(g, es, b);
    if i :| 0 <= i < FMSZ && HangsOff(g, es[..FMSZ][i], 0, b) {
      assert HangsOff(g, NumberAt(fdn, 9 + 3 * i), 0, b);
    }
    if k :| 0 <= k < 10 && HangsOff(g, NumberAt(fdn, 9 + 3 * k), 0, b) {
      assert es[..FMSZ][k] == NumberAt(fdn, 9 + 3 * k);
    }
  }

  lemma NumberInList(fdn: seq<byte>, k: nat)
    requires |fdn| == FDNSIZ && k < FMSZ + 3
    ensures BlockList(fdn)[k] == NumberAt(fdn, 9 + 3 * k)
  {
    assert fdn[9..][3 * k] == fdn[9 + 3 * k] && fdn[9..][3 * k + 1] == fdn[10 + 3 * k] && fdn[9..][3 * k + 2] == fdn[11 + 3 * k];
  }

  /** File n of the disk, if it is one, has block b. */
  ghost predicate Owns(g: Disk, n: nat, b: nat) {
    HasBlocks(Descriptor(g, n)) && BelongsTo(g, Descriptor(g, n), b)
  }

  lemma OwnsMeans(g: Disk, n: nat, b: nat)
    requires AllInRange(g, ClaimsAt(g)(n))
    ensures b in BlocksOf(ClaimsAt(g)(n)) <==> Owns(g, n, b)
  {
    ClaimsOfDescriptor(g, n);
    if HasBlocks(Descriptor(g, n)) {
      BelongsToMeans(g, Descriptor(g, n), b);
    }
  }

  lemma {:induction false} GatheredBlock(f: nat -> seq<Claim>, own: nat -> bool, total: nat, b: nat)
    requires forall n: nat :: n < total ==> (own(n) <==> b in BlocksOf(f(n)))
    ensures b in BlocksOf(Gather(f, total)) <==> exists n: nat :: n < total && own(n)
  {
    if total > 0 {
      GatheredBlock(f, own, total - 1, b);
      BlocksOfAppend(Gather(f, total - 1), f(total - 1));
      if own(total - 1) {
        assert total - 1 < total && own(total - 1);
      }
    }
  }

  /** On a sound disk the claimed blocks are those that some file or directory has. */
  lemma ClaimedMeans(g: Disk, f: nat -> seq<Claim>, total: nat, b: nat)
    requires Acceptable(g, {}, Gather(f, total)) && f == ClaimsAt(g)
    ensures b in BlocksOf(Gather(f, total)) <==> exists n: nat :: n < total && Owns(g, n, b)
  {
    var own := (n: nat) => b in BlocksOf(f(n));
    GatheredBlock(f, own, total, b);
    forall n: nat | n < total ensures own(n) <==> Owns(g, n, b) {
      OneFilesClaims(g, f, total, n);
      OwnsMeans(g, n, b);
    }
    if n: nat :| n < total && own(n) {
      assert Owns(g, n, b);
    }
    if n: nat :| n < total && Owns(g, n, b) {
      assert own(n);
    }
  }

  /** The marked blocks are those left over and those of files and directories; these
      are in the valid range, not left over, and no two of them share one. */
  ghost predicate MarksWhatIsOwned(g: Disk, total: nat, left: set<nat>, marked: set<nat>) {
    && (forall b: nat :: b in marked <==> b in left || exists n: nat :: n < total && Owns(g, n, b))
    && (forall n: nat, b: nat :: n < total && Owns(g, n, b) ==> g.minvld <= b <= g.maxvld && b !in left)
    && (forall n: nat, m: nat, b: nat :: n < m < total && Owns(g, n, b) ==> !Owns(g, m, b))
  }

  lemma OwnsInMap(g: Disk, f: nat -> seq<Claim>, total: nat, n: nat, b: nat)
    requires Acceptable(g, {}, Gather(f, total)) && f == ClaimsAt(g) && n < total && Owns(g, n, b)
    ensures b in BlocksOf(f(n)) && b in BlocksOf(Gather(f, total)) && g.minvld <= b <= g.maxvld
  {
    OneFilesClaims(g, f, total, n);
    OwnsMeans(g, n, b);
  }

  lemma SoundMarks(g: Disk, f: nat -> seq<Claim>, total: nat, left: set<nat>, marked: set<nat>)
    requires f == ClaimsAt(g) && Acceptable(g, {}, Gather(f, total)) && BlocksOf(Gather(f, total)) !! left
    requires marked == left + BlocksOf(Gather(f, total))
    ensures MarksWhatIsOwned(g, total, left, marked)
  {
    forall b: nat ensures b in marked <==> b in left || exists n: nat :: n < total && Owns(g, n, b) {
      ClaimedMeans(g, f, total, b);
    }
    forall n: nat, b: nat | n < total && Owns(g, n, b) ensures g.minvld <= b <= g.maxvld && b !in left {
      OwnsInMap(g, f, total, n, b);
    }
    forall n: nat, m: nat, b: nat | n < m < total && Owns(g, n, b) ensures !Owns(g, m, b) {
      OwnsInMap(g, f, total, n, b);
      TwoFilesClaims(g, f, total, n, m);
      if Owns(g, m, b) {
        OwnsInMap(g, f, total, m, b);
      }
    }
  }

  /** Builds the map; says whether some block was out of range or claimed twice. It says
      so for a sound disk too when one of its blocks has a bit set in the bytes that
      clearing the map leaves as they were, and exactly then. */
  method BuildsFdnsMap(d: Defragmenter, sszfdn: nat, ghost left: set<nat>, ghost claims: seq<Claim>) returns (bad: bool)
    requires d.Valid() && left == LeftOver(d.bits.Map(), d.bits.minvld) && claims == DiskClaims(d.g, FDNPB * sszfdn)
    modifies d, d.bits.mem
    ensures !bad <==> Acceptable(d.g, {}, claims) && BlocksOf(claims) !! left
    ensures !bad ==> d.bits.Marked() == left + BlocksOf(claims) && d.Now().clean
    ensures !bad ==> MarksWhatIsOwned(d.g, 8 * sszfdn, left, d.bits.Marked())
    ensures d.bits.mapsize % 4 == 0 ==> left == {}
    ensures d.bits.Outside() == old(d.bits.Outside())
  {
    if d.bits.mapsize % 4 == 0 {
      NothingLeftOver(d.bits.Map(), d.bits.minvld);
    }
    StartMap(d);
    AllDescribed(d.g);
    CheckAllFdns(d, sszfdn, ClaimsAt(d.g), left);
    bad := d.dupsCnt > 0 || d.oorsCnt > 0;
    AcceptableIffSound(d.g, left, claims);
    if !bad {
      SoundMarks(d.g, ClaimsAt(d.g), FDNPB * sszfdn, left, d.bits.Marked());
    }
  }

  // ---------- a sound disk that is refused ----------

  /** A descriptor block with one regular file, which has block 3 and no other. */
  function OneFile(): Block {
    [S_IFREG] + Repeat(10, 0) + [3] + Repeat(BLOCK - 12, 0)
  }

  function SmallDiskBlock(n: nat): Block {
    if n == 2 then OneFile() else Repeat(BLOCK, 0)
  }

  /** Valid blocks 3 to 10, one block of descriptors. The map is one byte long. */
  function SmallDisk(): Disk {
    Disk(SmallDiskBlock, 3, 10)
  }

  lemma {:induction false} NoClaims(g: Disk, level: nat, es: seq<nat>)
    requires forall i :: 0 <= i < |es| ==> es[i] == 0
    ensures AllClaims(g, level, es) == []
  {
    if es != [] {
      NoClaims(g, level, es[1..]);
    }
  }

  lemma FirstFile()
    ensures ClaimsAt(SmallDisk())(0) == [Data(3)]
  {
    var g, fdn := SmallDisk(), Fdn(SmallDisk(), 0);
    assert fdn == OneFile()[..FDNSIZ];
    assert fdn[0] == 1;
    var es := BlockList(fdn);
    assert forall i :: 9 <= i < FDNSIZ ==> fdn[i] == if i == 11 then 3 else 0;
    assert forall i :: 0 <= i < 13 ==> es[i] == if i == 0 then 3 else 0 by {
      forall i | 0 <= i < 13 ensures es[i] == if i == 0 then 3 else 0 {
        assert fdn[9..][3 * i] == fdn[9 + 3 * i] && fdn[9..][3 * i + 1] == fdn[10 + 3 * i]
               && fdn[9..][3 * i + 2] == fdn[11 + 3 * i];
      }
    }
    assert es[..FMSZ] == [3] + es[1..FMSZ];
    AllClaimsAppend(g, 0, [3], es[1..FMSZ]);
    SingleClaims(g, 0, 3);
    NoClaims(g, 0, es[1..FMSZ]);
    NoClaims(g, 1, [es[FMSZ]]);
    NoClaims(g, 2, [es[FMSZ + 1]]);
    NoClaims(g, 3, [es[FMSZ + 2]]);
  }

  lemma OtherFiles(n: nat)
    requires 0 < n < FDNPB
    ensures ClaimsAt(SmallDisk())(n) == []
  {
    assert Fdn(SmallDisk(), n)[0] == OneFile()[n * FDNSIZ] == 0;
  }

  lemma {:induction false} OnlyBlockThree(n: nat)
    requires 0 < n <= FDNPB
    ensures DiskClaims(SmallDisk(), n) == [Data(3)]
  {
    if n == 1 {
      FirstFile();
    } else {
      OnlyBlockThree(n - 1);
      OtherFiles(n - 1);
    }
  }

  /** The disk is sound, but when the memory that the map gets has its first bit set,
      that bit stays, and block 3 counts as claimed twice. */
  lemma SoundDiskRefused()
    ensures var claims := DiskClaims(SmallDisk(), FDNPB);
            && Acceptable(SmallDisk(), {}, claims)
            && !(BlocksOf(claims) !! LeftOver([0x80], SmallDisk().minvld))
  {
    OnlyBlockThree(FDNPB);
    var claims := [Data(3)];
    assert claims[0].block in BlocksOf(claims);
    InUseAt([0x80], 3, 0, 0);
  }
}
