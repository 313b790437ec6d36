/** Files on a UniFLEX disk: a descriptor lists ten data blocks and a single, a
    double and a triple indirect block. This file says which blocks a file claims. */
module BlockTree {
  import opened Bytes

  const BLOCK := 512
  const FMSZ := 10   // direct entries in a file descriptor
  const SMSZ := 128  // entries in an indirect block

  /** A block as it is stored. */
  type Block = b: seq<byte> | |b| == BLOCK witness seq(BLOCK, _ => 0)

  /** Reads succeed, so a disk gives every block number its contents. */
  datatype Disk = Disk(read: nat -> Block, minvld: nat, maxvld: nat)

  predicate InRange(g: Disk, b: nat) { g.minvld <= b <= g.maxvld }

  /** Three-byte entry i of a block list, most significant byte first. */
  function Entry(s: seq<byte>, i: nat): nat {
    if 3 * i + 3 <= |s| then 0x1_0000 * s[3 * i] as int + 0x100 * s[3 * i + 1] as int + s[3 * i + 2] as int else 0
  }

  function Entries(s: seq<byte>, n: nat): (es: seq<nat>)
    ensures |es| == n && forall i :: 0 <= i < n ==> es[i] == Entry(s, i)
  {
    if n == 0 then [] else Entries(s, n - 1) + [Entry(s, n - 1)]
  }

  /** The entries of an indirect block. */
  function Pointers(g: Disk, b: nat): (es: seq<nat>)
    ensures |es| == SMSZ
  {
    Entries(g.read(b), SMSZ)
  }

  /** A block that a file uses: for its contents, or to hold further block numbers. */
  datatype Claim = Data(block: nat) | Indirect(block: nat)

  /** What a block number of a given level of indirection claims. A block outside the
      valid range cannot be followed. */
  function Claims(g: Disk, level: nat, b: nat): seq<Claim>
    decreases level, 1, 0
  {
    if level == 0 then [Data(b)]
    else [Indirect(b)] + if InRange(g, b) then AllClaims(g, level - 1, Pointers(g, b)) else []
  }

  /** What a list of block numbers claims, in order; zero entries are holes. */
  function AllClaims(g: Disk, level: nat, es: seq<nat>): seq<Claim>
    decreases level, 2, |es|
  {
    if es == [] then []
    else (if es[0] == 0 then [] else Claims(g, level, es[0])) + AllClaims(g, level, es[1..])
  }

  /** What the thirteen entries of a file descriptor claim. */
  function FileClaims(g: Disk, es: seq<nat>): seq<Claim>
    requires |es| == FMSZ + 3
  {
    AllClaims(g, 0, es[..FMSZ]) + AllClaims(g, 1, [es[FMSZ]])
    + AllClaims(g, 2, [es[FMSZ + 1]]) + AllClaims(g, 3, [es[FMSZ + 2]])
  }

  lemma {:induction false} AllClaimsAppend(g: Disk, level: nat, es: seq<nat>, fs: seq<nat>)
    ensures AllClaims(g, level, es + fs) == AllClaims(g, level, es) + AllClaims(g, level, fs)
  {
    if es == [] {
      assert es + fs == fs;
    } else {
      assert (es + fs)[1..] == es[1..] + fs;
      AllClaimsAppend(g, level, es[1..], fs);
    }
  }

  lemma AllClaimsStep(g: Disk, level: nat, es: seq<nat>, i: nat)
    requires i < |es|
    ensures es[i] == 0 ==> AllClaims(g, level, es[..i + 1]) == AllClaims(g, level, es[..i])
    ensures es[i] != 0 ==> AllClaims(g, level, es[..i + 1]) == AllClaims(g, level, es[..i]) + Claims(g, level, es[i])
  {
    assert es[..i + 1] == es[..i] + [es[i]];
    AllClaimsAppend(g, level, es[..i], [es[i]]);
    SingleClaims(g, level, es[i]);
  }

  lemma SingleClaims(g: Disk, level: nat, b: nat)
    ensures AllClaims(g, level, [b]) == if b == 0 then [] else Claims(g, level, b)
  {
    assert [b][1..] == [];
  }

  // ---------- a file system is sound when its claims are ----------

  function BlocksOf(cs: seq<Claim>): set<nat> {
    set i | 0 <= i < |cs| :: cs[i].block
  }

  ghost predicate AllInRange(g: Disk, cs: seq<Claim>) {
    forall i :: 0 <= i < |cs| ==> InRange(g, cs[i].block)
  }

  ghost predicate NoneTwice(cs: seq<Claim>) {
    forall i, j :: 0 <= i < j < |cs| ==> cs[i].block != cs[j].block
  }

  /** Claims that are in range, new, and different from each other. */
  ghost predicate Acceptable(g: Disk, used: set<nat>, cs: seq<Claim>) {
    AllInRange(g, cs) && NoneTwice(cs) && forall i :: 0 <= i < |cs| ==> cs[i].block !in used
  }

  lemma BlocksOfAppend(a: seq<Claim>, b: seq<Claim>)
    ensures BlocksOf(a + b) == BlocksOf(a) + BlocksOf(b)
  {
    forall i | 0 <= i < |a| ensures a[i].block in BlocksOf(a + b) {
      assert (a + b)[i] == a[i];
    }
    forall i | 0 <= i < |b| ensures b[i].block in BlocksOf(a + b) {
      assert (a + b)[|a| + i] == b[i];
    }
  }

  lemma AcceptableAppend(g: Disk, used: set<nat>, a: seq<Claim>, b: seq<Claim>)
    ensures Acceptable(g, used, a + b) <==> Acceptable(g, used, a) && Acceptable(g, used + BlocksOf(a), b)
  {
    var c := a + b;
    if Acceptable(g, used, c) {
      forall i | 0 <= i < |a| ensures InRange(g, a[i].block) && a[i].block !in used {
        assert c[i] == a[i];
      }
      forall i, j | 0 <= i < j < |a| ensures a[i].block != a[j].block {
        assert c[i] == a[i] && c[j] == a[j];
      }
      forall i, j | 0 <= i < j < |b| ensures b[i].block != b[j].block {
        assert c[|a| + i] == b[i] && c[|a| + j] == b[j];
      }
      forall i | 0 <= i < |b| ensures InRange(g, b[i].block) && b[i].block !in used + BlocksOf(a) {
        assert c[|a| + i] == b[i];
        forall j | 0 <= j < |a| ensures a[j].block != b[i].block {
          assert c[j] == a[j];
        }
      }
    }
    if Acceptable(g, used, a) && Acceptable(g, used + BlocksOf(a), b) {
      forall i, j | 0 <= i < j < |c| ensures c[i].block != c[j].block {
        if i < |a| <= j {
          assert a[i].block in BlocksOf(a) && c[j] == b[j - |a|];
        }
      }
    }
  }

  // ---------- the blocks of a file, as its bytes say ----------

  /** The three-byte number at a place, most significant byte first. */
  function NumberAt(s: seq<byte>, at: nat): nat {
    if at + 3 <= |s| then 65536 * s[at] as int + 256 * s[at + 1] as int + s[at + 2] as int else 0
  }

  /** Block b is the block p or, when p holds block numbers, hangs off one of its 128. */
  ghost predicate HangsOff(g: Disk, p: nat, level: nat, b: nat)
    decreases level
  {
    p != 0 && (b == p || (level > 0 && exists i :: 0 <= i < 128 && HangsOff(g, NumberAt(g.read(p), 3 * i), level - 1, b)))
  }

  /** Block b belongs to the file with this descriptor of 64 bytes: ten numbers of data
      blocks from byte 9 on, and then one each of a single, a double and a triple
      indirect block. */
  ghost predicate BelongsTo(g: Disk, fdn: seq<byte>, b: nat) {
    || (exists k :: 0 <= k < 10 && HangsOff(g, NumberAt(fdn, 9 + 3 * k), 0, b))
    || HangsOff(g, NumberAt(fdn, 39), 1, b) || HangsOff(g, NumberAt(fdn, 42), 2, b) || HangsOff(g, NumberAt(fdn, 45), 3, b)
  }

  lemma InAppended(a: seq<Claim>, c: seq<Claim>, b: nat)
    ensures b in BlocksOf(a + c) <==> b in BlocksOf(a) || b in BlocksOf(c)
  {
    BlocksOfAppend(a, c);
  }

  /** A block hangs off one of these numbers. */
  ghost predicate HangsOffOne(g: Disk, es: seq<nat>, level: nat, b: nat) {
    exists i :: 0 <= i < |es| && HangsOff(g, es[i], level, b)
  }

  lemma HangsOffMore(g: Disk, es: seq<nat>, level: nat, b: nat)
    requires es != []
    ensures HangsOffOne(g, es, level, b) <==> HangsOff(g, es[0], level, b) || HangsOffOne(g, es[1..], level, b)
  {
    if i :| 0 <= i < |es| && HangsOff(g, es[i], level, b) {
      if i > 0 {
        assert es[1..][i - 1] == es[i];
      }
    }
    if HangsOffOne(g, es[1..], level, b) {
      var j :| 0 <= j < |es[1..]| && HangsOff(g, es[1..][j], level, b);
      assert es[j + 1] == es[1..][j];
    }
  }

  /** When all claims are in range, the claimed blocks are those that hang off the numbers. */
  lemma {:induction false} ClaimedOfList(g: Disk, level: nat, es: seq<nat>, b: nat)
    requires AllInRange(g, AllClaims(g, level, es))
    ensures b in BlocksOf(AllClaims(g, level, es)) <==> HangsOffOne(g, es, level, b)
    decreases level, 2, |es|
  {
    if es != [] {
      var here, later := if es[0] == 0 then [] else Claims(g, level, es[0]), AllClaims(g, level, es[1..]);
      RangeSplit(g, here, later);
      InAppended(here, later, b);
      HangsOffMore(g, es, level, b);
      ClaimedOfList(g, level, es[1..], b);
      if es[0] != 0 {
        ClaimedOfOne(g, level, es[0], b);
      }
    }
  }

  lemma RangeSplit(g: Disk, a: seq<Claim>, c: seq<Claim>)
    requires AllInRange(g, a + c)
    ensures AllInRange(g, a) && AllInRange(g, c)
  {
    forall i | 0 <= i < |a| ensures InRange(g, a[i].block) {
      assert (a + c)[i] == a[i];
    }
    forall i | 0 <= i < |c| ensures InRange(g, c[i].block) {
      assert (a + c)[|a| + i] == c[i];
    }
  }

  lemma {:induction false} ClaimedOfOne(g: Disk, level: nat, p: nat, b: nat)
    requires p != 0 && AllInRange(g, Claims(g, level, p))
    ensures b in BlocksOf(Claims(g, level, p)) <==> HangsOff(g, p, level, b)
    decreases level, 1, 0
  {
    if level == 0 {
      assert BlocksOf([Data(p)]) == {p} by {
        assert [Data(p)][0].block == p;
      }
    } else {
      var below := Pointers(g, p);
      assert Claims(g, level, p)[0] == Indirect(p);
      RangeSplit(g, [Indirect(p)], AllClaims(g, level - 1, below));
      InAppended([Indirect(p)], AllClaims(g, level - 1, below), b);
      assert BlocksOf([Indirect(p)]) == {p} by {
        assert [Indirect(p)][0].block == p;
      }
      ClaimedOfList(g, level - 1, below, b);
      HangsOffPointers(g, p, level - 1, b);
    }
  }

  lemma HangsOffPointers(g: Disk, p: nat, level: nat, b: nat)
    ensures HangsOffOne(g, Pointers(g, p), level, b)
            <==> exists i :: 0 <= i < 128 && HangsOff(g, NumberAt(g.read(p), 3 * i), level, b)
  {
    if HangsOffOne(g, Pointers(g, p), level, b) {
      var i :| 0 <= i < 128 && HangsOff(g, Pointers(g, p)[i], level, b);
      assert HangsOff(g, NumberAt(g.read(p), 3 * i), level, b);
    }
    if i :| 0 <= i < 128 && HangsOff(g, NumberAt(g.read(p), 3 * i), level, b) {
      assert Pointers(g, p)[i] == NumberAt(g.read(p), 3 * i);
    }
  }

  lemma HangsOffSingle(g: Disk, p: nat, level: nat, b: nat)
    ensures HangsOffOne(g, [p], level, b) <==> HangsOff(g, p, level, b)
  {
    HangsOffMore(g, [p], level, b);
  }

  /** The thirteen numbers of a file, and the blocks that hang off them. */
  lemma ClaimedOfFile(g: Disk, es: seq<nat>, b: nat)
    requires |es| == FMSZ + 3 && AllInRange(g, FileClaims(g, es))
    ensures b in BlocksOf(FileClaims(g, es)) <==>
              HangsOffOne(g, es[..FMSZ], 0, b) || HangsOff(g, es[FMSZ], 1, b)
              || HangsOff(g, es[FMSZ + 1], 2, b) || HangsOff(g, es[FMSZ + 2], 3, b)
  {
    var c0, c1 := AllClaims(g, 0, es[..FMSZ]), AllClaims(g, 1, [es[FMSZ]]);
    var c2, c3 := AllClaims(g, 2, [es[FMSZ + 1]]), AllClaims(g, 3, [es[FMSZ + 2]]);
    RangeSplit(g, c0 + c1 + c2, c3);
    RangeSplit(g, c0 + c1, c2);
    RangeSplit(g, c0, c1);
    InAppended(c0 + c1 + c2, c3, b);
    InAppended(c0 + c1, c2, b);
    InAppended(c0, c1, b);
    ClaimedOfList(g, 0, es[..FMSZ], b);
    ClaimedOfList(g, 1, [es[FMSZ]], b);
    ClaimedOfList(g, 2, [es[FMSZ + 1]], b);
    ClaimedOfList(g, 3, [es[FMSZ + 2]], b);
    HangsOffSingle(g, es[FMSZ], 1, b);
    HangsOffSingle(g, es[FMSZ + 1], 2, b);
    HangsOffSingle(g, es[FMSZ + 2], 3, b);
  }
}
