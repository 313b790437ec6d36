/** What relocation records mean to a loader: the word at a record's offset is
    increased by the address of the segment it refers to, and, when it is
    external, by the address of the symbol it names. */
module Loader {
  import opened Bytes

  const TEXT := 1
  const DATA := 2

  datatype Reloc = Reloc(offset: nat, kind: nat, name: seq<byte>)

  /** Segment load addresses, or the offsets of one unit inside a larger object. */
  datatype Bases = Bases(text: nat, data: nat, bss: nat)

  /** Addresses of external symbols. */
  type Symbols = seq<byte> -> int

  /** The segment whose bytes a record changes: the low four bits of its kind. */
  function Target(r: Reloc): nat { r.kind % 16 }

  /** Bit 15 of the kind marks a reference to an external symbol. */
  predicate External(r: Reloc) { r.kind / 0x8000 % 2 == 1 }

  /** The segment a kind refers to: its bits 4 to 7. */
  function SegmentBase(kind: nat, b: Bases): nat {
    match kind / 16 % 16
    case 4 => b.text
    case 8 => b.data
    case 12 => b.bss
    case _ => 0
  }

  function Delta(r: Reloc, b: Bases, x: Symbols): int {
    SegmentBase(r.kind, b) + if External(r) then x(r.name) else 0
  }

  function WordAt(m: seq<byte>, off: nat): word
    requires off + 4 <= |m|
  {
    FromBe(m[off..off + 4])
  }

  /** The bytes with a big-endian word stored at an offset. */
  function Put(m: seq<byte>, off: nat, w: nat): (m': seq<byte>)
    ensures |m'| == |m|
  {
    if off + 4 <= |m| then m[..off] + ToBe(w) + m[off + 4..] else m
  }

  /** Adds to the big-endian word at an offset, modulo 2^32. A word that is not
      inside the segment is left alone. */
  function Patch(m: seq<byte>, off: nat, delta: int): (m': seq<byte>)
    ensures |m'| == |m|
  {
    if off + 4 <= |m| then Put(m, off, (WordAt(m, off) + delta) % WORD) else m
  }

  function Apply(seg: nat, r: Reloc, b: Bases, x: Symbols, m: seq<byte>): (m': seq<byte>)
    ensures |m'| == |m|
  {
    if Target(r) == seg then Patch(m, r.offset, Delta(r, b, x)) else m
  }

  /** The bytes of one segment after every record has been applied in order. */
  function Relocate(seg: nat, rs: seq<Reloc>, b: Bases, x: Symbols, m: seq<byte>): (m': seq<byte>)
    ensures |m'| == |m|
  {
    if rs == [] then m else Relocate(seg, rs[1..], b, x, Apply(seg, rs[0], b, x, m))
  }

  /** Every word that the records change lies inside the segment. */
  ghost predicate InRange(seg: nat, rs: seq<Reloc>, size: nat) {
    forall i :: 0 <= i < |rs| && Target(rs[i]) == seg ==> rs[i].offset + 4 <= size
  }

  /** Words of two records in the same segment are the same word or share no byte. */
  ghost predicate Separate(r: Reloc, s: Reloc) {
    Target(r) == Target(s) ==>
      r.offset == s.offset || r.offset + 4 <= s.offset || s.offset + 4 <= r.offset
  }

  ghost predicate AllSeparate(rs: seq<Reloc>) {
    forall i, j :: 0 <= i < j < |rs| ==> Separate(rs[i], rs[j])
  }

  lemma WordAfterPut(m: seq<byte>, off: nat, w: word)
    requires off + 4 <= |m|
    ensures WordAt(Put(m, off, w), off) == w
    ensures forall v :: Put(Put(m, off, w), off, v) == Put(m, off, v)
  {
    var p := Put(m, off, w);
    assert p[off..off + 4] == ToBe(w);
    assert p[..off] == m[..off] && p[off + 4..] == m[off + 4..];
  }

  lemma ModShift(a: int, d: int)
    ensures (a % WORD + d) % WORD == (a + d) % WORD
  {
    var q := a / WORD;
    assert a % WORD + d == a + d - q * WORD;
    var k := (a + d) / WORD;
    assert a + d - q * WORD == (k - q) * WORD + (a + d) % WORD;
  }

  lemma PatchCompose(m: seq<byte>, off: nat, d: int, e: int)
    ensures Patch(Patch(m, off, d), off, e) == Patch(m, off, d + e)
  {
    if off + 4 <= |m| {
      var w := WordAt(m, off);
      WordAfterPut(m, off, (w + d) % WORD);
      ModShift(w + d, e);
    }
  }

  lemma PutElsewhere(m: seq<byte>, o: nat, v: nat, p: nat)
    requires p + 4 <= |m| && (o + 4 <= p || p + 4 <= o)
    ensures WordAt(Put(m, o, v), p) == WordAt(m, p)
  {
    assert Put(m, o, v)[p..p + 4] == m[p..p + 4];
  }

  lemma PutCommute(m: seq<byte>, o: nat, v: nat, p: nat, w: nat)
    requires o + 4 <= p && p + 4 <= |m|
    ensures Put(Put(m, o, v), p, w) == Put(Put(m, p, w), o, v)
  {
    var a, b := Put(Put(m, o, v), p, w), Put(Put(m, p, w), o, v);
    forall i | 0 <= i < |m| ensures a[i] == b[i] {
    }
  }

  lemma PatchesSwap(m: seq<byte>, o: nat, d: int, p: nat, e: int)
    requires o + 4 <= p && p + 4 <= |m|
    ensures Patch(Patch(m, o, d), p, e) == Patch(Patch(m, p, e), o, d)
  {
    var v, w := (WordAt(m, o) + d) % WORD, (WordAt(m, p) + e) % WORD;
    var mo, mp := Put(m, o, v), Put(m, p, w);
    assert Patch(m, o, d) == mo && Patch(m, p, e) == mp;
    PutElsewhere(m, o, v, p);
    assert Patch(mo, p, e) == Put(mo, p, w);
    PutElsewhere(m, p, w, o);
    assert Patch(mp, o, d) == Put(mp, o, v);
    PutCommute(m, o, v, p, w);
  }

  lemma PatchCommute(m: seq<byte>, o: nat, d: int, p: nat, e: int)
    requires o == p || o + 4 <= p || p + 4 <= o
    ensures Patch(Patch(m, o, d), p, e) == Patch(Patch(m, p, e), o, d)
  {
    if o == p {
      PatchCompose(m, o, d, e);
      PatchCompose(m, o, e, d);
    } else if o + 4 > |m| {
      assert Patch(m, o, d) == m && Patch(Patch(m, p, e), o, d) == Patch(m, p, e);
    } else if p + 4 > |m| {
      assert Patch(m, p, e) == m && Patch(Patch(m, o, d), p, e) == Patch(m, o, d);
    } else if o < p {
      PatchesSwap(m, o, d, p, e);
    } else {
      PatchesSwap(m, p, e, o, d);
    }
  }

  lemma PutEmbed(pre: seq<byte>, m: seq<byte>, post: seq<byte>, off: nat, v: nat)
    requires off + 4 <= |m|
    ensures Put(pre + m + post, |pre| + off, v) == pre + Put(m, off, v) + post
  {
    var w, o := pre + m + post, |pre| + off;
    assert w[..o] == pre + m[..off];
    assert w[o + 4..] == m[off + 4..] + post;
  }

  lemma PatchEmbed(pre: seq<byte>, m: seq<byte>, post: seq<byte>, off: nat, d: int)
    requires off + 4 <= |m|
    ensures Patch(pre + m + post, |pre| + off, d) == pre + Patch(m, off, d) + post
  {
    var w, o := pre + m + post, |pre| + off;
    assert w[o..o + 4] == m[off..off + 4];
    PutEmbed(pre, m, post, off, (WordAt(m, off) + d) % WORD);
  }

  /** A patch can be moved across later records whose words do not straddle it. */
  lemma {:induction false} ApplyPastRelocate(seg: nat, r: Reloc, b: Bases, x: Symbols,
                                             rs: seq<Reloc>, c: Bases, y: Symbols, m: seq<byte>)
    requires forall i :: 0 <= i < |rs| ==> Separate(r, rs[i])
    ensures Apply(seg, r, b, x, Relocate(seg, rs, c, y, m))
         == Relocate(seg, rs, c, y, Apply(seg, r, b, x, m))
  {
    if rs != [] {
      var s := rs[0];
      assert Separate(r, s);
      if Target(r) == seg && Target(s) == seg {
        PatchCommute(m, s.offset, Delta(s, c, y), r.offset, Delta(r, b, x));
      }
      ApplyPastRelocate(seg, r, b, x, rs[1..], c, y, Apply(seg, s, c, y, m));
    }
  }

  lemma ApplyTwice(seg: nat, r: Reloc, b: Bases, x: Symbols, c: Bases, y: Symbols,
                   d: Bases, z: Symbols, m: seq<byte>)
    requires Delta(r, b, x) + Delta(r, c, y) == Delta(r, d, z)
    ensures Apply(seg, r, c, y, Apply(seg, r, b, x, m)) == Apply(seg, r, d, z, m)
  {
    PatchCompose(m, r.offset, Delta(r, b, x), Delta(r, c, y));
  }

  lemma TailSeparate(rs: seq<Reloc>)
    requires rs != [] && AllSeparate(rs)
    ensures AllSeparate(rs[1..])
    ensures forall i :: 0 <= i < |rs[1..]| ==> Separate(rs[0], rs[1..][i])
  {
    forall i, j | 0 <= i < j < |rs[1..]| ensures Separate(rs[1..][i], rs[1..][j]) {
      assert Separate(rs[i + 1], rs[j + 1]);
    }
    forall i | 0 <= i < |rs[1..]| ensures Separate(rs[0], rs[1..][i]) {
      assert Separate(rs[0], rs[i + 1]);
    }
  }

  /** Relocating twice by the same records is relocating once by the summed addresses. */
  lemma {:induction false} RelocateTwice(seg: nat, rs: seq<Reloc>, b: Bases, x: Symbols,
                                         c: Bases, y: Symbols, d: Bases, z: Symbols, m: seq<byte>)
    requires AllSeparate(rs)
    requires forall i :: 0 <= i < |rs| ==> Delta(rs[i], b, x) + Delta(rs[i], c, y) == Delta(rs[i], d, z)
    ensures Relocate(seg, rs, c, y, Relocate(seg, rs, b, x, m)) == Relocate(seg, rs, d, z, m)
  {
    if rs != [] {
      var r, t := rs[0], rs[1..];
      TailSeparate(rs);
      var m1 := Apply(seg, r, b, x, m);
      calc {
        Relocate(seg, rs, c, y, Relocate(seg, rs, b, x, m));
        Relocate(seg, t, c, y, Apply(seg, r, c, y, Relocate(seg, t, b, x, m1)));
        { ApplyPastRelocate(seg, r, c, y, t, b, x, m1); }
        Relocate(seg, t, c, y, Relocate(seg, t, b, x, Apply(seg, r, c, y, m1)));
        { ApplyTwice(seg, r, b, x, c, y, d, z, m); }
        Relocate(seg, t, c, y, Relocate(seg, t, b, x, Apply(seg, r, d, z, m)));
        { RelocateTwice(seg, t, b, x, c, y, d, z, Apply(seg, r, d, z, m)); }
        Relocate(seg, t, d, z, Apply(seg, r, d, z, m));
        Relocate(seg, rs, d, z, m);
      }
    }
  }

  lemma {:induction false} RelocateAppend(seg: nat, rs: seq<Reloc>, ss: seq<Reloc>, b: Bases, x: Symbols, m: seq<byte>)
    ensures Relocate(seg, rs + ss, b, x, m) == Relocate(seg, ss, b, x, Relocate(seg, rs, b, x, m))
  {
    if rs == [] {
      assert rs + ss == ss;
    } else {
      assert (rs + ss)[1..] == rs[1..] + ss;
      RelocateAppend(seg, rs[1..], ss, b, x, Apply(seg, rs[0], b, x, m));
    }
  }

  // ---------- the stored form of a record ----------

  /** The fields fit their 32, 16 and 16 bits. */
  ghost predicate Storable(r: Reloc) {
    r.offset < WORD && r.kind < 0x1_0000 && |r.name| < 0x1_0000
  }

  ghost predicate AllStorable(rs: seq<Reloc>) {
    forall i :: 0 <= i < |rs| ==> Storable(rs[i])
  }

  function Encode(r: Reloc): (e: seq<byte>)
    ensures |e| == 8 + |r.name|
  {
    ToBe(r.offset) + ToBe16(r.kind) + ToBe16(|r.name|) + r.name
  }

  function EncodeAll(rs: seq<Reloc>): seq<byte> {
    if rs == [] then [] else Encode(rs[0]) + EncodeAll(rs[1..])
  }

  lemma {:induction false} EncodeAllAppend(rs: seq<Reloc>, ss: seq<Reloc>)
    ensures EncodeAll(rs + ss) == EncodeAll(rs) + EncodeAll(ss)
  {
    if rs == [] {
      assert rs + ss == ss;
    } else {
      assert (rs + ss)[1..] == rs[1..] + ss;
      calc {
        EncodeAll(rs + ss);
        Encode(rs[0]) + EncodeAll(rs[1..] + ss);
        { EncodeAllAppend(rs[1..], ss); }
        Encode(rs[0]) + (EncodeAll(rs[1..]) + EncodeAll(ss));
        EncodeAll(rs) + EncodeAll(ss);
      }
    }
  }

  /** Splits the first record off stored bytes; also says how long it is. */
  function DecodeFirst(b: seq<byte>): (Reloc, nat)
    requires |b| >= 8
  {
    var len := FromBe16(b[6..8]);
    var end := if 8 + len <= |b| then 8 + len else |b|;
    (Reloc(FromBe(b[..4]), FromBe16(b[4..6]), b[8..end]), 8 + len)
  }

  lemma DecodeFirstOfEncode(r: Reloc, rest: seq<byte>)
    requires Storable(r)
    ensures DecodeFirst(Encode(r) + rest) == (r, |Encode(r)|)
  {
    var b := Encode(r) + rest;
    assert b[..4] == ToBe(r.offset);
    assert b[4..6] == ToBe16(r.kind) && b[6..8] == ToBe16(|r.name|);
    assert b[8..8 + |r.name|] == r.name;
  }

  function DecodeAll(b: seq<byte>): seq<Reloc> {
    if |b| < 8 then []
    else
      var (r, n) := DecodeFirst(b);
      if n >= |b| then [r] else [r] + DecodeAll(b[n..])
  }

  /** A loader that walks stored records by their length fields sees every record. */
  lemma {:induction false} DecodeAllOfEncodeAll(rs: seq<Reloc>)
    requires AllStorable(rs)
    ensures DecodeAll(EncodeAll(rs)) == rs
  {
    if rs != [] {
      var rest := EncodeAll(rs[1..]);
      DecodeFirstOfEncode(rs[0], rest);
      DecodeAllOfEncodeAll(rs[1..]);
      assert (Encode(rs[0]) + rest)[|Encode(rs[0])|..] == rest;
      if rest == [] {
        assert rs[1..] == [];
      }
    }
  }

  /** The number in four bytes, the highest one first. */
  function Big(m: seq<byte>, o: nat): nat
    requires o + 4 <= |m|
  {
    m[o] as int * 0x100_0000 + m[o + 1] as int * 0x1_0000 + m[o + 2] as int * 0x100 + m[o + 3] as int
  }

  /** A stored record: four bytes of offset, two of kind, two of name length, the name. */
  lemma RecordBytes(r: Reloc)
    requires Storable(r)
    ensures var e := Encode(r);
            && Big(e, 0) == r.offset && e[4] as int * 0x100 + e[5] as int == r.kind
            && e[6] as int * 0x100 + e[7] as int == |e| - 8 && e[8..] == r.name
  {
    var e := Encode(r);
    assert e[0..4] == ToBe(r.offset) && e[4..6] == ToBe16(r.kind) && e[6..8] == ToBe16(|r.name|);
    assert FromBe(e[0..4]) == Big(e, 0) && FromBe16(e[4..6]) == r.kind && FromBe16(e[6..8]) == |r.name|;
  }

  /** What one record does: the low half byte of its kind says whether it is for text (1)
      or data (2). The word at its offset grows by the address of text (0x40), data (0x80)
      or bss (0xC0), or of the external symbol (0x8000), and no other byte changes. */
  lemma OneRecordLoads(seg: nat, r: Reloc, refers: nat, b: Bases, x: Symbols, m: seq<byte>)
    requires 1 <= seg <= 2 && r.offset + 4 <= |m| && refers in {0x40, 0x80, 0xC0, 0x8000}
    requires r.kind == refers + 1 || r.kind == refers + 2
    ensures var m' := Relocate(seg, [r], b, x, m);
            if r.kind != refers + seg then m' == m
            else
              var grows := match refers case 0x40 => b.text as int case 0x80 => b.data case 0xC0 => b.bss case _ => x(r.name);
              && |m'| == |m| && Big(m', r.offset) == (Big(m, r.offset) + grows) % 0x1_0000_0000
              && forall i :: 0 <= i < |m| && !(r.offset <= i < r.offset + 4) ==> m'[i] == m[i]
  {
    KindMeans(r, refers, b, x);
    var m' := Apply(seg, r, b, x, m);
    assert [r][1..] == [] && Relocate(seg, [r], b, x, m) == Relocate(seg, [], b, x, m');
    if r.kind == refers + seg {
      PatchedWord(m, r.offset, Delta(r, b, x));
    }
  }

  lemma KindMeans(r: Reloc, refers: nat, b: Bases, x: Symbols)
    requires refers in {0x40, 0x80, 0xC0, 0x8000} && (r.kind == refers + 1 || r.kind == refers + 2)
    ensures Target(r) == r.kind - refers
    ensures Delta(r, b, x) == match refers case 0x40 => b.text as int case 0x80 => b.data case 0xC0 => b.bss case _ => x(r.name)
  {
  }

  lemma PatchedWord(m: seq<byte>, o: nat, d: int)
    requires o + 4 <= |m|
    ensures var m' := Patch(m, o, d);
            Big(m', o) == (Big(m, o) + d) % 0x1_0000_0000 && forall i :: 0 <= i < |m| && !(o <= i < o + 4) ==> m'[i] == m[i]
  {
    var w := (WordAt(m, o) + d) % WORD;
    WordAfterPut(m, o, w);
    WordIsBig(m, o);
    WordIsBig(Put(m, o, w), o);
  }

  lemma WordIsBig(m: seq<byte>, o: nat)
    requires o + 4 <= |m|
    ensures WordAt(m, o) == Big(m, o)
  {
  }
}
