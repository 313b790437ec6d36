/** Turning an ELF object into a relocatable object without addend fields: addends move
    into the words to be relocated, and read-only data goes behind the data. */
module Elf {
  import opened Bytes
  import opened Loader
  import opened RelocOrder

  datatype SectionType = ProgBits | NoBits | OtherBits

  /** The type of a section and its flags. */
  datatype Shdr = Shdr(bits: SectionType, exec: bool, alloc: bool, write: bool)

  predicate IsText(s: Shdr) { s.bits == ProgBits && s.exec }

  predicate IsData(s: Shdr) { s.bits == ProgBits && !s.exec && s.alloc }

  predicate IsBss(s: Shdr) { s.bits == NoBits }

  /** A symbol: a section, or a name that is resolved when linking. */
  datatype Sym = Sym(isSection: bool, shndx: nat, name: seq<byte>)

  datatype RelocType = R_68K_NONE | R_68K_32 | R_68K_OTHER

  datatype Rela = Rela(offset: nat, sym: nat, rtype: RelocType, addend: word)

  /** The bytes of a section, and the byte that follows them in the file. */
  datatype Section = Section(bytes: seq<byte>, following: byte)

  /** Section numbers are -1 when there is no such section. */
  datatype Object = Object(
    sects: seq<Shdr>, syms: seq<Sym>,
    text: seq<byte>, data: Section, rodataString: Section, rodata: Section,
    textIndex: int, dataIndex: int, rodataStringIndex: int, rodataIndex: int,
    relaText: seq<Rela>, relaData: seq<Rela>)

  // ---------- layout ----------

  /** A section that is written with an even length. */
  function Even(s: Section): (b: seq<byte>)
    ensures |b| % 2 == 0 && |s.bytes| <= |b| <= |s.bytes| + 1 && s.bytes <= b
  {
    if |s.bytes| % 2 == 1 then s.bytes + [s.following] else s.bytes
  }

  /** The data segment: .data, then .rodata.str1.1, then .rodata. */
  function DataSegment(o: Object): seq<byte> { Even(o.data) + Even(o.rodataString) + Even(o.rodata) }

  /** Where a section ends up, for given segment addresses. */
  function SectionAddress(o: Object, section: nat, b: Bases): nat
    requires section < |o.sects|
  {
    if section == o.rodataStringIndex then b.data + |Even(o.data)|
    else if section == o.rodataIndex then b.data + |Even(o.data)| + |Even(o.rodataString)|
    else if IsBss(o.sects[section]) then b.bss
    else if IsData(o.sects[section]) then b.data
    else b.text
  }

  /** What a symbol stands for. */
  function Address(o: Object, sym: nat, b: Bases, x: Symbols): int
    requires Known(o, sym)
  {
    if o.syms[sym].isSection then SectionAddress(o, o.syms[sym].shndx, b) else x(o.syms[sym].name)
  }

  /** A named symbol, or one for a section that has a place in the output. */
  predicate Known(o: Object, sym: nat) {
    && sym < |o.syms| && |o.syms[sym].name| < 0x1_0000
    && (o.syms[sym].isSection ==>
          && o.syms[sym].name == [] && o.syms[sym].shndx < |o.sects|
          && var n, s := o.syms[sym].shndx, o.sects[o.syms[sym].shndx];
             if n == o.rodataStringIndex || n == o.rodataIndex then IsData(s)
             else IsBss(s) || (IsData(s) && n == o.dataIndex) || (IsText(s) && n == o.textIndex))
  }

  /** The relocations of a section: known symbols, words that are inside the section,
      that share no byte, and that hold zero. */
  ghost predicate Sound(o: Object, rs: seq<Rela>, bytes: seq<byte>) {
    && (forall i :: 0 <= i < |rs| ==> Known(o, rs[i].sym) && rs[i].offset < WORD)
    && (forall i :: 0 <= i < |rs| && rs[i].rtype == R_68K_32 ==>
          rs[i].offset + 4 <= |bytes| && WordAt(bytes, rs[i].offset) == 0)
    && RelasApart(rs)
  }

  ghost predicate RelaApart(r: Rela, s: Rela) {
    r.rtype == s.rtype == R_68K_32 ==> r.offset + 4 <= s.offset || s.offset + 4 <= r.offset
  }

  ghost predicate RelasApart(rs: seq<Rela>) {
    forall i, j :: 0 <= i < j < |rs| ==> RelaApart(rs[i], rs[j])
  }

  ghost predicate WellFormed(o: Object) {
    && Sound(o, o.relaText, o.text) && Sound(o, o.relaData, o.data.bytes)
    && (o.relaText != [] ==> 0 <= o.textIndex < |o.sects| && IsText(o.sects[o.textIndex]))
    && (o.relaData != [] ==> 0 <= o.dataIndex < |o.sects| && IsData(o.sects[o.dataIndex]))
    && (o.rodataStringIndex >= 0 ==> o.rodataStringIndex != o.rodataIndex)
    && (o.dataIndex < 0 ==> o.data.bytes == []) && (o.rodataStringIndex < 0 ==> o.rodataString.bytes == [])
  }

  // ---------- addends of read-only data ----------

  /** The relocation with its addend counted from the start of the data segment, when
      its symbol is the given section. */
  function Fixed(o: Object, r: Rela, section: int, offset: nat): Rela {
    if r.rtype == R_68K_32 && r.sym < |o.syms| && o.syms[r.sym].isSection && o.syms[r.sym].shndx == section
    then r.(addend := (r.addend + offset) % WORD)
    else r
  }

  function BothFixed(o: Object, r: Rela): Rela {
    Fixed(o, Fixed(o, r, o.rodataStringIndex, |Even(o.data)|), o.rodataIndex, |Even(o.data)| + |Even(o.rodataString)|)
  }

  method FixupRodataOffset(o: Object, rarray: array<Rela>, rodataIndex: int, dataOffset: nat)
    modifies rarray
    ensures forall i :: 0 <= i < rarray.Length ==> rarray[i] == Fixed(o, old(rarray[i]), rodataIndex, dataOffset)
  {
    for i := 0 to rarray.Length
      invariant forall j :: 0 <= j < rarray.Length ==>
                  rarray[j] == if j < i then Fixed(o, old(rarray[j]), rodataIndex, dataOffset) else old(rarray[j])
    {
      var r := rarray[i];
      if r.rtype == R_68K_32 && r.sym < |o.syms| {
        if o.syms[r.sym].isSection && o.syms[r.sym].shndx == rodataIndex {
          rarray[i] := r.(addend := (r.addend + dataOffset) % WORD);
        }
      }
    }
  }

  /** The relocations of a section, their addends fixed and in ascending order. */
  method PrepareRelocs(o: Object, rs: seq<Rela>) returns (sorted: seq<Rela>)
    requires WellFormed(o)
    ensures Prepared(o, rs, sorted)
  {
    var rarray := new Rela[|rs|](i requires 0 <= i < |rs| => rs[i]);
    var dataOffset := 0;
    if o.dataIndex >= 0 {
      dataOffset := dataOffset + |Even(o.data)|;
    }
    FixupRodataOffset(o, rarray, o.rodataStringIndex, dataOffset);
    if o.rodataStringIndex >= 0 {
      dataOffset := dataOffset + |Even(o.rodataString)|;
    }
    FixupRodataOffset(o, rarray, o.rodataIndex, dataOffset);
    assert rarray[..] == Map(Fixer(o), rs);
    sorted := Qsort(rarray[..], (r: Rela) => r.offset);
  }

  // ---------- records ----------

  /** The segment that a symbol is in, as bits of a record's kind; external otherwise. */
  function KindOf(o: Object, r: Rela, segment: nat): nat
    requires Known(o, r.sym)
  {
    if r.rtype != R_68K_32 then 0
    else if !o.syms[r.sym].isSection then 0x8000 + segment
    else
      var s := o.sects[o.syms[r.sym].shndx];
      if IsBss(s) then 0xC0 + segment
      else if IsData(s) then 0x80 + segment
      else 0x40 + segment
  }

  function RecordOf(o: Object, r: Rela, segment: nat): Reloc
    requires Known(o, r.sym)
  {
    Reloc(r.offset, KindOf(o, r, segment), o.syms[r.sym].name)
  }

  /** The record of a relocation; the offset alone for one that is not well formed. */
  function Recorder(o: Object, segment: nat): Rela -> Reloc {
    (r: Rela) => if Known(o, r.sym) then RecordOf(o, r, segment) else Reloc(r.offset, 0, [])
  }

  /** A byte of a word that is to be relocated. */
  ghost predicate Covered(rs: seq<Rela>, k: int) {
    exists i :: 0 <= i < |rs| && rs[i].rtype == R_68K_32 && rs[i].offset <= k < rs[i].offset + 4
  }

  /** The first n addends are in their words, the other words still hold zero, and no
      other byte has changed. */
  ghost predicate Embedded(rs: seq<Rela>, n: nat, base: nat, before: seq<byte>, after: seq<byte>) {
    && |after| == |before|
    && (forall i :: 0 <= i < |rs| && rs[i].rtype == R_68K_32 ==>
          base + rs[i].offset + 4 <= |after| && WordAt(after, base + rs[i].offset) == if i < n then rs[i].addend else 0)
    && (forall k :: 0 <= k < |after| && !Covered(rs, k - base) ==> after[k] == before[k])
  }

  lemma PlacesApart(rs: seq<Rela>, n: nat, i: nat)
    requires n < |rs| && i < |rs| && i != n && RelasApart(rs) && rs[n].rtype == rs[i].rtype == R_68K_32
    ensures rs[n].offset + 4 <= rs[i].offset || rs[i].offset + 4 <= rs[n].offset
  {
    if i < n {
      assert RelaApart(rs[i], rs[n]);
    } else {
      assert RelaApart(rs[n], rs[i]);
    }
  }

  lemma EmbeddedNext(rs: seq<Rela>, n: nat, base: nat, before: seq<byte>, after: seq<byte>, next: seq<byte>)
    requires Embedded(rs, n, base, before, after) && n < |rs| && RelasApart(rs)
    requires next == if rs[n].rtype == R_68K_32 && rs[n].addend != 0 then Put(after, base + rs[n].offset, rs[n].addend) else after
    ensures Embedded(rs, n + 1, base, before, next)
  {
    if rs[n].rtype == R_68K_32 && rs[n].addend != 0 {
      var p := base + rs[n].offset;
      WordAfterPut(after, p, rs[n].addend);
      forall i | 0 <= i < |rs| && rs[i].rtype == R_68K_32 && i != n
        ensures base + rs[i].offset + 4 <= |after|
        ensures WordAt(next, base + rs[i].offset) == WordAt(after, base + rs[i].offset)
      {
        EmbeddedWord(rs, n, i, base, before, after);
        PlacesApart(rs, n, i);
        PutElsewhere(after, p, rs[n].addend, base + rs[i].offset);
      }
      forall k | 0 <= k < |next| && !Covered(rs, k - base) ensures next[k] == before[k] {
        assert k < p || p + 4 <= k;
      }
    }
  }

  lemma EmbeddedWord(rs: seq<Rela>, n: nat, i: nat, base: nat, before: seq<byte>, after: seq<byte>)
    requires Embedded(rs, n, base, before, after) && i < |rs| && rs[i].rtype == R_68K_32
    ensures base + rs[i].offset + 4 <= |after| && WordAt(after, base + rs[i].offset) == if i < n then rs[i].addend else 0
  {
  }

  /** Adds to a word that is zero. */
  method AddToZero(image: array<byte>, off: nat, addend: word)
    requires off + 4 <= image.Length && WordAt(image[..], off) == 0
    modifies image
    ensures image[..] == Put(old(image[..]), off, addend)
  {
    var s := WordAt(image[..], off);
    StoreWord(image, off, (addend + s) % WORD);
  }

  /** Puts the addend of relocation i into its word, which is still zero. */
  method EmbedAddend(image: array<byte>, rs: seq<Rela>, i: nat, sectionBase: nat, ghost before: seq<byte>)
    requires i < |rs| && RelasApart(rs) && Embedded(rs, i, sectionBase, before, image[..])
    modifies image
    ensures Embedded(rs, i + 1, sectionBase, before, image[..])
  {
    var r := rs[i];
    ghost var was := image[..];
    if r.rtype == R_68K_32 && r.addend != 0 {
      EmbeddedWord(rs, i, i, sectionBase, before, was);
      AddToZero(image, sectionBase + r.offset, r.addend);
    }
    EmbeddedNext(rs, i, sectionBase, before, was, image[..]);
  }

  /** Writes the records of a section and moves the addends into the section. */
  method EmitReloc(o: Object, image: array<byte>, rs: seq<Rela>, relocSection: int, sectionBase: nat)
    returns (records: seq<byte>)
    requires 0 <= relocSection < |o.sects| && (IsText(o.sects[relocSection]) || IsData(o.sects[relocSection]))
    requires forall i :: 0 <= i < |rs| ==> Known(o, rs[i].sym)
    requires Embedded(rs, 0, sectionBase, image[..], image[..]) && RelasApart(rs)
    modifies image
    ensures Embedded(rs, |rs|, sectionBase, old(image[..]), image[..])
    ensures records == EncodeAll(Map(Recorder(o, if IsData(o.sects[relocSection]) then DATA else TEXT), rs))
  {
    var segment := 0;
    if IsText(o.sects[relocSection]) {
      segment := TEXT;
    }
    if IsData(o.sects[relocSection]) {
      segment := DATA;
    }
    records := [];
    ghost var before := image[..];
    ghost var f := Recorder(o, segment);
    for i := 0 to |rs|
      invariant Embedded(rs, i, sectionBase, before, image[..])
      invariant records == EncodeAll(Map(f, rs[..i]))
    {
      EmbedAddend(image, rs, i, sectionBase, before);
      EncodeNext(f, rs, i);
      records := records + Encode(RecordOf(o, rs[i], segment));
    }
    assert rs[..|rs|] == rs;
  }

  method StoreWord(image: array<byte>, off: nat, w: word)
    requires off + 4 <= image.Length
    modifies image
    ensures image[..] == Put(old(image[..]), off, w)
  {
    ghost var was := image[..];
    var b := ToBe(w);
    image[off], image[off + 1], image[off + 2], image[off + 3] := b[0], b[1], b[2], b[3];
    assert image[..] == was[..off] + b + was[off + 4..];
  }

  // ---------- loading the result ----------

  /** A word keeps its value when no record changes one of its bytes. */
  lemma {:induction false} WordUntouched(seg: nat, rs: seq<Reloc>, b: Bases, x: Symbols, m: seq<byte>, p: nat)
    requires p + 4 <= |m|
    requires forall i :: 0 <= i < |rs| && Target(rs[i]) == seg ==> rs[i].offset + 4 <= p || p + 4 <= rs[i].offset
    ensures WordAt(Relocate(seg, rs, b, x, m), p) == WordAt(m, p)
  {
    if rs != [] {
      var r := rs[0];
      if Target(r) == seg && r.offset + 4 <= |m| {
        PutElsewhere(m, r.offset, (WordAt(m, r.offset) + Delta(r, b, x)) % WORD, p);
      }
      WordUntouched(seg, rs[1..], b, x, Apply(seg, r, b, x, m), p);
    }
  }

  lemma {:induction false} ByteUntouched(seg: nat, rs: seq<Reloc>, b: Bases, x: Symbols, m: seq<byte>, k: nat)
    requires k < |m| && forall i :: 0 <= i < |rs| && Target(rs[i]) == seg ==> !(rs[i].offset <= k < rs[i].offset + 4)
    ensures Relocate(seg, rs, b, x, m)[k] == m[k]
  {
    if rs != [] {
      assert Apply(seg, rs[0], b, x, m)[k] == m[k];
      ByteUntouched(seg, rs[1..], b, x, Apply(seg, rs[0], b, x, m), k);
    }
  }

  /** A record shares no byte with any of the others. */
  lemma OthersApart(rs: seq<Reloc>, i: nat, rest: seq<Reloc>)
    requires i < |rs| && AllApart(rs) && rest == rs[..i] + rs[i + 1..] && Target(rs[i]) in {TEXT, DATA}
    ensures forall j :: 0 <= j < i ==> Separate(rs[i], rs[j])
    ensures forall j :: 0 <= j < |rest| && Target(rest[j]) == Target(rs[i]) ==>
              rest[j].offset + 4 <= rs[i].offset || rs[i].offset + 4 <= rest[j].offset
  {
    forall j | 0 <= j < i ensures Separate(rs[i], rs[j]) {
      assert Apart(rs[j], rs[i]);
    }
    forall j | 0 <= j < |rest| && Target(rest[j]) == Target(rs[i])
      ensures rest[j].offset + 4 <= rs[i].offset || rs[i].offset + 4 <= rest[j].offset
    {
      if j < i {
        assert rest[j] == rs[j] && Apart(rs[j], rs[i]);
      } else {
        assert rest[j] == rs[j + 1] && Apart(rs[i], rs[j + 1]);
      }
    }
  }

  /** A record that shares no byte with the others adds exactly its own address. */
  lemma WordRelocated(seg: nat, rs: seq<Reloc>, i: nat, b: Bases, x: Symbols, m: seq<byte>)
    requires i < |rs| && AllApart(rs) && Target(rs[i]) == seg && seg in {TEXT, DATA} && rs[i].offset + 4 <= |m|
    ensures WordAt(Relocate(seg, rs, b, x, m), rs[i].offset) == (WordAt(m, rs[i].offset) + Delta(rs[i], b, x)) % WORD
  {
    var r, rest := rs[i], rs[..i] + rs[i + 1..];
    OthersApart(rs, i, rest);
    ApplyFirst(seg, rs, i, b, x, m);
    WordAfterPut(m, r.offset, (WordAt(m, r.offset) + Delta(r, b, x)) % WORD);
    WordUntouched(seg, rest, b, x, Apply(seg, r, b, x, m), r.offset);
  }

  /** Loading a section gives every word of it the address of its symbol plus its
      addend, and leaves all other bytes as they were. */
  ghost predicate LoadsRight(o: Object, seg: nat, before: seq<byte>, rs: seq<Rela>, image: seq<byte>, ss: seq<Reloc>,
                             b: Bases, x: Symbols)
    requires forall i :: 0 <= i < |rs| ==> Known(o, rs[i].sym)
  {
    var m := Relocate(seg, ss, b, x, image);
    && |m| == |before|
    && (forall i :: 0 <= i < |rs| && rs[i].rtype == R_68K_32 ==>
          rs[i].offset + 4 <= |m| && WordAt(m, rs[i].offset) == (Address(o, rs[i].sym, b, x) + rs[i].addend) % WORD)
    && (forall k :: 0 <= k < |m| && !Covered(rs, k) ==> m[k] == before[k])
  }

  /** The embedded addend and the record's address make up what the relocation means. */
  lemma FixedMeaning(o: Object, r: Rela, segment: nat, b: Bases, x: Symbols)
    requires WellFormed(o) && Known(o, r.sym) && r.rtype == R_68K_32 && segment in {TEXT, DATA}
    ensures (BothFixed(o, r).addend + Delta(RecordOf(o, r, segment), b, x)) % WORD == (Address(o, r.sym, b, x) + r.addend) % WORD
    ensures Target(RecordOf(o, r, segment)) == segment
  {
    var d := Delta(RecordOf(o, r, segment), b, x);
    if o.syms[r.sym].isSection {
      var n := o.syms[r.sym].shndx;
      if n == o.rodataStringIndex {
        ModShift(r.addend + |Even(o.data)|, d);
      } else if n == o.rodataIndex {
        ModShift(r.addend + (|Even(o.data)| + |Even(o.rodataString)|), d);
      }
    }
  }

  /** The relocations of a section, fixed, in the order in which they are emitted. */
  ghost predicate Prepared(o: Object, rs: seq<Rela>, sorted: seq<Rela>) {
    multiset(sorted) == multiset(Map(Fixer(o), rs))
  }

  function Fixer(o: Object): Rela -> Rela { (r: Rela) => BothFixed(o, r) }

  /** Each prepared relocation comes from one of the section, at the same word. */
  lemma PreparedFrom(o: Object, rs: seq<Rela>, sorted: seq<Rela>, j: nat) returns (i: nat)
    requires Prepared(o, rs, sorted) && j < |sorted|
    ensures i < |rs| && sorted[j] == BothFixed(o, rs[i])
  {
    assert sorted[j] in multiset(Map(Fixer(o), rs));
    i :| 0 <= i < |rs| && Map(Fixer(o), rs)[i] == sorted[j];
  }

  lemma PreparedTo(o: Object, rs: seq<Rela>, sorted: seq<Rela>, i: nat) returns (j: nat)
    requires Prepared(o, rs, sorted) && i < |rs|
    ensures j < |sorted| && sorted[j] == BothFixed(o, rs[i])
  {
    assert Map(Fixer(o), rs)[i] in multiset(sorted);
    j :| 0 <= j < |sorted| && sorted[j] == BothFixed(o, rs[i]);
  }

  lemma PreparedApart(o: Object, rs: seq<Rela>, sorted: seq<Rela>)
    requires Prepared(o, rs, sorted) && RelasApart(rs)
    ensures RelasApart(sorted)
  {
    var fixed := Map(Fixer(o), rs);
    forall i, j | 0 <= i < j < |sorted| ensures RelaApart(sorted[i], sorted[j]) {
      var p, q := PairPlaces(fixed, sorted, i, j);
      assert RelaApart(rs[if p < q then p else q], rs[if p < q then q else p]);
    }
  }

  lemma PreparedCovered(o: Object, rs: seq<Rela>, sorted: seq<Rela>, k: int)
    requires Prepared(o, rs, sorted)
    ensures Covered(rs, k) <==> Covered(sorted, k)
  {
    if Covered(rs, k) {
      var i :| 0 <= i < |rs| && rs[i].rtype == R_68K_32 && rs[i].offset <= k < rs[i].offset + 4;
      var j := PreparedTo(o, rs, sorted, i);
    }
    if Covered(sorted, k) {
      var j :| 0 <= j < |sorted| && sorted[j].rtype == R_68K_32 && sorted[j].offset <= k < sorted[j].offset + 4;
      var i := PreparedFrom(o, rs, sorted, j);
    }
  }

  /** Before the first addend is embedded. */
  lemma PreparedEmbeds(o: Object, rs: seq<Rela>, sorted: seq<Rela>, bytes: seq<byte>, base: nat, image: seq<byte>)
    requires Prepared(o, rs, sorted) && Sound(o, rs, bytes) && At(image, base, bytes)
    ensures Embedded(sorted, 0, base, image, image) && RelasApart(sorted)
    ensures forall j :: 0 <= j < |sorted| ==> Known(o, sorted[j].sym) && sorted[j].offset < WORD
  {
    PreparedApart(o, rs, sorted);
    forall j | 0 <= j < |sorted|
      ensures Known(o, sorted[j].sym) && sorted[j].offset < WORD
      ensures sorted[j].rtype == R_68K_32 ==>
                base + sorted[j].offset + 4 <= |image| && WordAt(image, base + sorted[j].offset) == 0
    {
      var i := PreparedFrom(o, rs, sorted, j);
      if sorted[j].rtype == R_68K_32 {
        WordInside(image, base, bytes, rs[i].offset);
      }
    }
  }

  lemma WordInside(whole: seq<byte>, base: nat, part: seq<byte>, off: nat)
    requires At(whole, base, part) && off + 4 <= |part|
    ensures WordAt(whole, base + off) == WordAt(part, off)
  {
    AtInside(whole, base, part, off, part[off..off + 4]);
  }

  /** The records of a segment in a list that holds records of both: all that change the
      segment come from its relocations, and all of those are there. */
  ghost predicate RecordsOf(o: Object, seg: nat, sorted: seq<Rela>, ss: seq<Reloc>) {
    && (forall i :: 0 <= i < |ss| && Target(ss[i]) == seg ==>
          exists j :: 0 <= j < |sorted| && sorted[j].rtype == R_68K_32 && ss[i].offset == sorted[j].offset)
    && (forall j :: 0 <= j < |sorted| && sorted[j].rtype == R_68K_32 ==> Recorder(o, seg)(sorted[j]) in ss)
  }

  lemma RecordMeaning(o: Object, seg: nat, r: Rela, fixed: Rela, rec: Reloc, b: Bases, x: Symbols)
    requires WellFormed(o) && Known(o, r.sym) && r.rtype == R_68K_32 && fixed == BothFixed(o, r) && seg in {TEXT, DATA}
    requires rec == Recorder(o, seg)(fixed)
    ensures rec.offset == r.offset && Target(rec) == seg
    ensures (fixed.addend + Delta(rec, b, x)) % WORD == (Address(o, r.sym, b, x) + r.addend) % WORD
  {
    FixedMeaning(o, r, seg, b, x);
  }

  lemma RecordLoads(seg: nat, ss: seq<Reloc>, rec: Reloc, b: Bases, x: Symbols, image: seq<byte>)
    requires rec in ss && AllApart(ss) && Target(rec) == seg && seg in {TEXT, DATA} && rec.offset + 4 <= |image|
    ensures WordAt(Relocate(seg, ss, b, x, image), rec.offset) == (WordAt(image, rec.offset) + Delta(rec, b, x)) % WORD
  {
    var i :| 0 <= i < |ss| && ss[i] == rec;
    WordRelocated(seg, ss, i, b, x, image);
  }

  /** The segment part of an image in which the addends of a section are embedded loads
      right. */
  lemma SegmentLoads(o: Object, seg: nat, before: seq<byte>, rs: seq<Rela>, sorted: seq<Rela>, image: seq<byte>,
                     ss: seq<Reloc>, b: Bases, x: Symbols)
    requires WellFormed(o) && seg in {TEXT, DATA} && Prepared(o, rs, sorted) && Embedded(sorted, |sorted|, 0, before, image)
    requires forall i :: 0 <= i < |rs| ==> Known(o, rs[i].sym)
    requires AllApart(ss) && RecordsOf(o, seg, sorted, ss)
    ensures LoadsRight(o, seg, before, rs, image, ss, b, x)
  {
    var m := Relocate(seg, ss, b, x, image);
    forall i | 0 <= i < |rs| && rs[i].rtype == R_68K_32
      ensures rs[i].offset + 4 <= |m| && WordAt(m, rs[i].offset) == (Address(o, rs[i].sym, b, x) + rs[i].addend) % WORD
    {
      var rec := NthRecord(o, seg, before, rs, sorted, image, ss, b, x, i);
      RecordLoads(seg, ss, rec, b, x, image);
    }
    forall k | 0 <= k < |m| && !Covered(rs, k) ensures m[k] == before[k] {
      OtherByteLoads(o, seg, before, rs, sorted, image, ss, b, x, k);
    }
  }

  /** The record of a relocation, and what it makes of the embedded addend. */
  lemma NthRecord(o: Object, seg: nat, before: seq<byte>, rs: seq<Rela>, sorted: seq<Rela>, image: seq<byte>,
                  ss: seq<Reloc>, b: Bases, x: Symbols, i: nat) returns (rec: Reloc)
    requires WellFormed(o) && seg in {TEXT, DATA} && Prepared(o, rs, sorted) && Embedded(sorted, |sorted|, 0, before, image)
    requires RecordsOf(o, seg, sorted, ss) && i < |rs| && Known(o, rs[i].sym) && rs[i].rtype == R_68K_32
    ensures rec in ss && Target(rec) == seg && rec.offset == rs[i].offset && rec.offset + 4 <= |image|
    ensures (WordAt(image, rec.offset) + Delta(rec, b, x)) % WORD == (Address(o, rs[i].sym, b, x) + rs[i].addend) % WORD
  {
    var j := PreparedTo(o, rs, sorted, i);
    rec := Recorder(o, seg)(sorted[j]);
    RecordMeaning(o, seg, rs[i], sorted[j], rec, b, x);
  }

  lemma OtherByteLoads(o: Object, seg: nat, before: seq<byte>, rs: seq<Rela>, sorted: seq<Rela>, image: seq<byte>,
                       ss: seq<Reloc>, b: Bases, x: Symbols, k: nat)
    requires seg in {TEXT, DATA} && Prepared(o, rs, sorted) && Embedded(sorted, |sorted|, 0, before, image)
    requires RecordsOf(o, seg, sorted, ss) && k < |image| && !Covered(rs, k)
    ensures Relocate(seg, ss, b, x, image)[k] == before[k]
  {
    PreparedCovered(o, rs, sorted, k);
    ByteUntouched(seg, ss, b, x, image, k);
  }

  /** The words to be relocated are inside this many bytes. */
  ghost predicate Inside(rs: seq<Rela>, n: nat) {
    forall i :: 0 <= i < |rs| && rs[i].rtype == R_68K_32 ==> rs[i].offset + 4 <= n
  }

  /** Addends embedded in the first part of an image are in that part. */
  lemma EmbeddedFront(rs: seq<Rela>, front: seq<byte>, back: seq<byte>, after: seq<byte>)
    requires Embedded(rs, |rs|, 0, front + back, after) && Inside(rs, |front|)
    ensures Embedded(rs, |rs|, 0, front, after[..|front|]) && after[|front|..] == back
  {
    var part, n := after[..|front|], |front|;
    assert At(after, 0, part);
    forall i | 0 <= i < |rs| && rs[i].rtype == R_68K_32 ensures WordAt(part, rs[i].offset) == rs[i].addend {
      WordInside(after, 0, part, rs[i].offset);
    }
    forall k | 0 <= k < n && !Covered(rs, k) ensures part[k] == front[k] {
      assert after[k] == (front + back)[k];
    }
    forall k | 0 <= k < |back| ensures after[n..][k] == back[k] {
      assert !Covered(rs, n + k);
      assert after[n + k] == (front + back)[n + k];
    }
  }

  /** Addends embedded in the second part of an image are in that part. */
  lemma EmbeddedBack(rs: seq<Rela>, front: seq<byte>, back: seq<byte>, after: seq<byte>)
    requires Embedded(rs, |rs|, |front|, front + back, after)
    ensures Embedded(rs, |rs|, 0, back, after[|front|..]) && after[..|front|] == front
  {
    var part, n := after[|front|..], |front|;
    assert At(after, n, part);
    forall i | 0 <= i < |rs| && rs[i].rtype == R_68K_32 ensures WordAt(part, rs[i].offset) == rs[i].addend {
      WordInside(after, n, part, rs[i].offset);
    }
    forall k | 0 <= k < |back| && !Covered(rs, k) ensures part[k] == back[k] {
      assert after[n + k] == (front + back)[n + k];
    }
    forall k | 0 <= k < n ensures after[..n][k] == front[k] {
      assert !Covered(rs, k - n);
      assert after[k] == (front + back)[k];
    }
  }

  lemma RecordTarget(o: Object, seg: nat, r: Rela)
    requires seg in {TEXT, DATA} && Known(o, r.sym)
    ensures Target(Recorder(o, seg)(r)) == (if r.rtype == R_68K_32 then seg else 0) && Recorder(o, seg)(r).offset == r.offset
    ensures r.offset < WORD ==> Storable(Recorder(o, seg)(r))
  {
  }

  ghost predicate AllKnown(o: Object, rs: seq<Rela>) {
    forall i :: 0 <= i < |rs| ==> Known(o, rs[i].sym) && rs[i].offset < WORD
  }

  /** The records of both sections. */
  function AllRecords(o: Object, s: seq<Rela>, t: seq<Rela>): seq<Reloc> {
    Map(Recorder(o, TEXT), s) + Map(Recorder(o, DATA), t)
  }

  /** The relocation that a record is for, and its segment. */
  lemma RecordSource(o: Object, s: seq<Rela>, t: seq<Rela>, i: nat) returns (seg: nat, r: Rela)
    requires AllKnown(o, s) && AllKnown(o, t) && i < |AllRecords(o, s, t)|
    ensures seg == (if i < |s| then TEXT else DATA) && r == (if i < |s| then s[i] else t[i - |s|]) && Known(o, r.sym)
    ensures r.offset < WORD && AllRecords(o, s, t)[i] == Recorder(o, seg)(r)
  {
    seg := if i < |s| then TEXT else DATA;
    r := if i < |s| then s[i] else t[i - |s|];
  }

  lemma AllRecordsApart(o: Object, s: seq<Rela>, t: seq<Rela>)
    requires AllKnown(o, s) && AllKnown(o, t) && RelasApart(s) && RelasApart(t)
    ensures AllApart(AllRecords(o, s, t)) && AllStorable(AllRecords(o, s, t))
  {
    var rs := AllRecords(o, s, t);
    forall i, j | 0 <= i < j < |rs| ensures Apart(rs[i], rs[j]) {
      var a, p := RecordSource(o, s, t, i);
      var b, q := RecordSource(o, s, t, j);
      RecordTarget(o, a, p);
      RecordTarget(o, b, q);
      if a == b {
        assert RelaApart(p, q);
      }
    }
    forall i | 0 <= i < |rs| ensures Storable(rs[i]) {
      var a, p := RecordSource(o, s, t, i);
      RecordTarget(o, a, p);
    }
  }

  lemma RecordSegment(o: Object, s: seq<Rela>, t: seq<Rela>, ss: seq<Reloc>, i: nat) returns (j: nat)
    requires AllKnown(o, s) && AllKnown(o, t) && multiset(ss) == multiset(AllRecords(o, s, t))
    requires i < |ss| && Target(ss[i]) in {TEXT, DATA}
    ensures var list := if Target(ss[i]) == TEXT then s else t;
            j < |list| && list[j].rtype == R_68K_32 && ss[i].offset == list[j].offset
  {
    var rs := AllRecords(o, s, t);
    assert ss[i] in multiset(rs);
    var k :| 0 <= k < |rs| && rs[k] == ss[i];
    var a, p := RecordSource(o, s, t, k);
    RecordTarget(o, a, p);
    j := if a == TEXT then k else k - |s|;
  }

  /** Each relocation of a section has its record among those of both. */
  lemma RecordPresent(o: Object, s: seq<Rela>, t: seq<Rela>, ss: seq<Reloc>, seg: nat, j: nat)
    requires multiset(ss) == multiset(AllRecords(o, s, t))
    requires seg in {TEXT, DATA} && j < |if seg == TEXT then s else t|
    ensures Recorder(o, seg)((if seg == TEXT then s else t)[j]) in ss
  {
    var rs := AllRecords(o, s, t);
    assert rs[if seg == TEXT then j else |s| + j] in multiset(ss);
  }

  lemma SectionRecords(o: Object, s: seq<Rela>, t: seq<Rela>, ss: seq<Reloc>, seg: nat, list: seq<Rela>)
    requires AllKnown(o, s) && AllKnown(o, t) && multiset(ss) == multiset(AllRecords(o, s, t))
    requires seg in {TEXT, DATA} && list == if seg == TEXT then s else t
    ensures RecordsOf(o, seg, list, ss)
  {
    forall i | 0 <= i < |ss| && Target(ss[i]) == seg
      ensures exists j :: 0 <= j < |list| && list[j].rtype == R_68K_32 && ss[i].offset == list[j].offset
    {
      var j := RecordSegment(o, s, t, ss, i);
    }
    forall j | 0 <= j < |list| ensures Recorder(o, seg)(list[j]) in ss {
      RecordPresent(o, s, t, ss, seg, j);
    }
  }

  lemma BothRecords(o: Object, s: seq<Rela>, t: seq<Rela>, ss: seq<Reloc>)
    requires AllKnown(o, s) && AllKnown(o, t) && multiset(ss) == multiset(AllRecords(o, s, t))
    ensures RecordsOf(o, TEXT, s, ss) && RecordsOf(o, DATA, t, ss)
  {
    SectionRecords(o, s, t, ss, TEXT, s);
    SectionRecords(o, s, t, ss, DATA, t);
  }

  /** Emits the records of one section, if it has relocations. */
  method ConvertSection(o: Object, image: array<byte>, rs: seq<Rela>, section: int, base: nat, ghost bytes: seq<byte>)
    returns (records: seq<byte>, count: nat, ghost sorted: seq<Rela>)
    requires WellFormed(o) && Sound(o, rs, bytes) && At(image[..], base, bytes)
    requires rs != [] ==> 0 <= section < |o.sects| && (IsText(o.sects[section]) || IsData(o.sects[section]))
    modifies image
    ensures Prepared(o, rs, sorted) && AllKnown(o, sorted) && RelasApart(sorted) && count == |sorted|
    ensures Inside(sorted, |bytes|) && Embedded(sorted, |sorted|, base, old(image[..]), image[..])
    ensures records == EncodeAll(Map(Recorder(o, if rs != [] && IsData(o.sects[section]) then DATA else TEXT), sorted))
  {
    sorted := [];
    if rs == [] {
      return [], 0, [];
    }
    var prepared := PrepareRelocs(o, rs);
    sorted := prepared;
    PreparedEmbeds(o, rs, sorted, bytes, base, image[..]);
    forall j | 0 <= j < |sorted| && sorted[j].rtype == R_68K_32 ensures sorted[j].offset + 4 <= |bytes| {
      var i := PreparedFrom(o, rs, sorted, j);
    }
    records := EmitReloc(o, image, prepared, section, base);
    count := |prepared|;
  }

  /** Emits the records of the text section into an image of both segments. */
  method EmitText(o: Object, image: array<byte>) returns (records: seq<byte>, count: nat, ghost s: seq<Rela>)
    requires WellFormed(o) && image[..] == o.text + DataSegment(o)
    modifies image
    ensures Prepared(o, o.relaText, s) && AllKnown(o, s) && RelasApart(s) && count == |s|
    ensures image.Length >= |o.text| && Embedded(s, |s|, 0, o.text, image[..|o.text|])
    ensures image[..] == image[..|o.text|] + DataSegment(o) && At(image[..], |o.text|, o.data.bytes)
    ensures records == EncodeAll(Map(Recorder(o, TEXT), s))
  {
    records, count, s := ConvertSection(o, image, o.relaText, o.textIndex, 0, o.text);
    ghost var one := image[..];
    EmbeddedFront(s, o.text, DataSegment(o), one);
    assert one == one[..|o.text|] + DataSegment(o) && one[..|o.text|] == image[..|o.text|];
    DataInside(o, one[..|o.text|], one);
  }

  /** Lays out the segments and emits the records of both sections. */
  method EmitSections(o: Object)
    returns (text: seq<byte>, data: seq<byte>, records: seq<byte>, count: nat, ghost s: seq<Rela>, ghost t: seq<Rela>)
    requires WellFormed(o)
    ensures Prepared(o, o.relaText, s) && AllKnown(o, s) && RelasApart(s) && Embedded(s, |s|, 0, o.text, text)
    ensures Prepared(o, o.relaData, t) && AllKnown(o, t) && RelasApart(t) && Embedded(t, |t|, 0, DataSegment(o), data)
    ensures records == EncodeAll(AllRecords(o, s, t)) && count == |s| + |t|
  {
    var d := DataSegment(o);
    var whole := o.text + d;
    var image := new byte[|whole|](i requires 0 <= i < |whole| => whole[i]);
    assert image[..] == whole;
    var textRecords, textCount;
    textRecords, textCount, s := EmitText(o, image);
    ghost var one := image[..|o.text|];
    var dataRecords, dataCount;
    dataRecords, dataCount, t := ConvertSection(o, image, o.relaData, o.dataIndex, |o.text|, o.data.bytes);
    EmbeddedBack(t, one, d, image[..]);
    text, data := image[..|o.text|], image[|o.text|..];
    EncodeAllAppend(Map(Recorder(o, TEXT), s), Map(Recorder(o, DATA), t));
    records, count := textRecords + dataRecords, textCount + dataCount;
  }

  /** Converts an object. Loading the result gives every relocated word the address of
      what its symbol stands for plus its addend, and no other byte changes; the
      records are those of both sections, in ascending order of their offsets. */
  method Convert(o: Object, ghost b: Bases, ghost x: Symbols)
    returns (text: seq<byte>, data: seq<byte>, records: seq<byte>)
    requires WellFormed(o)
    ensures records == EncodeAll(DecodeAll(records)) && |DecodeAll(records)| == |o.relaText| + |o.relaData|
    ensures var ss := DecodeAll(records); forall i, j :: 0 <= i < j < |ss| ==> ss[i].offset <= ss[j].offset
    ensures LoadsRight(o, TEXT, o.text, o.relaText, text, DecodeAll(records), b, x)
    ensures LoadsRight(o, DATA, DataSegment(o), o.relaData, data, DecodeAll(records), b, x)
    ensures SectionsStand(o, Relocate(DATA, DecodeAll(records), b, x, data), b)
  {
    var emitted, count;
    ghost var s, t;
    text, data, emitted, count, s, t := EmitSections(o);
    AllRecordsApart(o, s, t);
    records := SortRecords(emitted, count, AllRecords(o, s, t));
    BothSegmentsLoad(o, s, t, DecodeAll(records), text, data, b, x);
    LoadedStands(o, Relocate(DATA, DecodeAll(records), b, x, data), b);
  }

  /** In the loaded data segment every section stands where symbols of it point to: .data
      in front, .rodata.str1.1 and .rodata, whole, at their addresses, and not over each
      other. */
  ghost predicate SectionsStand(o: Object, loaded: seq<byte>, b: Bases) {
    && |o.data.bytes| <= |loaded|
    && (forall k :: 0 <= k < |o.data.bytes| && !Covered(o.relaData, k) ==> loaded[k] == o.data.bytes[k])
    && (0 <= o.rodataStringIndex < |o.sects| ==>
          var at := SectionAddress(o, o.rodataStringIndex, b) - b.data;
          at % 2 == 0 && at >= |o.data.bytes| && At(loaded, at, o.rodataString.bytes))
    && (0 <= o.rodataIndex < |o.sects| && o.rodataIndex != o.rodataStringIndex ==>
          var at := SectionAddress(o, o.rodataIndex, b) - b.data;
          at % 2 == 0 && at >= |o.data.bytes| + |o.rodataString.bytes| && At(loaded, at, o.rodata.bytes))
  }

  /** Symbols of any other section point into bss, to the data or to the text. */
  lemma OtherAddresses(o: Object, n: nat, b: Bases)
    requires n < |o.sects| && n != o.rodataStringIndex && n != o.rodataIndex
    ensures SectionAddress(o, n, b) == match o.sects[n]
                                       case Shdr(NoBits, _, _, _) => b.bss
                                       case Shdr(ProgBits, false, true, _) => b.data
                                       case _ => b.text
  {
  }

  /** Relocated words lie in .data, so everything behind it loads as it was. */
  lemma LoadedStands(o: Object, loaded: seq<byte>, b: Bases)
    requires WellFormed(o) && |loaded| == |DataSegment(o)|
    requires forall k :: 0 <= k < |loaded| && !Covered(o.relaData, k) ==> loaded[k] == DataSegment(o)[k]
    ensures SectionsStand(o, loaded, b)
  {
    DataStands(o, loaded, DataSegment(o));
    RodataStands(o, loaded);
    SectionPlaces(o, b);
  }

  /** Where both read-only sections stand in the data segment. */
  lemma SectionPlaces(o: Object, b: Bases)
    ensures 0 <= o.rodataStringIndex < |o.sects| ==> SectionAddress(o, o.rodataStringIndex, b) - b.data == |Even(o.data)|
    ensures 0 <= o.rodataIndex < |o.sects| && o.rodataIndex != o.rodataStringIndex ==>
              SectionAddress(o, o.rodataIndex, b) - b.data == |Even(o.data)| + |Even(o.rodataString)|
  {
  }

  lemma RodataStands(o: Object, loaded: seq<byte>)
    requires WellFormed(o) && |loaded| == |DataSegment(o)|
    requires forall k :: 0 <= k < |loaded| && !Covered(o.relaData, k) ==> loaded[k] == DataSegment(o)[k]
    ensures At(loaded, |Even(o.data)|, o.rodataString.bytes)
    ensures At(loaded, |Even(o.data)| + |Even(o.rodataString)|, o.rodata.bytes)
  {
    var n, d, s, r := |o.data.bytes|, Even(o.data), Even(o.rodataString), Even(o.rodata);
    forall k | n <= k < |loaded| ensures loaded[k] == (d + s + r)[k] {
      BehindData(o, k);
    }
    StandsBehind(d, s, r, n, loaded, o.rodataString.bytes);
    StandsLast(d + s, r, n, loaded, o.rodata.bytes);
  }

  lemma DataStands(o: Object, loaded: seq<byte>, whole: seq<byte>)
    requires |loaded| == |whole| && o.data.bytes <= whole
    requires forall k :: 0 <= k < |loaded| && !Covered(o.relaData, k) ==> loaded[k] == whole[k]
    ensures forall k :: 0 <= k < |o.data.bytes| && !Covered(o.relaData, k) ==> loaded[k] == o.data.bytes[k]
  {
  }

  lemma BehindData(o: Object, k: nat)
    requires WellFormed(o) && k >= |o.data.bytes|
    ensures !Covered(o.relaData, k)
  {
  }

  lemma StandsBehind(d: seq<byte>, s: seq<byte>, r: seq<byte>, n: nat, loaded: seq<byte>, m: seq<byte>)
    requires n <= |d| && m <= s && |loaded| == |d + s + r|
    requires forall k :: n <= k < |loaded| ==> loaded[k] == (d + s + r)[k]
    ensures At(loaded, |d|, m)
  {
    forall i | 0 <= i < |m| ensures loaded[|d| + i] == m[i] {
      assert (d + s + r)[|d| + i] == s[i];
    }
    assert loaded[|d|..|d| + |m|] == m;
  }

  lemma StandsLast(front: seq<byte>, r: seq<byte>, n: nat, loaded: seq<byte>, m: seq<byte>)
    requires n <= |front| && m <= r && |loaded| == |front + r|
    requires forall k :: n <= k < |loaded| ==> loaded[k] == (front + r)[k]
    ensures At(loaded, |front|, m)
  {
    forall i | 0 <= i < |m| ensures loaded[|front| + i] == m[i] {
      assert (front + r)[|front| + i] == r[i];
    }
    assert loaded[|front|..|front| + |m|] == m;
  }

  /** Any order of all records loads both segments right. */
  lemma BothSegmentsLoad(o: Object, s: seq<Rela>, t: seq<Rela>, ss: seq<Reloc>, text: seq<byte>, data: seq<byte>,
                         b: Bases, x: Symbols)
    requires WellFormed(o) && Prepared(o, o.relaText, s) && Prepared(o, o.relaData, t)
    requires AllKnown(o, s) && AllKnown(o, t) && RelasApart(s) && RelasApart(t)
    requires Embedded(s, |s|, 0, o.text, text) && Embedded(t, |t|, 0, DataSegment(o), data)
    requires multiset(ss) == multiset(AllRecords(o, s, t))
    ensures |ss| == |o.relaText| + |o.relaData|
    ensures LoadsRight(o, TEXT, o.text, o.relaText, text, ss, b, x)
    ensures LoadsRight(o, DATA, DataSegment(o), o.relaData, data, ss, b, x)
  {
    var all := AllRecords(o, s, t);
    SameLength(o.relaText, s, o);
    SameLength(o.relaData, t, o);
    assert |ss| == |multiset(ss)| == |multiset(all)| == |all|;
    AllRecordsApart(o, s, t);
    ApartPermutes(all, ss);
    BothRecords(o, s, t, ss);
    SegmentLoads(o, TEXT, o.text, o.relaText, s, text, ss, b, x);
    SegmentLoads(o, DATA, DataSegment(o), o.relaData, t, data, ss, b, x);
  }

  lemma SameLength(rs: seq<Rela>, sorted: seq<Rela>, o: Object)
    requires Prepared(o, rs, sorted)
    ensures |sorted| == |rs|
  {
    assert |sorted| == |multiset(sorted)| == |multiset(Map(Fixer(o), rs))|;
  }

  lemma DataInside(o: Object, front: seq<byte>, image: seq<byte>)
    requires image == front + DataSegment(o)
    ensures At(image, |front|, o.data.bytes)
  {
    AtFront(Even(o.data), Even(o.rodataString), Even(o.rodata));
    AtInside(DataSegment(o), 0, Even(o.data), 0, o.data.bytes);
    AtBehind(front, DataSegment(o), 0, o.data.bytes);
  }
}
