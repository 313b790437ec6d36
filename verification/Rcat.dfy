/** Rebasing one unit, in place in the buffer it was read into. */
module Rcat {
  import opened Bytes
  import opened Loader
  import opened RcatLoading

  /** A compile unit read from a relocatable file: a 64-byte header, the text, the
      data, the relocation records, and then symbols, comment and name. */
  class CompileUnit {
    const textsize: nat
    const datasize: nat
    const bsssize: nat
    const relocsize: nat
    const content: array<byte>
    var textoff: nat
    var dataoff: nat
    var bssoff: nat

    constructor (textsize: nat, datasize: nat, bsssize: nat, relocsize: nat, content: array<byte>)
      ensures this.textsize == textsize && this.datasize == datasize && this.bsssize == bsssize
      ensures this.relocsize == relocsize && this.content == content
    {
      this.textsize, this.datasize, this.bsssize, this.relocsize := textsize, datasize, bsssize, relocsize;
      this.content := content;
      textoff, dataoff, bssoff := 0, 0, 0;
    }

    ghost predicate Sized()
    {
      && HEADER + textsize + datasize + relocsize <= content.Length
      && HEADER + RoundUp(textsize) <= content.Length
    }

    function RelocStart(): nat { HEADER + textsize + datasize }

    function Shifts(): Bases
      reads this
    {
      Bases(textoff, dataoff, bssoff)
    }

    ghost function Text(c: seq<byte>): seq<byte>
      requires Sized() && |c| == content.Length
    {
      c[HEADER..HEADER + textsize]
    }

    ghost function Data(c: seq<byte>): seq<byte>
      requires Sized() && |c| == content.Length
    {
      c[HEADER + textsize..RelocStart()]
    }
  }

  /** A unit's buffer in the middle of the record walk: the records in `done` have
      been rebased, the ones in `rem` are still to come. */
  datatype Walk = Walk(header: seq<byte>, text: seq<byte>, data: seq<byte>,
                       done: seq<byte>, rem: seq<Reloc>, rest: seq<byte>)

  /** Records fit their fields, have offsets below 2^24, and point inside their section. */
  ghost predicate Fine(w: Walk) {
    && (forall i :: 0 <= i < |w.rem| ==> Storable(w.rem[i]) && w.rem[i].offset < 0x100_0000)
    && InRange(TEXT, w.rem, |w.text|) && InRange(DATA, w.rem, |w.data|)
  }

  function Front(w: Walk): seq<byte> { w.header + w.text + w.data + w.done }

  function Buffer(w: Walk): seq<byte> { Front(w) + EncodeAll(w.rem) + w.rest }

  /** The walk when all its records have been rebased. */
  function Outcome(w: Walk, o: Bases): Walk {
    Walk(w.header, Relocate(TEXT, w.rem, o, NoSymbols(), w.text), Relocate(DATA, w.rem, o, NoSymbols(), w.data),
         w.done + EncodeAll(ShiftAll(w.rem, o)), [], w.rest)
  }

  function Advance(w: Walk, o: Bases): Walk
    requires w.rem != []
  {
    var r := w.rem[0];
    Walk(w.header, Apply(TEXT, r, o, NoSymbols(), w.text), Apply(DATA, r, o, NoSymbols(), w.data),
         w.done + Encode(Shift(r, o)), w.rem[1..], w.rest)
  }

  lemma AdvanceOutcome(w: Walk, o: Bases)
    requires w.rem != []
    ensures Outcome(Advance(w, o), o) == Outcome(w, o)
    ensures |Front(Advance(w, o))| == |Front(w)| + 8 + |w.rem[0].name|
  {
    var all, r := ShiftAll(w.rem, o), w.rem[0];
    assert all[0] == Shift(r, o) && all[1..] == ShiftAll(w.rem[1..], o);
    assert w.done + (Encode(all[0]) + EncodeAll(all[1..])) == w.done + Encode(all[0]) + EncodeAll(all[1..]);
  }

  lemma AdvanceFine(w: Walk, o: Bases)
    requires Fine(w) && w.rem != []
    ensures Fine(Advance(w, o))
  {
  }

  lemma BufferAtRecord(w: Walk)
    requires w.rem != []
    ensures Buffer(w) == Front(w) + Encode(w.rem[0]) + (EncodeAll(w.rem[1..]) + w.rest)
  {
    Regroup(Front(w), Encode(w.rem[0]), EncodeAll(w.rem[1..]), w.rest);
  }

  lemma EncodedFields(pre: seq<byte>, r: Reloc, post: seq<byte>)
    requires Storable(r)
    ensures
      var c, rd := pre + Encode(r) + post, |pre|;
      && FromBe(c[rd..rd + 4]) == r.offset && FromBe16(c[rd + 4..rd + 6]) == r.kind
      && FromBe16(c[rd + 6..rd + 8]) == |r.name|
  {
    var c, rd := pre + Encode(r) + post, |pre|;
    assert c[rd..rd + 4] == ToBe(r.offset) && c[rd + 4..rd + 6] == ToBe16(r.kind)
        && c[rd + 6..rd + 8] == ToBe16(|r.name|);
  }

  /** What the walk reads at its position. */
  lemma RecordBytes(w: Walk)
    requires Fine(w) && w.rem != []
    ensures
      var c, rd, r := Buffer(w), |Front(w)|, w.rem[0];
      && rd + 8 + |r.name| <= |c|
      && FromBe(c[rd..rd + 4]) == r.offset && FromBe16(c[rd + 4..rd + 6]) == r.kind
      && FromBe16(c[rd + 6..rd + 8]) == |r.name|
  {
    BufferAtRecord(w);
    EncodedFields(Front(w), w.rem[0], EncodeAll(w.rem[1..]) + w.rest);
  }

  /** Offsets below 2^24 begin with a zero byte, which ends the skip loop at once. */
  lemma NextByteZero(w: Walk)
    requires Fine(w) && w.rem != []
    ensures |Front(w)| < |Buffer(w)| && Buffer(w)[|Front(w)|] == 0
  {
    RecordBytes(w);
    var c, rd := Buffer(w), |Front(w)|;
    assert c[rd] == c[rd..rd + 4][0];
  }

  lemma PutOffset(pre: seq<byte>, r: Reloc, post: seq<byte>, v: nat)
    ensures Put(pre + Encode(r) + post, |pre|, v) == pre + Encode(r.(offset := v)) + post
  {
    var c := pre + Encode(r) + post;
    assert c[..|pre|] == pre && c[|pre| + 4..] == Encode(r)[4..] + post;
    assert ToBe(v) + Encode(r)[4..] == Encode(r.(offset := v));
  }

  /** The walk between the two writes: the record moved, its word not yet changed. */
  function Moved(w: Walk, o: Bases): Walk
    requires w.rem != []
  {
    w.(done := w.done + Encode(Shift(w.rem[0], o)), rem := w.rem[1..])
  }

  lemma MovedBuffer(w: Walk, o: Bases)
    requires w.rem != []
    ensures Buffer(Moved(w, o)) == Front(w) + Encode(Shift(w.rem[0], o)) + (EncodeAll(w.rem[1..]) + w.rest)
  {
    var e := Encode(Shift(w.rem[0], o));
    assert Front(Moved(w, o)) == Front(w) + e;
    Regroup(Front(w), e, EncodeAll(w.rem[1..]), w.rest);
  }

  lemma OffsetRewritten(w: Walk, o: Bases)
    requires w.rem != []
    ensures Put(Buffer(w), |Front(w)|, Shift(w.rem[0], o).offset) == Buffer(Moved(w, o))
  {
    var r, post := w.rem[0], EncodeAll(w.rem[1..]) + w.rest;
    BufferAtRecord(w);
    MovedBuffer(w, o);
    PutOffset(Front(w), r, post, Shift(r, o).offset);
  }

  lemma TextPatched(w: Walk, off: nat, delta: int)
    requires off + 4 <= |w.text|
    ensures Patch(Buffer(w), |w.header| + off, delta) == Buffer(w.(text := Patch(w.text, off, delta)))
  {
    var post, w' := w.data + w.done + EncodeAll(w.rem) + w.rest, w.(text := Patch(w.text, off, delta));
    assert Buffer(w) == w.header + w.text + post;
    assert Buffer(w') == w.header + w'.text + post;
    PatchEmbed(w.header, w.text, post, off, delta);
  }

  lemma DataPatched(w: Walk, off: nat, delta: int)
    requires off + 4 <= |w.data|
    ensures Patch(Buffer(w), |w.header| + |w.text| + off, delta) == Buffer(w.(data := Patch(w.data, off, delta)))
  {
    var pre, post, w' := w.header + w.text, w.done + EncodeAll(w.rem) + w.rest, w.(data := Patch(w.data, off, delta));
    assert Buffer(w) == pre + w.data + post;
    assert Buffer(w') == pre + w'.data + post;
    PatchEmbed(pre, w.data, post, off, delta);
  }

  /** What the switch on a record's kind chooses: the address of the word and the
      record's new offset. Address 0 stands for the null pointer. */
  function Addend(w: Walk): nat
    requires w.rem != []
  {
    match Target(w.rem[0])
    case 1 => |w.header| + w.rem[0].offset
    case 2 => |w.header| + |w.text| + w.rem[0].offset
    case _ => 0
  }

  lemma MovedAdvances(w: Walk, o: Bases)
    requires w.rem != []
    ensures var r, m := w.rem[0], Moved(w, o);
            && (Target(r) == TEXT ==> Advance(w, o) == m.(text := Patch(w.text, r.offset, Delta(r, o, NoSymbols()))))
            && (Target(r) == DATA ==> Advance(w, o) == m.(data := Patch(w.data, r.offset, Delta(r, o, NoSymbols()))))
  {
  }

  /** Rewriting a record's offset and then adding to its word advances the walk. */
  lemma RecordRebased(w: Walk, o: Bases, rd: nat, addend: nat, moved: nat, addendoffset: nat)
    requires Fine(w) && w.rem != [] && Target(w.rem[0]) in {TEXT, DATA}
    requires rd == |Front(w)| && addend == Addend(w) && moved == Shift(w.rem[0], o).offset
    requires addendoffset == SegmentBase(w.rem[0].kind, o)
    ensures Patch(Put(Buffer(w), rd, moved), addend, addendoffset) == Buffer(Advance(w, o))
  {
    var r := w.rem[0];
    assert addendoffset == Delta(r, o, NoSymbols());
    OffsetRewritten(w, o);
    MovedAdvances(w, o);
    if Target(r) == TEXT {
      TextPatched(Moved(w, o), r.offset, addendoffset);
    } else {
      DataPatched(Moved(w, o), r.offset, addendoffset);
    }
  }

  /** A record for any other segment is passed over. */
  lemma RecordSkipped(w: Walk, o: Bases)
    requires w.rem != [] && Target(w.rem[0]) !in {TEXT, DATA}
    ensures Buffer(w) == Buffer(Advance(w, o))
  {
    BufferAtRecord(w);
    MovedBuffer(w, o);
  }

  /** Stores a big-endian word. */
  method PutWord(a: array<byte>, at: nat, w: word)
    requires at + 4 <= a.Length
    modifies a
    ensures a[..] == Put(old(a[..]), at, w)
  {
    var b := ToBe(w);
    a[at], a[at + 1], a[at + 2], a[at + 3] := b[0], b[1], b[2], b[3];
  }

  /** Adds to the big-endian word at an address, as `*addend += addendoffset` does. */
  method AddWord(a: array<byte>, at: nat, delta: nat)
    requires at + 4 <= a.Length
    modifies a
    ensures a[..] == Patch(old(a[..]), at, delta)
  {
    var w := FromBe(a[at..at + 4]);
    assert a[..][at..at + 4] == a[at..at + 4];
    PutWord(a, at, (w + delta) % WORD);
  }

  /** Copies the fixed part of the record at `rd`. */
  method ReadRecord(a: array<byte>, rd: nat, ghost w: Walk) returns (offset: word, kind: nat, len: nat)
    requires Fine(w) && w.rem != [] && a[..] == Buffer(w) && rd == |Front(w)|
    ensures offset == w.rem[0].offset && kind == w.rem[0].kind && len == |w.rem[0].name|
  {
    RecordBytes(w);
    assert a[..][rd..rd + 4] == a[rd..rd + 4] && a[..][rd + 4..rd + 6] == a[rd + 4..rd + 6]
        && a[..][rd + 6..rd + 8] == a[rd + 6..rd + 8];
    offset := FromBe(a[rd..rd + 4]);
    kind := FromBe16(a[rd + 4..rd + 6]);
    len := FromBe16(a[rd + 6..rd + 8]);
  }

  /** How far the segment a record refers to has moved. */
  method AddendOffset(u: CompileUnit, kind: nat) returns (addendoffset: nat)
    ensures addendoffset == SegmentBase(kind, u.Shifts())
  {
    match kind / 16 % 16 {
      case 4 => addendoffset := u.textoff;
      case 8 => addendoffset := u.dataoff;
      case 12 => addendoffset := u.bssoff;
      case _ => addendoffset := 0;
    }
  }

  /** Rebases one record at `rd`: its own offset, then the word it points at. */
  method RebaseRecord(u: CompileUnit, rd: nat, offset: word, kind: nat, ghost w: Walk)
    requires Fine(w) && w.rem != [] && u.content[..] == Buffer(w)
    requires |w.header| == HEADER && |w.text| == u.textsize && rd == |Front(w)|
    requires offset == w.rem[0].offset && kind == w.rem[0].kind
    requires offset + u.textoff < WORD && offset + u.dataoff < WORD
    modifies u.content
    ensures u.content[..] == Buffer(Advance(w, u.Shifts()))
  {
    ghost var o := u.Shifts();
    RecordBytes(w);
    var addendoffset := AddendOffset(u, kind);
    var addend, moved := 0, 0;
    match kind % 16 {
      case 1 => addend, moved := HEADER + offset, offset + u.textoff;
      case 2 => addend, moved := HEADER + u.textsize + offset, offset + u.dataoff;
      case _ =>
    }
    assert addend == Addend(w);
    if addend != 0 {
      RecordRebased(w, o, rd, addend, moved, addendoffset);
      PutWord(u.content, rd, moved);
      AddWord(u.content, addend, addendoffset);
    } else {
      RecordSkipped(w, o);
    }
  }

  /** The unit's buffer, cut before its first record. */
  ghost function Start(u: CompileUnit, rs: seq<Reloc>, c: seq<byte>): Walk
    requires u.Sized() && |c| == u.content.Length
  {
    Walk(c[..HEADER], u.Text(c), u.Data(c), [], rs, c[u.RelocStart() + u.relocsize..])
  }

  /** The buffer holds these records, within the sizes that C integers allow. */
  ghost predicate Holds(u: CompileUnit, rs: seq<Reloc>, c: seq<byte>)
    requires u.Sized() && |c| == u.content.Length
  {
    c[u.RelocStart()..u.RelocStart() + u.relocsize] == EncodeAll(rs) && Fine(Start(u, rs, c))
  }

  lemma StartBuffer(u: CompileUnit, rs: seq<Reloc>, c: seq<byte>)
    requires u.Sized() && |c| == u.content.Length && Holds(u, rs, c)
    ensures Buffer(Start(u, rs, c)) == c
    ensures |Front(Start(u, rs, c))| + |EncodeAll(rs)| == u.RelocStart() + u.relocsize
  {
    var w := Start(u, rs, c);
    assert Front(w) == c[..u.RelocStart()];
  }

  /** After a long name, "broken len" fields: skip to the next zero byte. */
  method SkipToZero(a: array<byte>, start: nat) returns (rd: nat)
    ensures rd >= start
    ensures start < a.Length && a[start] == 0 ==> rd == start
  {
    rd := start;
    while rd < a.Length && a[rd] != 0
      invariant rd >= start && (start < a.Length && a[start] == 0 ==> rd == start)
    {
      rd := rd + 1;
    }
  }

  /** Walks every relocation record of a unit and rebases it in place. */
  method RebaseUnit(u: CompileUnit, ghost rs: seq<Reloc>)
    requires u.Sized() && Holds(u, rs, u.content[..])
    requires u.textoff < WORD - 0x100_0000 && u.dataoff < WORD - 0x100_0000
    modifies u.content
    ensures u.content[..] == Buffer(Outcome(Start(u, rs, old(u.content[..])), u.Shifts()))
  {
    ghost var o, w := u.Shifts(), Start(u, rs, u.content[..]);
    ghost var outcome := Outcome(w, o);
    StartBuffer(u, rs, u.content[..]);

    var rd := u.RelocStart();
    var endrd := rd + u.relocsize;
    while rd < endrd
      invariant Fine(w) && u.content[..] == Buffer(w) && Outcome(w, o) == outcome
      invariant |w.header| == HEADER && |w.text| == u.textsize && |Front(w)| + |EncodeAll(w.rem)| == endrd
      invariant if w.rem == [] then rd >= endrd else rd == |Front(w)|
      decreases |w.rem|
    {
      var offset, kind, len := ReadRecord(u.content, rd, w);
      AdvanceFine(w, o);
      AdvanceOutcome(w, o);
      RebaseRecord(u, rd, offset, kind, w);
      w := Advance(w, o);
      rd := rd + 8 + len;
      if len > 9 {
        if w.rem != [] {
          NextByteZero(w);
        }
        rd := SkipToZero(u.content, rd);
      }
    }
    assert outcome == w;
  }
}
