/** Concatenation of relocatable units: sections are laid end to end, and every
    relocation record and in-place addend is rebased. This file says what the
    result must be and proves that it loads like its units do. */
module RcatLoading {
  import opened Bytes
  import opened Loader

  const HEADER := 64

  /** One compile unit as it stands before concatenation. `pad` holds the bytes
      copied after the text to round it up to four. */
  datatype Unit = Unit(text: seq<byte>, data: seq<byte>, bss: nat, pad: seq<byte>, relocs: seq<Reloc>)

  datatype Object = Object(text: seq<byte>, data: seq<byte>, bss: nat, relocs: seq<Reloc>)

  function RoundUp(n: nat): nat { (n + 3) / 4 * 4 }

  /** Relocation words lie inside their section and coincide or are disjoint. */
  ghost predicate WellFormed(u: Unit) {
    && InRange(TEXT, u.relocs, |u.text|)
    && InRange(DATA, u.relocs, |u.data|)
    && AllSeparate(u.relocs)
    && |u.text| + |u.pad| == RoundUp(|u.text|)
  }

  function NoSymbols(): Symbols { _ => 0 }

  // ---------- layout ----------

  function Plus(a: Bases, b: Bases): Bases {
    Bases(a.text + b.text, a.data + b.data, a.bss + b.bss)
  }

  /** What one unit takes up in each section. */
  function SizeOf(textsize: nat, datasize: nat, bsssize: nat): Bases {
    Bases(RoundUp(textsize), datasize, bsssize)
  }

  function Sum(sizes: seq<Bases>, i: nat): Bases
    requires i <= |sizes|
  {
    if i == 0 then Bases(0, 0, 0) else Plus(Sum(sizes, i - 1), sizes[i - 1])
  }

  function Sizes(us: seq<Unit>): (s: seq<Bases>)
    ensures |s| == |us| && forall i :: 0 <= i < |us| ==> s[i] == SizeOf(|us[i].text|, |us[i].data|, us[i].bss)
  {
    seq(|us|, i requires 0 <= i < |us| => SizeOf(|us[i].text|, |us[i].data|, us[i].bss))
  }

  /** Where the sections of unit i start in the concatenated object. */
  function Offsets(us: seq<Unit>, i: nat): Bases
    requires i <= |us|
  {
    Sum(Sizes(us), i)
  }

  // ---------- one unit ----------

  /** A record moved from its unit to the concatenated object. */
  function Shift(r: Reloc, o: Bases): Reloc
  {
    match Target(r)
    case 1 => r.(offset := r.offset + o.text)
    case 2 => r.(offset := r.offset + o.data)
    case _ => r
  }

  function ShiftAll(rs: seq<Reloc>, o: Bases): (ss: seq<Reloc>)
    ensures |ss| == |rs| && forall i :: 0 <= i < |rs| ==> ss[i] == Shift(rs[i], o)
  {
    seq(|rs|, i requires 0 <= i < |rs| => Shift(rs[i], o))
  }

  function Segment(u: Unit, seg: nat): seq<byte> { if seg == TEXT then u.text else u.data }
  function Padding(u: Unit, seg: nat): seq<byte> { if seg == TEXT then u.pad else [] }
  function SegmentOffset(o: Bases, seg: nat): nat { if seg == TEXT then o.text else o.data }

  ghost predicate AllWellFormed(us: seq<Unit>) {
    forall i :: 0 <= i < |us| ==> WellFormed(us[i])
  }

  /** What the concatenation writes for one section of one unit. */
  function Rebased(u: Unit, o: Bases, seg: nat): seq<byte> {
    Relocate(seg, u.relocs, o, NoSymbols(), Segment(u, seg)) + Padding(u, seg)
  }

  function RebasedFrom(us: seq<Unit>, k: nat, seg: nat): seq<byte>
    requires k <= |us|
    decreases |us| - k
  {
    if k == |us| then [] else Rebased(us[k], Offsets(us, k), seg) + RebasedFrom(us, k + 1, seg)
  }

  function ShiftedFrom(us: seq<Unit>, k: nat): seq<Reloc>
    requires k <= |us|
    decreases |us| - k
  {
    if k == |us| then [] else ShiftAll(us[k].relocs, Offsets(us, k)) + ShiftedFrom(us, k + 1)
  }

  function Concatenation(us: seq<Unit>): Object {
    Object(RebasedFrom(us, 0, TEXT), RebasedFrom(us, 0, DATA), Offsets(us, |us|).bss, ShiftedFrom(us, 0))
  }

  // ---------- concatenation preserves loading ----------

  /** Shifted records change only the slice that holds their own unit. */
  lemma {:induction false} ShiftedEmbed(seg: nat, rs: seq<Reloc>, o: Bases, b: Bases, x: Symbols,
                                        pre: seq<byte>, m: seq<byte>, post: seq<byte>)
    requires seg in {TEXT, DATA}
    requires |pre| == SegmentOffset(o, seg) && InRange(seg, rs, |m|)
    ensures Relocate(seg, ShiftAll(rs, o), b, x, pre + m + post) == pre + Relocate(seg, rs, b, x, m) + post
  {
    if rs != [] {
      var r := rs[0];
      var m1 := Apply(seg, r, b, x, m);
      assert ShiftAll(rs, o)[1..] == ShiftAll(rs[1..], o);
      if Target(r) == seg {
        PatchEmbed(pre, m, post, r.offset, Delta(r, b, x));
      }
      assert Apply(seg, Shift(r, o), b, x, pre + m + post) == pre + m1 + post;
      ShiftedEmbed(seg, rs[1..], o, b, x, pre, m1, post);
    }
  }

  /** One section of a unit, loaded alone at the place where the object puts it. */
  function Alone(u: Unit, o: Bases, seg: nat, b: Bases, x: Symbols): (m: seq<byte>)
    ensures |m| == |Segment(u, seg)|
  {
    Relocate(seg, u.relocs, Plus(b, o), x, Segment(u, seg))
  }

  function AloneFrom(us: seq<Unit>, k: nat, seg: nat, b: Bases, x: Symbols): seq<byte>
    requires k <= |us|
    decreases |us| - k
  {
    if k == |us| then []
    else Alone(us[k], Offsets(us, k), seg, b, x) + Padding(us[k], seg) + AloneFrom(us, k + 1, seg, b, x)
  }

  lemma LoadUnit(u: Unit, o: Bases, seg: nat, b: Bases, x: Symbols, pre: seq<byte>, rest: seq<byte>)
    requires WellFormed(u) && seg in {TEXT, DATA} && |pre| == SegmentOffset(o, seg)
    ensures Relocate(seg, ShiftAll(u.relocs, o), b, x, pre + (Rebased(u, o, seg) + rest))
         == pre + Alone(u, o, seg, b, x) + (Padding(u, seg) + rest)
  {
    var m, post := Relocate(seg, u.relocs, o, NoSymbols(), Segment(u, seg)), Padding(u, seg) + rest;
    assert pre + (m + Padding(u, seg) + rest) == pre + m + post;
    ShiftedEmbed(seg, u.relocs, o, b, x, pre, m, post);
    RelocateTwice(seg, u.relocs, o, NoSymbols(), b, x, Plus(b, o), x, Segment(u, seg));
  }

  lemma NextOffset(us: seq<Unit>, k: nat, seg: nat)
    requires AllWellFormed(us) && k < |us| && seg in {TEXT, DATA}
    ensures SegmentOffset(Offsets(us, k + 1), seg)
         == SegmentOffset(Offsets(us, k), seg) + |Segment(us[k], seg)| + |Padding(us[k], seg)|
  {
    assert WellFormed(us[k]);
  }

  lemma {:induction false} LoadFrom(us: seq<Unit>, k: nat, seg: nat, b: Bases, x: Symbols, pre: seq<byte>)
    requires AllWellFormed(us) && k <= |us| && seg in {TEXT, DATA}
    requires |pre| == SegmentOffset(Offsets(us, k), seg)
    ensures Relocate(seg, ShiftedFrom(us, k), b, x, pre + RebasedFrom(us, k, seg))
         == pre + AloneFrom(us, k, seg, b, x)
    decreases |us| - k
  {
    if k < |us| {
      var u, o, rest := us[k], Offsets(us, k), RebasedFrom(us, k + 1, seg);
      var alone, pad := Alone(u, o, seg, b, x), Padding(u, seg);
      var here, later := ShiftAll(u.relocs, o), ShiftedFrom(us, k + 1);
      var m0, pre' := pre + (Rebased(u, o, seg) + rest), pre + (alone + pad);
      NextOffset(us, k, seg);
      RelocateAppend(seg, here, later, b, x, m0);
      assert WellFormed(u);
      LoadUnit(u, o, seg, b, x, pre, rest);
      Regroup(pre, alone, pad, rest);
      LoadFrom(us, k + 1, seg, b, x, pre');
      Regroup(pre, alone, pad, AloneFrom(us, k + 1, seg, b, x));
    } else {
      assert pre + [] == pre;
    }
  }

  /** A piece of what comes later, seen from one unit earlier. */
  lemma SliceLater(us: seq<Unit>, k: nat, seg: nat, b: Bases, x: Symbols, start: int, m: seq<byte>)
    requires AllWellFormed(us) && k < |us| && seg in {TEXT, DATA}
    requires At(AloneFrom(us, k + 1, seg, b, x), start - SegmentOffset(Offsets(us, k + 1), seg), m)
    ensures At(AloneFrom(us, k, seg, b, x), start - SegmentOffset(Offsets(us, k), seg), m)
  {
    var piece := Alone(us[k], Offsets(us, k), seg, b, x) + Padding(us[k], seg);
    var next := SegmentOffset(Offsets(us, k + 1), seg);
    AtBehind(piece, AloneFrom(us, k + 1, seg, b, x), start - next, m);
    NextOffset(us, k, seg);
    assert |piece| + (start - next) == start - SegmentOffset(Offsets(us, k), seg);
  }

  /** The unit that starts at `start`, found again behind the units from k on. */
  lemma {:induction false} AloneSlice(us: seq<Unit>, k: nat, i: nat, seg: nat, b: Bases, x: Symbols, start: int)
    requires AllWellFormed(us) && k <= i < |us| && seg in {TEXT, DATA} && start == SegmentOffset(Offsets(us, i), seg)
    ensures At(AloneFrom(us, k, seg, b, x), start - SegmentOffset(Offsets(us, k), seg), Alone(us[i], Offsets(us, i), seg, b, x))
    decreases i - k
  {
    if k == i {
      var m, pad := Alone(us[k], Offsets(us, k), seg, b, x), Padding(us[k], seg);
      AtFront(m, pad, AloneFrom(us, k + 1, seg, b, x));
    } else {
      AloneSlice(us, k + 1, i, seg, b, x, start);
      SliceLater(us, k, seg, b, x, start, Alone(us[i], Offsets(us, i), seg, b, x));
    }
  }

  function ObjectSegment(obj: Object, seg: nat): seq<byte> {
    if seg == TEXT then obj.text else obj.data
  }

  lemma WholeLoads(us: seq<Unit>, seg: nat, b: Bases, x: Symbols)
    requires AllWellFormed(us) && seg in {TEXT, DATA}
    ensures Relocate(seg, Concatenation(us).relocs, b, x, ObjectSegment(Concatenation(us), seg))
         == AloneFrom(us, 0, seg, b, x)
  {
    LoadFrom(us, 0, seg, b, x, []);
    assert [] + RebasedFrom(us, 0, seg) == RebasedFrom(us, 0, seg)
        && [] + AloneFrom(us, 0, seg, b, x) == AloneFrom(us, 0, seg, b, x);
  }

  /** Relocating the concatenated object at bases b gives, for every unit, exactly
      the bytes of relocating that unit alone at b plus its section offsets. */
  lemma ConcatenationPreservesLoading(us: seq<Unit>, seg: nat, b: Bases, x: Symbols, i: nat)
    requires AllWellFormed(us) && i < |us| && seg in {TEXT, DATA}
    ensures
      var obj := Concatenation(us);
      var loaded := Relocate(seg, obj.relocs, b, x, ObjectSegment(obj, seg));
      var start := SegmentOffset(Offsets(us, i), seg);
      At(loaded, start, Relocate(seg, us[i].relocs, Plus(b, Offsets(us, i)), x, Segment(us[i], seg)))
  {
    WholeLoads(us, seg, b, x);
    AloneSlice(us, 0, i, seg, b, x, SegmentOffset(Offsets(us, i), seg));
    assert SegmentOffset(Offsets(us, 0), seg) == 0;
  }
}
