/** Concatenating all units: lay out the sections, rebase every unit, write the pieces. */
module RcatMain {
  import opened Bytes
  import opened Loader
  import opened RcatLoading
  import opened Rcat

  function UnitSizes(units: seq<CompileUnit>): (s: seq<Bases>)
    ensures |s| == |units|
    ensures forall i :: 0 <= i < |units| ==> s[i] == SizeOf(units[i].textsize, units[i].datasize, units[i].bsssize)
  {
    seq(|units|, i requires 0 <= i < |units| => SizeOf(units[i].textsize, units[i].datasize, units[i].bsssize))
  }

  /** Where unit i's sections start, from the sizes of the units before it. */
  function Layout(units: seq<CompileUnit>, i: nat): Bases
    requires i <= |units|
  {
    Sum(UnitSizes(units), i)
  }

  lemma {:induction false} SumGrows(sizes: seq<Bases>, i: nat, j: nat)
    requires i <= j <= |sizes|
    ensures Sum(sizes, i).text <= Sum(sizes, j).text && Sum(sizes, i).data <= Sum(sizes, j).data
    decreases j - i
  {
    if i < j {
      SumGrows(sizes, i, j - 1);
    }
  }

  function Contents(units: seq<CompileUnit>): set<object> {
    set i | 0 <= i < |units| :: units[i].content
  }

  /** Separate buffers that held these bytes and records when read; sections that
      fit in 32 bits. */
  ghost predicate Ready(units: seq<CompileUnit>, rss: seq<seq<Reloc>>, cs: seq<seq<byte>>) {
    && |rss| == |units| == |cs|
    && (forall i, j :: 0 <= i < j < |units| ==> units[i] != units[j] && units[i].content != units[j].content)
    && (forall i :: 0 <= i < |units| ==> ReadyUnit(units[i], rss[i], cs[i]))
    && Layout(units, |units|).text < WORD - 0x100_0000 && Layout(units, |units|).data < WORD - 0x100_0000
  }

  ghost predicate ReadyUnit(u: CompileUnit, rs: seq<Reloc>, c: seq<byte>) {
    u.Sized() && |c| == u.content.Length && Holds(u, rs, c) && AllSeparate(rs)
  }

  ghost predicate BuffersHold(units: seq<CompileUnit>, cs: seq<seq<byte>>)
    reads Contents(units)
  {
    |cs| == |units| && forall i :: 0 <= i < |units| ==> units[i].content[..] == cs[i]
  }

  /** A buffer when its records have been rebased by these section offsets. */
  ghost function Final(u: CompileUnit, rs: seq<Reloc>, o: Bases, c: seq<byte>): seq<byte>
    requires u.Sized() && |c| == u.content.Length
  {
    Buffer(Outcome(Start(u, rs, c), o))
  }

  /** The unit as the loading theorem sees it; the bytes copied as rounding are
      whatever follows the text in its buffer. */
  ghost function View(u: CompileUnit, rs: seq<Reloc>, o: Bases, c: seq<byte>): Unit
    requires ReadyUnit(u, rs, c)
  {
    FinalLength(u, rs, o, c);
    Unit(u.Text(c), u.Data(c), u.bsssize, Final(u, rs, o, c)[HEADER + u.textsize..HEADER + RoundUp(u.textsize)], rs)
  }

  lemma {:induction false} ShiftedLength(rs: seq<Reloc>, o: Bases)
    ensures |EncodeAll(ShiftAll(rs, o))| == |EncodeAll(rs)|
  {
    if rs != [] {
      assert ShiftAll(rs, o)[1..] == ShiftAll(rs[1..], o);
      ShiftedLength(rs[1..], o);
    }
  }

  /** Rebasing keeps every section where it was in the buffer. */
  lemma FinalLength(u: CompileUnit, rs: seq<Reloc>, o: Bases, c: seq<byte>)
    requires ReadyUnit(u, rs, c)
    ensures |Final(u, rs, o, c)| == |c|
  {
    StartBuffer(u, rs, c);
    ShiftedLength(rs, o);
  }

  lemma FiveParts(header: seq<byte>, text: seq<byte>, data: seq<byte>, done: seq<byte>, rest: seq<byte>)
    ensures
      var h, t, d, n, f := |header|, |text|, |data|, |done|, header + text + data + done + [] + rest;
      && h + t + d + n <= |f| && f[h..h + t] == text && f[h + t..h + t + d] == data && f[h + t + d..h + t + d + n] == done
  {
  }

  /** The sections of a buffer in which everything has been rebased. */
  lemma OutcomeSections(w: Walk, o: Bases, h: nat, t: nat, d: nat, n: nat)
    requires h == |w.header| && t == |w.text| && d == |w.data| && w.done == [] && n == |EncodeAll(w.rem)|
    ensures
      var f := Buffer(Outcome(w, o));
      && h + t + d + n <= |f|
      && f[h..h + t] == Relocate(TEXT, w.rem, o, NoSymbols(), w.text)
      && f[h + t..h + t + d] == Relocate(DATA, w.rem, o, NoSymbols(), w.data)
      && f[h + t + d..h + t + d + n] == EncodeAll(ShiftAll(w.rem, o))
  {
    var text, data := Relocate(TEXT, w.rem, o, NoSymbols(), w.text), Relocate(DATA, w.rem, o, NoSymbols(), w.data);
    var stored := EncodeAll(ShiftAll(w.rem, o));
    ShiftedLength(w.rem, o);
    FiveParts(w.header, text, data, stored, w.rest);
    assert [] + stored == stored;
    assert Buffer(Outcome(w, o)) == w.header + text + data + stored + [] + w.rest;
  }

  lemma FinalSections(u: CompileUnit, rs: seq<Reloc>, o: Bases, c: seq<byte>)
    requires ReadyUnit(u, rs, c)
    ensures
      var f := Final(u, rs, o, c);
      && |f| == |c|
      && f[HEADER..HEADER + u.textsize] == Relocate(TEXT, rs, o, NoSymbols(), u.Text(c))
      && f[HEADER + u.textsize..u.RelocStart()] == Relocate(DATA, rs, o, NoSymbols(), u.Data(c))
      && f[u.RelocStart()..u.RelocStart() + u.relocsize] == EncodeAll(ShiftAll(rs, o))
  {
    FinalLength(u, rs, o, c);
    OutcomeSections(Start(u, rs, c), o, HEADER, u.textsize, u.datasize, u.relocsize);
  }

  /** What the final writes take from a rebased buffer. */
  lemma FinalPieces(u: CompileUnit, rs: seq<Reloc>, o: Bases, c: seq<byte>)
    requires ReadyUnit(u, rs, c)
    ensures
      var f, v := Final(u, rs, o, c), View(u, rs, o, c);
      && |f| == |c|
      && f[HEADER..HEADER + RoundUp(u.textsize)] == Rebased(v, o, TEXT)
      && f[HEADER + u.textsize..u.RelocStart()] == Rebased(v, o, DATA)
  {
    var f := Final(u, rs, o, c);
    FinalSections(u, rs, o, c);
    SplitSlice(f, HEADER, HEADER + u.textsize, HEADER + RoundUp(u.textsize));
  }

  lemma SplitSlice(f: seq<byte>, a: nat, b: nat, c: nat)
    requires a <= b <= c <= |f|
    ensures f[a..c] == f[a..b] + f[b..c]
  {
  }

  ghost function Views(units: seq<CompileUnit>, rss: seq<seq<Reloc>>, cs: seq<seq<byte>>): (us: seq<Unit>)
    requires Ready(units, rss, cs)
    ensures |us| == |units|
    ensures forall i :: 0 <= i < |units| ==> us[i] == View(units[i], rss[i], Layout(units, i), cs[i])
  {
    seq(|units|, i requires 0 <= i < |units| => View(units[i], rss[i], Layout(units, i), cs[i]))
  }

  ghost function Finals(units: seq<CompileUnit>, rss: seq<seq<Reloc>>, cs: seq<seq<byte>>): (fs: seq<seq<byte>>)
    requires Ready(units, rss, cs)
    ensures |fs| == |units|
    ensures forall i :: 0 <= i < |units| ==> fs[i] == Final(units[i], rss[i], Layout(units, i), cs[i])
  {
    seq(|units|, i requires 0 <= i < |units| => Final(units[i], rss[i], Layout(units, i), cs[i]))
  }

  lemma ViewWellFormed(u: CompileUnit, rs: seq<Reloc>, o: Bases, c: seq<byte>)
    requires ReadyUnit(u, rs, c)
    ensures WellFormed(View(u, rs, o, c))
  {
    FinalLength(u, rs, o, c);
    var v, w := View(u, rs, o, c), Start(u, rs, c);
    assert v.text == w.text && v.data == w.data && v.relocs == w.rem;
  }

  lemma ViewsWellFormed(units: seq<CompileUnit>, rss: seq<seq<Reloc>>, cs: seq<seq<byte>>)
    requires Ready(units, rss, cs)
    ensures AllWellFormed(Views(units, rss, cs))
    ensures UnitSizes(units) == Sizes(Views(units, rss, cs))
  {
    var us := Views(units, rss, cs);
    forall i | 0 <= i < |units| ensures WellFormed(us[i]) {
      ViewWellFormed(units[i], rss[i], Layout(units, i), cs[i]);
    }
    ViewSizes(units, rss, cs);
  }

  lemma ViewSize(u: CompileUnit, rs: seq<Reloc>, o: Bases, c: seq<byte>)
    requires ReadyUnit(u, rs, c)
    ensures var v := View(u, rs, o, c);
            SizeOf(|v.text|, |v.data|, v.bss) == SizeOf(u.textsize, u.datasize, u.bsssize)
  {
  }

  lemma ViewSizes(units: seq<CompileUnit>, rss: seq<seq<Reloc>>, cs: seq<seq<byte>>)
    requires Ready(units, rss, cs)
    ensures UnitSizes(units) == Sizes(Views(units, rss, cs))
  {
    var us := Views(units, rss, cs);
    forall i | 0 <= i < |units| ensures Sizes(us)[i] == UnitSizes(units)[i] {
      ViewSize(units[i], rss[i], Layout(units, i), cs[i]);
    }
  }

  /** Where the units stand. */
  ghost function Places(units: seq<CompileUnit>): (os: seq<Bases>)
    reads units
    ensures |os| == |units| && forall i {:trigger os[i]} :: 0 <= i < |units| ==>
              os[i] == Bases(units[i].textoff, units[i].dataoff, units[i].bssoff)
  {
    seq(|units|, i requires 0 <= i < |units| reads units => Bases(units[i].textoff, units[i].dataoff, units[i].bssoff))
  }

  /** The sections of the units follow each other: text from multiples of four on with
      less than four bytes between two units, data and bss without any gap. */
  ghost predicate EndToEnd(units: seq<CompileUnit>, at: seq<Bases>, bsssize: nat) {
    && |at| == |units|
    && (units != [] ==> at[0] == Bases(0, 0, 0))
    && (forall i {:trigger at[i]} :: 0 <= i < |units| ==> at[i].text % 4 == 0)
    && (forall i {:trigger at[i + 1]} :: 0 <= i < |units| - 1 ==>
          && at[i].text + units[i].textsize <= at[i + 1].text < at[i].text + units[i].textsize + 4
          && at[i + 1].data == at[i].data + units[i].datasize
          && at[i + 1].bss == at[i].bss + units[i].bsssize)
    && bsssize == if units == [] then 0 else at[|units| - 1].bss + units[|units| - 1].bsssize
  }

  /** The places that the sizes of the units before each unit call for. */
  ghost function Layouts(units: seq<CompileUnit>): (os: seq<Bases>)
    ensures |os| == |units| && forall i {:trigger os[i]} :: 0 <= i < |units| ==> os[i] == Layout(units, i)
  {
    seq(|units|, i requires 0 <= i < |units| => Layout(units, i))
  }

  /** No two units share a byte of any section, and none has a byte behind the end of bss. */
  lemma {:induction false} UnitsApart(units: seq<CompileUnit>, at: seq<Bases>, bsssize: nat, i: nat, j: nat)
    requires EndToEnd(units, at, bsssize) && i < j < |units|
    ensures at[i].text + units[i].textsize <= at[j].text
    ensures at[i].data + units[i].datasize <= at[j].data
    ensures at[i].bss + units[i].bsssize <= at[j].bss
    ensures at[j].bss + units[j].bsssize <= bsssize
    decreases |units| - i, |units| - j
  {
    assert at[i + 1].bss == at[i].bss + units[i].bsssize;
    if i + 1 < j {
      UnitsApart(units, at, bsssize, i + 1, j);
    } else if j < |units| - 1 {
      UnitsApart(units, at, bsssize, j, |units| - 1);
    }
  }

  method AssignPlaces(units: seq<CompileUnit>) returns (bsssize: nat)
    requires forall i, j :: 0 <= i < j < |units| ==> units[i] != units[j]
    modifies units
    ensures forall i {:trigger units[i].Shifts()} :: 0 <= i < |units| ==> units[i].Shifts() == Layout(units, i)
    ensures bsssize == Layout(units, |units|).bss
  {
    var textsize: nat, datasize: nat := 0, 0;
    bsssize := 0;
    ghost var sizes := UnitSizes(units);
    for i := 0 to |units|
      invariant Bases(textsize, datasize, bsssize) == Sum(sizes, i)
      invariant forall j {:trigger units[j].Shifts()} :: 0 <= j < i ==> units[j].Shifts() == Sum(sizes, j)
    {
      var u := units[i];
      u.textoff, u.dataoff, u.bssoff := textsize, datasize, bsssize;
      assert u.Shifts() == Sum(sizes, i);
      textsize := textsize + RoundUp(u.textsize);
      datasize := datasize + u.datasize;
      bsssize := bsssize + u.bsssize;
      assert Bases(textsize, datasize, bsssize) == Plus(Sum(sizes, i), sizes[i]);
    }
  }

  /** Gives every unit the place that the sizes before it call for. */
  method PlaceUnits(units: seq<CompileUnit>) returns (bsssize: nat)
    requires forall i, j :: 0 <= i < j < |units| ==> units[i] != units[j]
    modifies units
    ensures Places(units) == Layouts(units) && bsssize == Layout(units, |units|).bss
  {
    bsssize := AssignPlaces(units);
    ghost var at := Places(units);
    forall i | 0 <= i < |units| ensures at[i] == Layouts(units)[i] {
      assert units[i].Shifts() == Layout(units, i);
    }
  }

  /** Gives every unit its place in the three sections. No two units share a byte. */
  method LayOut(units: seq<CompileUnit>) returns (bsssize: nat)
    requires forall i, j :: 0 <= i < j < |units| ==> units[i] != units[j]
    modifies units
    ensures Places(units) == Layouts(units) && EndToEnd(units, Places(units), bsssize)
    ensures forall i, j :: 0 <= i < j < |units| ==>
              && units[i].textoff + units[i].textsize <= units[j].textoff
              && units[i].dataoff + units[i].datasize <= units[j].dataoff
              && units[i].bssoff + units[i].bsssize <= units[j].bssoff
    ensures forall i :: 0 <= i < |units| ==> units[i].bssoff + units[i].bsssize <= bsssize
  {
    bsssize := PlaceUnits(units);
    LayoutsEndToEnd(units, bsssize);
    AllUnitsApart(units, Places(units), bsssize);
  }

  lemma LayoutsEndToEnd(units: seq<CompileUnit>, bsssize: nat)
    requires bsssize == Layout(units, |units|).bss
    ensures EndToEnd(units, Layouts(units), bsssize)
  {
    var at := Layouts(units);
    forall i {:trigger at[i]} | 0 <= i < |units| ensures at[i].text % 4 == 0 {
      SumAligned(units, i);
    }
    forall i {:trigger at[i + 1]} | 0 <= i < |units| - 1
      ensures at[i].text + units[i].textsize <= at[i + 1].text < at[i].text + units[i].textsize + 4
      ensures at[i + 1].data == at[i].data + units[i].datasize
      ensures at[i + 1].bss == at[i].bss + units[i].bsssize
    {
      assert at[i + 1] == Layout(units, i + 1) && at[i] == Layout(units, i);
      RoundUpClose(units[i].textsize);
    }
  }

  lemma RoundUpClose(n: nat)
    ensures n <= RoundUp(n) < n + 4 && RoundUp(n) % 4 == 0
  {
  }

  lemma {:induction false} SumAligned(units: seq<CompileUnit>, i: nat)
    requires i <= |units|
    ensures Layout(units, i).text % 4 == 0
  {
    if i > 0 {
      SumAligned(units, i - 1);
      RoundUpClose(units[i - 1].textsize);
    }
  }

  lemma AllUnitsApart(units: seq<CompileUnit>, at: seq<Bases>, bsssize: nat)
    requires EndToEnd(units, at, bsssize)
    ensures forall i, j :: 0 <= i < j < |units| ==>
              && at[i].text + units[i].textsize <= at[j].text
              && at[i].data + units[i].datasize <= at[j].data
              && at[i].bss + units[i].bsssize <= at[j].bss
    ensures forall i :: 0 <= i < |units| ==> at[i].bss + units[i].bsssize <= bsssize
  {
    forall i, j | 0 <= i < j < |units|
      ensures at[i].text + units[i].textsize <= at[j].text
      ensures at[i].data + units[i].datasize <= at[j].data
      ensures at[i].bss + units[i].bsssize <= at[j].bss
    {
      UnitsApart(units, at, bsssize, i, j);
    }
    forall i | 0 <= i < |units| ensures at[i].bss + units[i].bsssize <= bsssize {
      if i < |units| - 1 {
        UnitsApart(units, at, bsssize, i, |units| - 1);
      }
    }
  }

  /** Rebases one unit and returns the records it writes out. */
  method RebaseOne(u: CompileUnit, ghost rs: seq<Reloc>) returns (written: seq<byte>)
    requires ReadyUnit(u, rs, u.content[..])
    requires u.textoff < WORD - 0x100_0000 && u.dataoff < WORD - 0x100_0000
    modifies u.content
    ensures u.content[..] == Final(u, rs, u.Shifts(), old(u.content[..]))
    ensures written == EncodeAll(ShiftAll(rs, u.Shifts()))
  {
    ghost var c := u.content[..];
    RebaseUnit(u, rs);
    FinalSections(u, rs, u.Shifts(), c);
    written := u.content[u.RelocStart()..u.RelocStart() + u.relocsize];
    assert written == u.content[..][u.RelocStart()..u.RelocStart() + u.relocsize];
  }

  /** What is written out of the records of each unit. */
  ghost function Pieces(rss: seq<seq<Reloc>>, os: seq<Bases>): (ps: seq<seq<byte>>)
    requires |rss| == |os|
    ensures |ps| == |rss| && forall k {:trigger ps[k]} :: 0 <= k < |rss| ==> ps[k] == EncodeAll(ShiftAll(rss[k], os[k]))
  {
    seq(|rss|, k requires 0 <= k < |rss| => EncodeAll(ShiftAll(rss[k], os[k])))
  }

  function From(ps: seq<seq<byte>>, k: nat): seq<byte>
    requires k <= |ps|
    decreases |ps| - k
  {
    if k == |ps| then [] else ps[k] + From(ps, k + 1)
  }

  /** These are the records and the places of the units. */
  ghost predicate Belong(rss: seq<seq<Reloc>>, os: seq<Bases>, us: seq<Unit>) {
    && |rss| == |us| == |os|
    && forall j {:trigger os[j]} :: 0 <= j < |us| ==> us[j].relocs == rss[j] && os[j] == Offsets(us, j)
  }

  lemma ShiftedNext(us: seq<Unit>, k: nat, here: seq<Reloc>)
    requires k < |us| && here == ShiftAll(us[k].relocs, Offsets(us, k))
    ensures EncodeAll(ShiftedFrom(us, k)) == EncodeAll(here) + EncodeAll(ShiftedFrom(us, k + 1))
  {
    EncodeAllAppend(here, ShiftedFrom(us, k + 1));
  }

  lemma {:induction false} StoredIsShifted(rss: seq<seq<Reloc>>, os: seq<Bases>, us: seq<Unit>, ps: seq<seq<byte>>, k: nat)
    requires Belong(rss, os, us) && k <= |us| && ps == Pieces(rss, os)
    ensures From(ps, k) == EncodeAll(ShiftedFrom(us, k))
    decreases |us| - k
  {
    if k < |us| {
      assert os[k] == Offsets(us, k) && ps[k] == EncodeAll(ShiftAll(rss[k], os[k]));
      StoredIsShifted(rss, os, us, ps, k + 1);
      ShiftedNext(us, k, ShiftAll(rss[k], os[k]));
    }
  }

  /** Records whose shifted offsets still fit their fields. */
  ghost predicate Small(rs: seq<Reloc>) {
    AllStorable(rs) && forall i :: 0 <= i < |rs| ==> rs[i].offset < 0x100_0000
  }

  ghost predicate Low(o: Bases) { o.text < WORD - 0x100_0000 && o.data < WORD - 0x100_0000 }

  lemma ShiftedStorable(rs: seq<Reloc>, o: Bases)
    requires Small(rs) && Low(o)
    ensures AllStorable(ShiftAll(rs, o))
  {
  }

  lemma StorableAppend(rs: seq<Reloc>, ss: seq<Reloc>)
    requires AllStorable(rs) && AllStorable(ss)
    ensures AllStorable(rs + ss)
  {
  }

  /** Every unit's records can be shifted to where the unit stands. */
  ghost predicate AllShiftable(us: seq<Unit>) {
    forall j {:trigger us[j]} :: 0 <= j < |us| ==> Small(us[j].relocs) && Low(Offsets(us, j))
  }

  lemma {:induction false} ShiftedFromStorable(us: seq<Unit>, k: nat)
    requires k <= |us| && AllShiftable(us)
    ensures AllStorable(ShiftedFrom(us, k))
    decreases |us| - k
  {
    if k < |us| {
      var here, later := ShiftAll(us[k].relocs, Offsets(us, k)), ShiftedFrom(us, k + 1);
      ShiftedStorable(us[k].relocs, Offsets(us, k));
      ShiftedFromStorable(us, k + 1);
      StorableAppend(here, later);
    }
  }

  /** What rebasing one unit starts from and must produce. */
  ghost predicate UnitPlan(u: CompileUnit, rs: seq<Reloc>, o: Bases, c: seq<byte>, f: seq<byte>) {
    ReadyUnit(u, rs, c) && f == Final(u, rs, o, c) && o.text < WORD - 0x100_0000 && o.data < WORD - 0x100_0000
  }

  ghost predicate DistinctBuffers(units: seq<CompileUnit>) {
    forall i, j :: 0 <= i < j < |units| ==> units[i].content != units[j].content
  }

  /** Rebases unit i and leaves every other buffer alone. */
  method RebaseNth(units: seq<CompileUnit>, i: nat, ghost rs: seq<Reloc>, ghost o: Bases,
                   ghost now: seq<seq<byte>>, ghost f: seq<byte>)
    returns (written: seq<byte>)
    requires i < |units| && DistinctBuffers(units) && BuffersHold(units, now)
    requires UnitPlan(units[i], rs, o, now[i], f) && units[i].Shifts() == o
    modifies units[i].content
    ensures BuffersHold(units, now[i := f]) && Places(units) == old(Places(units))
    ensures written == EncodeAll(ShiftAll(rs, o))
  {
    var u := units[i];
    written := RebaseOne(u, rs);
    forall j | 0 <= j < |units| ensures units[j].content[..] == now[i := f][j] {
      if j != i {
        assert units[j].content != u.content;
      }
    }
  }

  /** The first i buffers are rebased, the others are as they were read. */
  ghost predicate Rebasing(units: seq<CompileUnit>, os: seq<Bases>, cs: seq<seq<byte>>, fs: seq<seq<byte>>, now: seq<seq<byte>>, i: nat)
    reads units, Contents(units)
  {
    && |now| == |units| == |cs| == |fs| && BuffersHold(units, now) && Places(units) == os
    && forall j :: 0 <= j < |units| ==> now[j] == if j < i then fs[j] else cs[j]
  }

  /** Rebases unit i, the next one. */
  method RebaseStep(units: seq<CompileUnit>, i: nat, ghost rs: seq<Reloc>, ghost os: seq<Bases>, ghost cs: seq<seq<byte>>,
                    ghost fs: seq<seq<byte>>, ghost now: seq<seq<byte>>)
    returns (written: seq<byte>)
    requires DistinctBuffers(units) && Rebasing(units, os, cs, fs, now, i) && i < |units|
    requires UnitPlan(units[i], rs, os[i], cs[i], fs[i])
    modifies units[i].content
    ensures Rebasing(units, os, cs, fs, now[i := fs[i]], i + 1)
    ensures written == EncodeAll(ShiftAll(rs, os[i]))
  {
    assert Places(units)[i] == os[i];
    written := RebaseNth(units, i, rs, os[i], now, fs[i]);
  }

  /** Rebases every unit in turn and writes its records. */
  method RebaseAll(units: seq<CompileUnit>, ghost rss: seq<seq<Reloc>>, ghost os: seq<Bases>,
                   ghost cs: seq<seq<byte>>, ghost fs: seq<seq<byte>>)
    returns (relocs: seq<byte>)
    requires |units| == |rss| == |os| == |cs| == |fs| && DistinctBuffers(units)
    requires forall i {:trigger units[i]} :: 0 <= i < |units| ==> UnitPlan(units[i], rss[i], os[i], cs[i], fs[i])
    requires Places(units) == os && BuffersHold(units, cs)
    modifies Contents(units)
    ensures BuffersHold(units, fs) && Places(units) == os
    ensures relocs == From(Pieces(rss, os), 0)
  {
    relocs := [];
    ghost var now, ps := cs, Pieces(rss, os);
    ghost var all, rest := From(ps, 0), From(ps, 0);
    for i := 0 to |units|
      invariant Rebasing(units, os, cs, fs, now, i)
      invariant rest == From(ps, i) && relocs + rest == all
    {
      var written := RebaseStep(units, i, rss[i], os, cs, fs, now);
      now := now[i := fs[i]];
      rest := From(ps, i + 1);
      Assoc(relocs, written, rest);
      relocs := relocs + written;
    }
    assert now == fs;
  }

  /** The buffer holds the section bytes that the concatenation calls for. */
  ghost predicate Written(u: CompileUnit, v: Unit, o: Bases)
    reads u.content
  {
    && u.Sized()
    && u.content[HEADER..HEADER + RoundUp(u.textsize)] == Rebased(v, o, TEXT)
    && u.content[HEADER + u.textsize..u.RelocStart()] == Rebased(v, o, DATA)
  }

  /** Reads one section of a rebased unit: text with its rounding, or data. */
  method SectionPiece(u: CompileUnit, seg: nat, ghost v: Unit, ghost o: Bases) returns (piece: seq<byte>)
    requires seg == TEXT || seg == DATA
    requires Written(u, v, o)
    ensures piece == Rebased(v, o, seg)
  {
    if seg == TEXT {
      piece := u.content[HEADER..HEADER + RoundUp(u.textsize)];
    } else {
      piece := u.content[HEADER + u.textsize..u.RelocStart()];
    }
  }

  /** Writes one section of every unit. */
  method WriteSection(units: seq<CompileUnit>, seg: nat, ghost us: seq<Unit>) returns (out: seq<byte>)
    requires seg == TEXT || seg == DATA
    requires |us| == |units| && forall i {:trigger units[i]} :: 0 <= i < |units| ==> Written(units[i], us[i], Offsets(us, i))
    ensures out == RebasedFrom(us, 0, seg)
  {
    out := [];
    ghost var all, rest := RebasedFrom(us, 0, seg), RebasedFrom(us, 0, seg);
    for i := 0 to |units|
      invariant rest == RebasedFrom(us, i, seg) && out + rest == all
    {
      assert Written(units[i], us[i], Offsets(us, i));
      var piece := SectionPiece(units[i], seg, us[i], Offsets(us, i));
      rest := RebasedFrom(us, i + 1, seg);
      Assoc(out, piece, rest);
      out := out + piece;
    }
  }

  lemma OneWritten(u: CompileUnit, rs: seq<Reloc>, o: Bases, c: seq<byte>)
    requires ReadyUnit(u, rs, c) && u.content[..] == Final(u, rs, o, c)
    ensures Written(u, View(u, rs, o, c), o)
  {
    FinalPieces(u, rs, o, c);
    assert u.content[HEADER..HEADER + RoundUp(u.textsize)] == u.content[..][HEADER..HEADER + RoundUp(u.textsize)];
    assert u.content[HEADER + u.textsize..u.RelocStart()] == u.content[..][HEADER + u.textsize..u.RelocStart()];
  }

  lemma AllWritten(units: seq<CompileUnit>, rss: seq<seq<Reloc>>, cs: seq<seq<byte>>)
    requires Ready(units, rss, cs) && BuffersHold(units, Finals(units, rss, cs))
    ensures var us := Views(units, rss, cs);
      forall i {:trigger units[i]} :: 0 <= i < |units| ==> Written(units[i], us[i], Layout(units, i))
  {
    var us := Views(units, rss, cs);
    forall i {:trigger units[i]} | 0 <= i < |units| ensures Written(units[i], us[i], Layout(units, i)) {
      OneWritten(units[i], rss[i], Layout(units, i), cs[i]);
    }
  }

  /** Rebases all units, which have been given their places. */
  method RebaseUnits(units: seq<CompileUnit>, ghost rss: seq<seq<Reloc>>, ghost cs: seq<seq<byte>>)
    returns (relocs: seq<byte>)
    requires Ready(units, rss, cs) && BuffersHold(units, cs)
    requires Places(units) == Layouts(units)
    modifies Contents(units)
    ensures BuffersHold(units, Finals(units, rss, cs)) && Places(units) == Layouts(units)
    ensures relocs == EncodeAll(ShiftedFrom(Views(units, rss, cs), 0))
  {
    ghost var fs := Finals(units, rss, cs);
    ghost var os := Layouts(units);
    AllPlanned(units, rss, cs, os, fs);
    StoredRecords(units, rss, cs, os);
    relocs := RebaseAll(units, rss, os, cs, fs);
  }

  lemma StoredRecords(units: seq<CompileUnit>, rss: seq<seq<Reloc>>, cs: seq<seq<byte>>, os: seq<Bases>)
    requires Ready(units, rss, cs)
    requires |os| == |units| && forall i {:trigger os[i]} :: 0 <= i < |units| ==> os[i] == Layout(units, i)
    ensures From(Pieces(rss, os), 0) == EncodeAll(ShiftedFrom(Views(units, rss, cs), 0))
  {
    ViewsWellFormed(units, rss, cs);
    assert Belong(rss, os, Views(units, rss, cs));
    StoredIsShifted(rss, os, Views(units, rss, cs), Pieces(rss, os), 0);
  }

  lemma AllPlanned(units: seq<CompileUnit>, rss: seq<seq<Reloc>>, cs: seq<seq<byte>>, os: seq<Bases>, fs: seq<seq<byte>>)
    requires Ready(units, rss, cs) && fs == Finals(units, rss, cs)
    requires |os| == |units| && forall i {:trigger os[i]} :: 0 <= i < |units| ==> os[i] == Layout(units, i)
    ensures forall i {:trigger units[i]} :: 0 <= i < |units| ==> UnitPlan(units[i], rss[i], os[i], cs[i], fs[i])
  {
    forall i {:trigger units[i]} | 0 <= i < |units| ensures UnitPlan(units[i], rss[i], os[i], cs[i], fs[i]) {
      SumGrows(UnitSizes(units), i, |units|);
    }
  }

  /** Writes one section of every rebased unit. */
  method WriteUnits(units: seq<CompileUnit>, seg: nat, ghost rss: seq<seq<Reloc>>, ghost cs: seq<seq<byte>>)
    returns (out: seq<byte>)
    requires seg == TEXT || seg == DATA
    requires Ready(units, rss, cs) && BuffersHold(units, Finals(units, rss, cs))
    ensures out == RebasedFrom(Views(units, rss, cs), 0, seg)
  {
    AllWritten(units, rss, cs);
    ViewsWellFormed(units, rss, cs);
    out := WriteSection(units, seg, Views(units, rss, cs));
  }

  /** A loader that reads the records back finds those of the loading theorem. */
  lemma RecordsReadBack(units: seq<CompileUnit>, rss: seq<seq<Reloc>>, cs: seq<seq<byte>>)
    requires Ready(units, rss, cs)
    ensures var rs := Concatenation(Views(units, rss, cs)).relocs; DecodeAll(EncodeAll(rs)) == rs
  {
    var us := Views(units, rss, cs);
    ViewsWellFormed(units, rss, cs);
    forall j {:trigger us[j]} | 0 <= j < |us| ensures Small(us[j].relocs) && Low(Offsets(us, j)) {
      SumGrows(UnitSizes(units), j, |units|);
      assert ReadyUnit(units[j], rss[j], cs[j]);
    }
    ShiftedFromStorable(us, 0);
    DecodeAllOfEncodeAll(ShiftedFrom(us, 0));
  }

  /** Loaded at bases b, a section holds from a unit's offset on what the unit's own
      section gives when it is loaded alone, at b plus the offsets of the unit. */
  ghost predicate HoldsUnit(m: seq<byte>, rs: seq<Reloc>, o: Bases, seg: nat, whole: seq<byte>, all: seq<Reloc>, b: Bases, x: Symbols)
  {
    At(Relocate(seg, all, b, x, whole), if seg == TEXT then o.text else o.data,
       Relocate(seg, rs, Bases(b.text + o.text, b.data + o.data, b.bss + o.bss), x, m))
  }

  /** Both sections hold a unit with this text, data and records, placed at o. */
  ghost predicate HoldsBoth(t: seq<byte>, d: seq<byte>, rs: seq<Reloc>, o: Bases, text: seq<byte>, data: seq<byte>,
                            all: seq<Reloc>, b: Bases, x: Symbols)
  {
    HoldsUnit(t, rs, o, TEXT, text, all, b, x) && HoldsUnit(d, rs, o, DATA, data, all, b, x)
  }

  lemma UnitHeld(us: seq<Unit>, i: nat, t: seq<byte>, d: seq<byte>, rs: seq<Reloc>, o: Bases, b: Bases, x: Symbols)
    requires AllWellFormed(us) && i < |us| && t == us[i].text && d == us[i].data && rs == us[i].relocs && o == Offsets(us, i)
    ensures HoldsBoth(t, d, rs, o, Concatenation(us).text, Concatenation(us).data, Concatenation(us).relocs, b, x)
  {
    ConcatenationPreservesLoading(us, TEXT, b, x, i);
    ConcatenationPreservesLoading(us, DATA, b, x, i);
  }

  lemma RecordsOfUnit(u: CompileUnit, rs: seq<Reloc>, c: seq<byte>, stored: seq<byte>)
    requires ReadyUnit(u, rs, c) && stored == c[u.RelocStart()..u.RelocStart() + u.relocsize]
    ensures DecodeAll(stored) == rs
  {
    assert AllStorable(Start(u, rs, c).rem);
    DecodeAllOfEncodeAll(rs);
  }

  /** The sections and records are cut out of the unit's buffer as it was read: a header
      of 64 bytes, text, data, records. */
  ghost predicate LoadsUnit(u: CompileUnit, c: seq<byte>, text: seq<byte>, data: seq<byte>, all: seq<Reloc>, b: Bases, x: Symbols)
    reads u
  {
    var t, d := 64 + u.textsize, 64 + u.textsize + u.datasize;
    && d + u.relocsize <= |c|
    && HoldsBoth(c[64..t], c[t..d], DecodeAll(c[d..d + u.relocsize]), Bases(u.textoff, u.dataoff, u.bssoff), text, data, all, b, x)
  }

  lemma UnitLoads(u: CompileUnit, rs: seq<Reloc>, c: seq<byte>, us: seq<Unit>, i: nat, b: Bases, x: Symbols)
    requires ReadyUnit(u, rs, c) && i < |us| && AllWellFormed(us) && u.Shifts() == Offsets(us, i)
    requires us[i].text == u.Text(c) && us[i].data == u.Data(c) && us[i].relocs == rs
    ensures LoadsUnit(u, c, Concatenation(us).text, Concatenation(us).data, Concatenation(us).relocs, b, x)
  {
    var t, d := 64 + u.textsize, 64 + u.textsize + u.datasize;
    RecordsOfUnit(u, rs, c, c[d..d + u.relocsize]);
    UnitHeld(us, i, c[64..t], c[t..d], DecodeAll(c[d..d + u.relocsize]), Bases(u.textoff, u.dataoff, u.bssoff), b, x);
  }

  /** Every unit loads as it does alone. */
  ghost predicate AllLoad(units: seq<CompileUnit>, cs: seq<seq<byte>>, text: seq<byte>, data: seq<byte>,
                          all: seq<Reloc>, b: Bases, x: Symbols)
    reads units
  {
    |cs| == |units|
    && forall i {:trigger units[i]} :: 0 <= i < |units| ==> LoadsUnit(units[i], cs[i], text, data, all, b, x)
  }

  lemma AllUnitsLoad(units: seq<CompileUnit>, rss: seq<seq<Reloc>>, cs: seq<seq<byte>>, us: seq<Unit>, b: Bases, x: Symbols)
    requires Ready(units, rss, cs) && us == Views(units, rss, cs) && Places(units) == Layouts(units)
    ensures AllLoad(units, cs, Concatenation(us).text, Concatenation(us).data, Concatenation(us).relocs, b, x)
  {
    ViewsWellFormed(units, rss, cs);
    forall i {:trigger units[i]} | 0 <= i < |units|
      ensures LoadsUnit(units[i], cs[i], Concatenation(us).text, Concatenation(us).data, Concatenation(us).relocs, b, x)
    {
      assert Places(units)[i] == Layouts(units)[i];
      UnitLoads(units[i], rss[i], cs[i], us, i, b, x);
    }
  }

  /** Rebases all units, which have been given their places, and writes the pieces. */
  method WriteObject(units: seq<CompileUnit>, ghost rss: seq<seq<Reloc>>, ghost cs: seq<seq<byte>>, ghost us: seq<Unit>)
    returns (text: seq<byte>, data: seq<byte>, relocs: seq<byte>)
    requires Ready(units, rss, cs) && BuffersHold(units, cs) && us == Views(units, rss, cs)
    requires Places(units) == Layouts(units)
    modifies Contents(units)
    ensures Places(units) == Layouts(units)
    ensures text == Concatenation(us).text && data == Concatenation(us).data
    ensures DecodeAll(relocs) == Concatenation(us).relocs
  {
    relocs := RebaseUnits(units, rss, cs);
    text := WriteUnits(units, TEXT, rss, cs);
    data := WriteUnits(units, DATA, rss, cs);
    RecordsReadBack(units, rss, cs);
  }

  /** Concatenates the units. Their sections follow each other. Loading what is written,
      with the records that a loader reads from it, gives for every unit what loading
      that unit alone gives. */
  method Concatenate(units: seq<CompileUnit>, ghost rss: seq<seq<Reloc>>, ghost cs: seq<seq<byte>>, ghost b: Bases, ghost x: Symbols)
    returns (text: seq<byte>, data: seq<byte>, bsssize: nat, relocs: seq<byte>)
    requires Ready(units, rss, cs) && BuffersHold(units, cs)
    modifies units, Contents(units)
    ensures EndToEnd(units, Places(units), bsssize)
    ensures AllLoad(units, cs, text, data, DecodeAll(relocs), b, x)
  {
    ghost var us := Views(units, rss, cs);
    bsssize := PlaceUnits(units);
    text, data, relocs := WriteObject(units, rss, cs, us);
    LayoutsEndToEnd(units, bsssize);
    AllUnitsLoad(units, rss, cs, us, b, x);
  }
}
