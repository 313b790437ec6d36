/** The symbol index: eight growing buckets searched by the hash of a name. The
    first symbol added under a hash wins. */
module SymbolIndex {
  import opened Bytes
  import opened Loader
  import opened RcatLoading

  const HASH_INIT: word := 0x811c_9dc5
  const BUCKET_SIZE := 128

  datatype Option<+T> = None | Some(value: T)

  datatype ExternalSymbol = ExternalSymbol(srcunit: nat, namehash: word, segment: nat, finaloffset: int)

  // ---------- the hash ----------

  function Pow2(n: nat): nat { if n == 0 then 1 else 2 * Pow2(n - 1) }

  /** Exclusive or of the low n bits. */
  function XorBits(a: nat, c: nat, n: nat): nat {
    if n == 0 then 0 else (if a % 2 != c % 2 then 1 else 0) + 2 * XorBits(a / 2, c / 2, n - 1)
  }

  lemma {:induction false} XorBitsFit(a: nat, c: nat, n: nat)
    ensures XorBits(a, c, n) < Pow2(n)
  {
    if n > 0 {
      XorBitsFit(a / 2, c / 2, n - 1);
    }
  }

  function XorByte(a: byte, c: byte): byte {
    XorBitsFit(a, c, 8);
    assert Pow2(8) == 256;
    XorBits(a, c, 8)
  }

  /** Exclusive or with a signed character widened to 32 bits: a character with its
      top bit set also flips the upper 24 bits. */
  function XorChar(h: word, c: byte): word {
    (if c < 128 then h / 0x100 else 0xff_ffff - h / 0x100) * 0x100 + XorByte(h % 0x100, c)
  }

  /** The three shifts and the sum, in unsigned 32-bit arithmetic. */
  function Mix(h: word): word {
    (h * 64 % WORD + h * 32 % WORD + h * 4 % WORD + h) % WORD
  }

  function HashStep(h: word, c: byte): word {
    XorChar(Mix(h), c)
  }

  function HashFrom(h: word, name: seq<byte>): word
    decreases |name|
  {
    if name == [] then h else HashFrom(HashStep(h, name[0]), name[1..])
  }

  function HashOf(name: seq<byte>): word { HashFrom(HASH_INIT, name) }

  /** The shifts multiply by 101. */
  lemma ShiftsMultiply(h: word)
    ensures Mix(h) == h * 101 % WORD
  {
    ModShift(h * 64, h * 32 % WORD + h * 4 % WORD + h);
    ModShift(h * 32, h * 64 + h * 4 % WORD + h);
    ModShift(h * 4, h * 64 + h * 32 + h);
  }

  /** Multiplying by 101 modulo 2^32 can be undone. */
  lemma MixInjective(h: word, k: word)
    ensures Mix(h) == Mix(k) ==> h == k
  {
    ShiftsMultiply(h);
    ShiftsMultiply(k);
    Unmix(h);
    Unmix(k);
  }

  lemma MultipleGone(h: word, t: int)
    ensures (h + WORD * t) % WORD == h
  {
  }

  lemma Unmix(h: word)
    ensures h * 101 % WORD * 2083697005 % WORD == h
  {
    var q := h * 101 / WORD;
    assert h * 101 % WORD == h * 101 - WORD * q;
    var t := 49 * h - 2083697005 * q;
    assert (h * 101 - WORD * q) * 2083697005 == h + WORD * t;
    MultipleGone(h, t);
  }

  lemma {:induction false} XorBitsInjective(a: nat, b: nat, c: nat, n: nat)
    requires a < Pow2(n) && b < Pow2(n)
    ensures XorBits(a, c, n) == XorBits(b, c, n) ==> a == b
    ensures XorBits(c, a, n) == XorBits(c, b, n) ==> a == b
  {
    if n > 0 {
      XorBitsInjective(a / 2, b / 2, c / 2, n - 1);
    }
  }

  lemma XorByteInjective(a: byte, b: byte, c: byte)
    ensures XorByte(a, c) == XorByte(b, c) ==> a == b
    ensures XorByte(c, a) == XorByte(c, b) ==> a == b
  {
    assert Pow2(8) == 256;
    XorBitsInjective(a, b, c, 8);
  }

  lemma LowByte(hi: nat, lo: byte)
    ensures (hi * 0x100 + lo) % 0x100 == lo && (hi * 0x100 + lo) / 0x100 == hi
  {
  }

  lemma XorCharInjective(h: word, k: word, c: byte, d: byte)
    ensures XorChar(h, c) == XorChar(k, c) ==> h == k
    ensures XorChar(h, c) == XorChar(h, d) ==> c == d
  {
    XorByteInjective(h % 0x100, k % 0x100, c);
    XorByteInjective(c, d, h % 0x100);
    LowByte(if c < 128 then h / 0x100 else 0xff_ffff - h / 0x100, XorByte(h % 0x100, c));
    LowByte(if c < 128 then k / 0x100 else 0xff_ffff - k / 0x100, XorByte(k % 0x100, c));
    LowByte(if d < 128 then h / 0x100 else 0xff_ffff - h / 0x100, XorByte(h % 0x100, d));
    assert h == h / 0x100 * 0x100 + h % 0x100 && k == k / 0x100 * 0x100 + k % 0x100;
  }

  lemma {:induction false} HashFromInjective(h: word, k: word, z: seq<byte>)
    ensures HashFrom(h, z) == HashFrom(k, z) ==> h == k
    decreases |z|
  {
    if z != [] {
      HashFromInjective(HashStep(h, z[0]), HashStep(k, z[0]), z[1..]);
      XorCharInjective(Mix(h), Mix(k), z[0], z[0]);
      MixInjective(h, k);
    }
  }

  lemma {:induction false} HashFromAppend(h: word, a: seq<byte>, z: seq<byte>)
    ensures HashFrom(h, a + z) == HashFrom(HashFrom(h, a), z)
    decreases |a|
  {
    if a == [] {
      assert a + z == z;
    } else {
      assert (a + z)[1..] == a[1..] + z;
      HashFromAppend(HashStep(h, a[0]), a[1..], z);
    }
  }

  /** Every character counts: names that differ in one character have different hashes. */
  lemma OneCharacterMatters(a: seq<byte>, c: byte, d: byte, z: seq<byte>)
    requires c != d
    ensures HashOf(a + ([c] + z)) != HashOf(a + ([d] + z))
  {
    var h := HashOf(a);
    HashFromAppend(HASH_INIT, a, [c] + z);
    HashFromAppend(HASH_INIT, a, [d] + z);
    HashOfFirst(h, c, z);
    HashOfFirst(h, d, z);
    HashFromInjective(HashStep(h, c), HashStep(h, d), z);
    XorCharInjective(Mix(h), Mix(h), c, d);
  }

  /** The loop that computes a hash. */
  method Hash(name: seq<byte>) returns (hval: word)
    ensures hval == HashOf(name)
  {
    hval := HASH_INIT;
    for i := 0 to |name|
      invariant HashFrom(hval, name[i..]) == HashOf(name)
    {
      assert name[i..][0] == name[i] && name[i..][1..] == name[i + 1..];
      hval := HashStep(hval, name[i]);
    }
  }

  function BucketOf(h: word): (i: nat)
    ensures i < 8
  {
    h % 8
  }

  // ---------- first insertion wins ----------

  /** The first symbol of a list with this hash. */
  function First(symbols: seq<ExternalSymbol>, h: word): Option<ExternalSymbol> {
    if symbols == [] then None
    else if symbols[0].namehash == h then Some(symbols[0])
    else First(symbols[1..], h)
  }

  lemma {:induction false} FirstAppend(symbols: seq<ExternalSymbol>, s: ExternalSymbol, h: word)
    ensures First(symbols + [s], h)
         == if First(symbols, h).Some? then First(symbols, h) else if s.namehash == h then Some(s) else None
  {
    if symbols == [] {
      assert symbols + [s] == [s] && [s][1..] == [];
    } else {
      assert (symbols + [s])[1..] == symbols[1..] + [s];
      FirstAppend(symbols[1..], s, h);
    }
  }

  /** Where it is: nothing before it has the hash. */
  lemma {:induction false} FirstWhere(symbols: seq<ExternalSymbol>, h: word) returns (i: nat)
    ensures i <= |symbols| && forall j :: 0 <= j < i ==> symbols[j].namehash != h
    ensures First(symbols, h) == if i < |symbols| then Some(symbols[i]) else None
    ensures i < |symbols| ==> symbols[i].namehash == h
  {
    if symbols == [] || symbols[0].namehash == h {
      i := 0;
    } else {
      i := FirstWhere(symbols[1..], h);
      i := i + 1;
      assert forall j :: 1 <= j < i ==> symbols[j] == symbols[1..][j - 1];
    }
  }

  /** A simple map keyed by hash that ignores a second insertion. */
  function Table(added: seq<ExternalSymbol>): map<word, ExternalSymbol> {
    if added == [] then map[]
    else
      var t, s := Table(added[..|added| - 1]), added[|added| - 1];
      if s.namehash in t then t else t[s.namehash := s]
  }

  lemma {:induction false} FirstIsTable(added: seq<ExternalSymbol>, h: word)
    ensures First(added, h) == if h in Table(added) then Some(Table(added)[h]) else None
  {
    if added != [] {
      var front, s := added[..|added| - 1], added[|added| - 1];
      assert added == front + [s];
      FirstAppend(front, s, h);
      FirstIsTable(front, h);
    }
  }

  // ---------- the buckets ----------

  /** A bucket owns symbolmax slots, of which the first symbolcount are in use. */
  datatype Bucket = Bucket(symbolcount: nat, symbolmax: nat, symbols: seq<ExternalSymbol>) {
    ghost predicate Valid() { symbolcount < symbolmax == |symbols| }

    function Entries(): seq<ExternalSymbol>
      requires Valid()
    {
      symbols[..symbolcount]
    }
  }

  /** Slots as malloc or realloc provide them: their contents are not looked at. */
  function Slots(n: nat): (s: seq<ExternalSymbol>)
    ensures |s| == n
  {
    seq(n, _ => ExternalSymbol(0, 0, 0, 0))
  }

  /** Puts a symbol in the next slot and doubles the bucket when that was its last. */
  function Insert(b: Bucket, s: ExternalSymbol): (b': Bucket)
    requires b.Valid()
    ensures b'.Valid() && b'.Entries() == b.Entries() + [s]
  {
    var filled := b.symbols[b.symbolcount := s];
    if b.symbolcount + 1 >= b.symbolmax
    then Bucket(b.symbolcount + 1, b.symbolmax * 2, filled + Slots(b.symbolmax))
    else Bucket(b.symbolcount + 1, b.symbolmax, filled)
  }

  class SymbolIndex {
    const buckets: array<Bucket>
    /** Every symbol added so far, in order, whether it was kept or not. */
    ghost var added: seq<ExternalSymbol>

    ghost predicate Valid()
      reads this, buckets
    {
      && buckets.Length == 8
      && (forall i :: 0 <= i < 8 ==> buckets[i].Valid())
      && (forall h :: First(buckets[BucketOf(h)].Entries(), h) == First(added, h))
    }

    constructor ()
      ensures Valid() && added == [] && fresh(buckets)
    {
      buckets := new Bucket[8](_ => Bucket(0, BUCKET_SIZE, Slots(BUCKET_SIZE)));
      added := [];
    }

    /** Forgets all symbols but keeps the slots. */
    method SymbolClear()
      requires Valid()
      modifies this, buckets
      ensures Valid() && added == []
    {
      for i := 0 to 8
        invariant buckets.Length == 8
        invariant forall j :: 0 <= j < 8 ==> buckets[j].Valid()
        invariant forall j :: 0 <= j < i ==> buckets[j].Entries() == []
      {
        buckets[i] := buckets[i].(symbolcount := 0);
      }
      added := [];
    }

    /** Scans one bucket; gives the place of its first entry with this hash. */
    method Scan(b: Bucket, h: word) returns (found: bool, at: nat)
      requires b.Valid()
      ensures found ==> at < b.symbolcount && First(b.Entries(), h) == Some(b.symbols[at])
      ensures !found ==> First(b.Entries(), h) == None
    {
      found, at := false, 0;
      ghost var all := b.Entries();
      while at < b.symbolcount
        invariant at <= b.symbolcount && First(all[at..], h) == First(all, h)
      {
        assert all[at..][0] == b.symbols[at] && all[at..][1..] == all[at + 1..];
        if b.symbols[at].namehash == h {
          return true, at;
        }
        at := at + 1;
      }
    }

    /** Looks a name up by its hash. */
    method SymbolFind(name: seq<byte>) returns (found: Option<ExternalSymbol>)
      requires Valid()
      ensures found == if name == [] then None else First(added, HashOf(name))
    {
      if |name| > 0 {
        var hval := Hash(name);
        var b := buckets[BucketOf(hval)];
        var hit, at := Scan(b, hval);
        return if hit then Some(b.symbols[at]) else None;
      }
      return None;
    }

    /** Adds a symbol unless its hash is already there; says whether it was. */
    method SymbolAdd(unit: nat, name: seq<byte>, segment: nat, finaloffset: int) returns (seen: bool)
      requires Valid()
      modifies this, buckets
      ensures Valid()
      ensures added == old(added) + if name == [] then [] else [ExternalSymbol(unit, HashOf(name), segment, finaloffset)]
      ensures seen <==> name != [] && First(old(added), HashOf(name)).Some?
    {
      seen := false;
      if |name| > 0 {
        var hval := Hash(name);
        var s := ExternalSymbol(unit, hval, segment, finaloffset);
        var b := buckets[BucketOf(hval)];
        var hit, at := Scan(b, hval);
        forall h ensures First(added + [s], h) == if First(added, h).Some? then First(added, h)
                                                  else if h == hval then Some(s) else None
        {
          FirstAppend(added, s, h);
        }
        if hit {
          seen := true;
        } else {
          buckets[BucketOf(hval)] := Insert(b, s);
          forall h ensures First(b.Entries() + [s], h) == if First(b.Entries(), h).Some? then First(b.Entries(), h)
                                                          else if h == hval then Some(s) else None
          {
            FirstAppend(b.Entries(), s, h);
          }
        }
        added := added + [s];
      } else {
        assert added + [] == added;
      }
    }
  }

  // ---------- exported symbols ----------

  const SEGTEXT := 9
  const SEGDATA := 10
  const SEGBSS := 11

  /** A symbol record of one unit. */
  datatype Symbol = Symbol(name: seq<byte>, segment: nat, offset: nat)

  /** The address a loader gives a symbol: its offset in the segment it belongs to. */
  function Address(s: Symbol, b: Bases): nat {
    s.offset + if s.segment == SEGTEXT then b.text else if s.segment == SEGDATA then b.data
               else if s.segment == SEGBSS then b.bss else 0
  }

  /** A symbol moved from its unit to the concatenated object. */
  function Move(s: Symbol, o: Bases): Symbol {
    s.(offset := Address(s, o))
  }

  /** A symbol moves with the section it is in: text 9, data 10, bss 11. */
  lemma SymbolMoves(s: Symbol, o: Bases)
    ensures Move(s, o).name == s.name && Move(s, o).segment == s.segment
    ensures Move(s, o).offset - s.offset == match s.segment
                                            case 9 => o.text
                                            case 10 => o.data
                                            case 11 => o.bss
                                            case _ => 0
  {
  }

  /** Wherever a unit's text or data stands in the concatenated section, a moved symbol
      names the byte that it named in the unit. */
  lemma SymbolNamesSameByte(s: Symbol, o: Bases, whole: seq<byte>, own: seq<byte>)
    requires s.segment in {9, 10} && s.offset < |own| && At(whole, if s.segment == 9 then o.text else o.data, own)
    ensures Move(s, o).offset < |whole| && whole[Move(s, o).offset] == own[s.offset]
  {
    var at := if s.segment == 9 then o.text else o.data;
    assert whole[at..at + |own|][s.offset] == own[s.offset];
  }

  /** Loading a moved symbol gives the address it has when its unit is loaded alone. */
  lemma MovedAddress(s: Symbol, o: Bases, b: Bases)
    ensures Address(Move(s, o), b) == Address(s, Plus(b, o))
  {
  }

  /** Units' symbols in order: each with the offsets of its unit. */
  type Listing = seq<(Symbol, Bases)>

  /** What the first n symbols of a listing add to the index. */
  ghost function Added(all: Listing, n: nat): seq<ExternalSymbol>
    requires n <= |all|
  {
    if n == 0 then []
    else
      var s := all[n - 1].0;
      Added(all, n - 1) + if s.name == [] then [] else [ExternalSymbol(n - 1, HashOf(s.name), s.segment, 0)]
  }

  ghost predicate New(all: Listing, i: nat)
    requires i < |all|
  {
    all[i].0.name == [] || First(Added(all, i), HashOf(all[i].0.name)) == None
  }

  /** The symbols that the concatenated object keeps. */
  ghost function Exported(all: Listing, n: nat): seq<Symbol>
    requires n <= |all|
  {
    if n == 0 then []
    else Exported(all, n - 1) + if New(all, n - 1) then [Move(all[n - 1].0, all[n - 1].1)] else []
  }

  lemma {:induction false} FirstOfListing(all: Listing, n: nat, h: word)
    requires n <= |all|
    ensures First(Added(all, n), h) == None <==>
              forall j :: 0 <= j < n && all[j].0.name != [] ==> HashOf(all[j].0.name) != h
  {
    if n > 0 {
      var s := all[n - 1].0;
      FirstOfListing(all, n - 1, h);
      if s.name != [] {
        FirstAppend(Added(all, n - 1), ExternalSymbol(n - 1, HashOf(s.name), s.segment, 0), h);
      } else {
        assert Added(all, n) == Added(all, n - 1);
      }
    }
  }

  /** A symbol is kept if and only if no earlier symbol has the hash of its name. */
  lemma KeptIffFirstOfItsHash(all: Listing, i: nat)
    requires i < |all| && all[i].0.name != []
    ensures Exported(all, i + 1) == Exported(all, i) + [Move(all[i].0, all[i].1)] <==>
              forall j :: 0 <= j < i && all[j].0.name != [] ==> HashOf(all[j].0.name) != HashOf(all[i].0.name)
  {
    FirstOfListing(all, i, HashOf(all[i].0.name));
    if !New(all, i) {
      assert |Exported(all, i + 1)| == |Exported(all, i)|;
    }
  }

  /** Writes the symbols of all units, leaving out those whose hash was seen before. */
  method ExportSymbols(index: SymbolIndex, all: Listing) returns (out: seq<Symbol>)
    requires index.Valid()
    modifies index, index.buckets
    ensures out == Exported(all, |all|)
  {
    index.SymbolClear();
    out := [];
    for i := 0 to |all|
      invariant index.Valid() && out == Exported(all, i)
      invariant index.added == Added(all, i)
    {
      var s, o := all[i].0, all[i].1;
      var seen := index.SymbolAdd(i, s.name, s.segment, 0);
      if !seen {
        out := out + [Move(s, o)];
      }
    }
  }

  /** Two symbols with different names, of which the second one is not exported. */
  lemma DifferentNamesSameHash(first: Symbol, second: Symbol, o: Bases)
    requires |first.name| == |second.name| == 2
    requires first.name[0] == 98 && first.name[1] == 80 && second.name[0] == 99 && second.name[1] == 53
    ensures Exported([(first, o), (second, o)], 2) == [Move(first, o)]
  {
    HashOfFirstName(first.name);
    HashOfSecondName(second.name);
    SecondDropped([(first, o), (second, o)]);
  }

  lemma SecondDropped(all: Listing)
    requires |all| == 2 && all[0].0.name != [] && all[1].0.name != [] && HashOf(all[0].0.name) == HashOf(all[1].0.name)
    ensures Exported(all, 2) == [Move(all[0].0, all[0].1)]
  {
    FirstOfListing(all, 0, HashOf(all[0].0.name));
    FirstOfListing(all, 1, HashOf(all[1].0.name));
    assert New(all, 0);
    assert !New(all, 1);
    assert Exported(all, 1) == Exported(all, 0) + [Move(all[0].0, all[0].1)] && Exported(all, 0) == [];
    assert Exported(all, 2) == Exported(all, 1) + [];
  }

  lemma HashOfFirstName(name: seq<byte>)
    requires |name| == 2 && name[0] == 98 && name[1] == 80
    ensures HashOf(name) == 0xcd4a_cc37
  {
    XorB6(); Xor92(); Xor65(); Xor70();
    XorOfNibbles(0xb9, 98, 0xb, 9, 6, 2, 0xd, 0xb);
    XorOfNibbles(0x67, 80, 6, 7, 5, 0, 3, 7);
    HashOfTwo(name, 98, 80, 0xf04a_3eb9, 0xdb, 0xf04a_3edb, 0xcd4a_cc67, 0x37);
  }

  lemma HashOfSecondName(name: seq<byte>)
    requires |name| == 2 && name[0] == 99 && name[1] == 53
    ensures HashOf(name) == 0xcd4a_cc37
  {
    XorB6(); Xor93(); Xor03(); Xor25();
    XorOfNibbles(0xb9, 99, 0xb, 9, 6, 3, 0xd, 0xa);
    XorOfNibbles(0x02, 53, 0, 2, 3, 5, 3, 7);
    HashOfTwo(name, 99, 53, 0xf04a_3eb9, 0xda, 0xf04a_3eda, 0xcd4a_cc02, 0x37);
  }

  lemma XorB6() ensures XorBits(0xb, 6, 4) == 0xd {}
  lemma Xor92() ensures XorBits(9, 2, 4) == 0xb {}
  lemma Xor65() ensures XorBits(6, 5, 4) == 3 {}
  lemma Xor70() ensures XorBits(7, 0, 4) == 7 {}
  lemma Xor93() ensures XorBits(9, 3, 4) == 0xa {}
  lemma Xor03() ensures XorBits(0, 3, 4) == 3 {}
  lemma Xor25() ensures XorBits(2, 5, 4) == 7 {}

  /** A hash computed in two steps, through these numbers. */
  lemma HashOfTwo(name: seq<byte>, c: byte, d: byte, mixed: word, low: byte, next: word, mixed2: word, low2: byte)
    requires |name| == 2 && name[0] == c < 128 && name[1] == d < 128
    requires 0x811c_9dc5 * 101 % WORD == mixed && XorByte(mixed % 0x100, c) == low && next == mixed - mixed % 0x100 + low
    requires next * 101 % WORD == mixed2 && XorByte(mixed2 % 0x100, d) == low2
    ensures HashOf(name) == mixed2 - mixed2 % 0x100 + low2
  {
    ShiftsMultiply(HASH_INIT);
    ShiftsMultiply(next);
    StepTo(HASH_INIT, c, mixed, low);
    StepTo(next, d, mixed2, low2);
    HashOfFirst(HASH_INIT, c, [d]);
    HashOfFirst(next, d, []);
    assert name == [c] + [d] && [d] == [d] + [];
  }

  /** The lowest digit, where some multiple of two is added to each number. */
  lemma XorLow(x: nat, y: nat, a: nat, c: nat, n: nat)
    ensures XorBits(2 * x + a, 2 * y + c, n + 1) - 2 * XorBits(x + a / 2, y + c / 2, n)
         == XorBits(a, c, n + 1) - 2 * XorBits(a / 2, c / 2, n)
  {
    assert (2 * x + a) / 2 == x + a / 2 && (2 * y + c) / 2 == y + c / 2;
    assert (2 * x + a) % 2 == a % 2 && (2 * y + c) % 2 == c % 2;
  }

  function Quarter(a: nat): nat { a / 2 / 2 }

  lemma XorTwoLow(x: nat, y: nat, a: nat, c: nat, n: nat)
    ensures XorBits(4 * x + a, 4 * y + c, n + 2) - 4 * XorBits(x + Quarter(a), y + Quarter(c), n)
         == XorBits(a, c, n + 2) - 4 * XorBits(Quarter(a), Quarter(c), n)
  {
    XorLow(2 * x, 2 * y, a, c, n + 1);
    XorLow(x, y, a / 2, c / 2, n);
    assert 2 * (2 * x) == 4 * x && 2 * (2 * y) == 4 * y;
  }

  lemma XorFourLow(x: nat, y: nat, a: nat, c: nat, n: nat)
    requires Quarter(Quarter(a)) == 0 && Quarter(Quarter(c)) == 0
    ensures XorBits(16 * x + a, 16 * y + c, n + 4) - 16 * XorBits(x, y, n)
         == XorBits(a, c, n + 4) - 16 * XorBits(0, 0, n)
  {
    TwiceTwoLow(x, y, a, c, n, Quarter(a), Quarter(c), 4 * x, 4 * y, n + 2);
  }

  lemma TwiceTwoLow(x: nat, y: nat, a: nat, c: nat, n: nat, a': nat, c': nat, x': nat, y': nat, m: nat)
    requires x' == 4 * x && y' == 4 * y && m == n + 2
    requires a' == Quarter(a) && c' == Quarter(c) && Quarter(a') == 0 && Quarter(c') == 0
    ensures XorBits(4 * x' + a, 4 * y' + c, m + 2) - 16 * XorBits(x, y, n)
         == XorBits(a, c, m + 2) - 16 * XorBits(0, 0, n)
  {
    XorTwoLow(x', y', a, c, m);
    XorTwoLow(x, y, a', c', n);
  }

  lemma {:induction false} XorShort(a: nat, c: nat, n: nat, k: nat)
    requires a < Pow2(n) && c < Pow2(n)
    ensures XorBits(a, c, n + k) == XorBits(a, c, n)
    decreases n + k
  {
    if n > 0 {
      XorShort(a / 2, c / 2, n - 1, k);
    } else if k > 0 {
      XorShort(0, 0, 0, k - 1);
    }
  }

  lemma XorOfNibbles(a: byte, c: byte, ah: nat, al: nat, ch: nat, cl: nat, dh: nat, dl: nat)
    requires a == 16 * ah + al && c == 16 * ch + cl && al < 16 && cl < 16
    requires XorBits(ah, ch, 4) == dh && XorBits(al, cl, 4) == dl
    ensures XorByte(a, c) == 16 * dh + dl
  {
    var n := 4;
    assert Pow2(n) == 16;
    XorFourLow(ah, ch, al, cl, n);
    XorShort(al, cl, n, n);
    XorShort(0, 0, 0, n);
  }

  lemma HashOfFirst(h: word, c: byte, rest: seq<byte>)
    ensures HashFrom(h, [c] + rest) == HashFrom(HashStep(h, c), rest)
  {
    assert ([c] + rest)[1..] == rest;
  }

  lemma StepTo(h: word, c: byte, mixed: word, low: byte)
    requires Mix(h) == mixed && c < 128 && XorByte(mixed % 0x100, c) == low
    ensures HashStep(h, c) == mixed - mixed % 0x100 + low
  {
  }
}
