/** Directory listings of the NFS server: replies that hold as many entries as fit, and
    the client that asks for one after the other. */
module ReadDir {
  import opened Bytes

  const TRANSFER_SIZE := 8192 + 256

  datatype Version = V2 | V3

  /** Bytes in front of the first entry: the RPC header and status, and in version 3 the
      directory's attributes and cookie verifier. */
  function Base(v: Version): nat { if v == V2 then 28 else 24 + 4 + 88 + 8 }

  /** What is kept back of the client's count. */
  function Reserve(v: Version): nat { if v == V2 then 12 else 32 }

  /** File identifiers and cookies have 32 or 64 bits. */
  function IdSize(v: Version): nat { if v == V2 then 4 else 8 }

  function RoundLen(n: nat): nat { (n + 3) / 4 * 4 }

  /** Bytes that an entry takes. */
  function Cost(v: Version, name: seq<byte>): nat { 8 + 2 * IdSize(v) + RoundLen(|name|) }

  predicate Listable(names: seq<seq<byte>>) {
    |names| < WORD && forall i :: 0 <= i < |names| ==> |names[i]| < 0x1_0000
  }

  // ---------- the bytes of a reply, and how a client reads them ----------

  function Id(v: Version, n: nat): (s: seq<byte>)
    ensures |s| == IdSize(v)
  {
    if v == V2 then ToBe(n) else ToBe(0) + ToBe(n)
  }

  function Padded(name: seq<byte>): (s: seq<byte>)
    ensures |s| == RoundLen(|name|)
  {
    name + Repeat(RoundLen(|name|) - |name|, 0)
  }

  /** The entry of file n. */
  function EntryBytes(v: Version, n: nat, name: seq<byte>): (s: seq<byte>)
    ensures |s| == Cost(v, name)
  {
    ToBe(1) + Id(v, n) + ToBe(|name|) + Padded(name) + Id(v, n)
  }

  /** The entries of k files behind the first offset ones. */
  function EntriesBytes(v: Version, names: seq<seq<byte>>, offset: nat, k: nat): seq<byte>
    decreases k
  {
    if k == 0 || offset >= |names| then []
    else EntryBytes(v, offset + 1, names[offset]) + EntriesBytes(v, names, offset + 1, k - 1)
  }

  /** The end of a reply: no further entry, and whether it is the end of the directory. */
  function Trailer(eof: bool): (s: seq<byte>)
    ensures |s| == 8
  {
    ToBe(0) + ToBe(if eof then 1 else 0)
  }

  datatype DirEntry = DirEntry(fileid: nat, name: seq<byte>, cookie: nat)
  datatype Listing = Listing(entries: seq<DirEntry>, eof: bool) | Malformed

  function Prepend(e: DirEntry, l: Listing): Listing {
    if l.Malformed? then Malformed else Listing([e] + l.entries, l.eof)
  }

  function WordFrom(s: seq<byte>, i: nat): nat {
    if i + 4 <= |s| then FromBe(s[i..i + 4]) else 0
  }

  /** What a client makes of a reply from its first entry on. */
  function Parse(v: Version, s: seq<byte>): Listing
    decreases |s|
  {
    if |s| < 8 then Malformed
    else if WordFrom(s, 0) == 0 then Listing([], WordFrom(s, 4) != 0)
    else
      var at := 4 + IdSize(v) + 4;
      var len := WordFrom(s, at - 4);
      var end := at + RoundLen(len) + IdSize(v);
      if |s| < end then Malformed
      else Prepend(DirEntry(WordFrom(s, at - 8), s[at..at + len], WordFrom(s, end - 4)), Parse(v, s[end..]))
  }

  /** Files offset + 1 to offset + k. */
  function Slice(names: seq<seq<byte>>, offset: nat, k: nat): seq<DirEntry>
    decreases k
  {
    if k == 0 || offset >= |names| then []
    else [DirEntry(offset + 1, names[offset], offset + 1)] + Slice(names, offset + 1, k - 1)
  }

  lemma WordAt(s: seq<byte>, i: nat, n: nat)
    requires At(s, i, ToBe(n)) && n < WORD
    ensures WordFrom(s, i) == n
  {
  }

  /** The low word of an identifier. */
  lemma IdAt(v: Version, s: seq<byte>, i: nat, n: nat)
    requires At(s, i, Id(v, n)) && n < WORD
    ensures WordFrom(s, i + IdSize(v) - 4) == n
  {
    if v == V3 {
      assert At(ToBe(0) + ToBe(n), 4, ToBe(n));
      AtInside(s, i, Id(v, n), 4, ToBe(n));
    }
    WordAt(s, i + IdSize(v) - 4, n);
  }

  /** Where five parts stand in what they form. */
  lemma FiveParts(a: seq<byte>, b: seq<byte>, c: seq<byte>, d: seq<byte>, e: seq<byte>, rest: seq<byte>)
    ensures var s := a + b + c + d + e + rest;
            && At(s, 0, a) && At(s, |a|, b) && At(s, |a| + |b|, c) && At(s, |a| + |b| + |c|, d)
            && At(s, |a| + |b| + |c| + |d|, e) && s[|a| + |b| + |c| + |d| + |e|..] == rest
  {
  }

  lemma FiveAppended(was: seq<byte>, a: seq<byte>, b: seq<byte>, c: seq<byte>, d: seq<byte>, e: seq<byte>)
    ensures was + a + b + c + d + e == was + (a + b + c + d + e)
  {
  }

  lemma EntryParts(v: Version, n: nat, name: seq<byte>, rest: seq<byte>)
    ensures var s := EntryBytes(v, n, name) + rest;
            var at := 8 + IdSize(v);
            && At(s, 0, ToBe(1)) && At(s, 4, Id(v, n)) && At(s, at - 4, ToBe(|name|)) && At(s, at, name)
            && At(s, at + RoundLen(|name|), Id(v, n))
            && s[Cost(v, name)..] == rest
  {
    var s, at := EntryBytes(v, n, name) + rest, 8 + IdSize(v);
    FiveParts(ToBe(1), Id(v, n), ToBe(|name|), Padded(name), Id(v, n), rest);
    assert At(Padded(name), 0, name);
    AtInside(s, at, Padded(name), 0, name);
  }

  /** These are the words and the name of an entry. */
  ghost predicate EntryWords(v: Version, s: seq<byte>, n: nat, name: seq<byte>, at: nat, end: nat) {
    && at == 8 + IdSize(v) && end == at + RoundLen(|name|) + IdSize(v) && end <= |s|
    && WordFrom(s, 0) == 1 && WordFrom(s, at - 8) == n && WordFrom(s, at - 4) == |name| && WordFrom(s, end - 4) == n
    && s[at..at + |name|] == name
  }

  lemma WordsOf(v: Version, s: seq<byte>, n: nat, name: seq<byte>, at: nat, end: nat)
    requires n < WORD && |name| < WORD && end <= |s|
    requires at == 8 + IdSize(v) && end == at + RoundLen(|name|) + IdSize(v)
    requires At(s, 0, ToBe(1)) && At(s, 4, Id(v, n)) && At(s, at - 4, ToBe(|name|))
    requires At(s, at, name) && At(s, end - IdSize(v), Id(v, n))
    ensures EntryWords(v, s, n, name, at, end)
  {
    WordAt(s, 0, 1);
    IdAt(v, s, 4, n);
    WordAt(s, at - 4, |name|);
    IdAt(v, s, end - IdSize(v), n);
  }

  lemma ParseWords(v: Version, s: seq<byte>, n: nat, name: seq<byte>, at: nat, end: nat)
    requires EntryWords(v, s, n, name, at, end)
    ensures Parse(v, s) == Prepend(DirEntry(n, name, n), Parse(v, s[end..]))
  {
  }

  lemma ParseEntry(v: Version, n: nat, name: seq<byte>, rest: seq<byte>)
    requires n < WORD && |name| < WORD
    ensures Parse(v, EntryBytes(v, n, name) + rest) == Prepend(DirEntry(n, name, n), Parse(v, rest))
  {
    EntryParts(v, n, name, rest);
    var s, at, end := EntryBytes(v, n, name) + rest, 8 + IdSize(v), Cost(v, name);
    WordsOf(v, s, n, name, at, end);
    ParseWords(v, s, n, name, at, end);
  }

  lemma ParseTrailer(v: Version, eof: bool)
    ensures Parse(v, Trailer(eof)) == Listing([], eof)
  {
    var s := Trailer(eof);
    assert At(s, 0, ToBe(0)) && At(s, 4, ToBe(if eof then 1 else 0));
    WordAt(s, 0, 0);
    WordAt(s, 4, if eof then 1 else 0);
  }

  /** A function reads one entry at a time. */
  ghost predicate ReadsEntries(v: Version, parse: seq<byte> -> Listing) {
    forall n: nat, name: seq<byte>, rest: seq<byte> {:trigger EntryBytes(v, n, name) + rest} :: n < WORD && |name| < WORD ==>
      parse(EntryBytes(v, n, name) + rest) == Prepend(DirEntry(n, name, n), parse(rest))
  }

  lemma ReadOneMore(v: Version, parse: seq<byte> -> Listing, n: nat, name: seq<byte>, rest: seq<byte>, tail: seq<byte>,
                    es: seq<DirEntry>)
    requires ReadsEntries(v, parse) && n < WORD && |name| < WORD && parse(rest + tail) == PrependAll(es, parse(tail))
    ensures parse(EntryBytes(v, n, name) + rest + tail) == PrependAll([DirEntry(n, name, n)] + es, parse(tail))
  {
    var e := EntryBytes(v, n, name);
    Assoc(e, rest, tail);
    assert parse(e + (rest + tail)) == Prepend(DirEntry(n, name, n), parse(rest + tail));
    assert ([DirEntry(n, name, n)] + es)[1..] == es;
  }

  lemma {:induction false} EntriesRead(v: Version, names: seq<seq<byte>>, offset: nat, k: nat, tail: seq<byte>,
                                       parse: seq<byte> -> Listing)
    requires Listable(names) && ReadsEntries(v, parse)
    ensures parse(EntriesBytes(v, names, offset, k) + tail) == PrependAll(Slice(names, offset, k), parse(tail))
    decreases k
  {
    if k == 0 || offset >= |names| {
      assert [] + tail == tail;
    } else {
      EntriesRead(v, names, offset + 1, k - 1, tail, parse);
      ReadOneMore(v, parse, offset + 1, names[offset], EntriesBytes(v, names, offset + 1, k - 1), tail,
                  Slice(names, offset + 1, k - 1));
    }
  }

  /** A client reads from a reply exactly the entries that the server put there. */
  lemma ParseEntries(v: Version, names: seq<seq<byte>>, offset: nat, k: nat, eof: bool)
    requires Listable(names)
    ensures Parse(v, EntriesBytes(v, names, offset, k) + Trailer(eof)) == Listing(Slice(names, offset, k), eof)
  {
    var parse := (s: seq<byte>) => Parse(v, s);
    assert ReadsEntries(v, parse) by {
      forall n: nat, name: seq<byte>, rest: seq<byte> | n < WORD && |name| < WORD
        ensures parse(EntryBytes(v, n, name) + rest) == Prepend(DirEntry(n, name, n), parse(rest))
      {
        ParseEntry(v, n, name, rest);
      }
    }
    EntriesRead(v, names, offset, k, Trailer(eof), parse);
    ParseTrailer(v, eof);
    PrependAllListing(Slice(names, offset, k), eof);
  }

  function PrependAll(es: seq<DirEntry>, l: Listing): Listing {
    if es == [] then l else Prepend(es[0], PrependAll(es[1..], l))
  }

  lemma {:induction false} PrependAllListing(es: seq<DirEntry>, eof: bool)
    ensures PrependAll(es, Listing([], eof)) == Listing(es, eof)
  {
    if es != [] {
      PrependAllListing(es[1..], eof);
    }
  }

  // ---------- the same bytes, written out ----------

  /** A string behind its length, with zeros up to a multiple of four. */
  lemma PaddingIs(was: seq<byte>, len: seq<byte>, s: seq<byte>, padded: seq<byte>)
    requires |len| == 4 && padded == Padded(s)
    ensures |len + padded| % 4 == 0 && 4 + |s| <= |len + padded| < 4 + |s| + 4
    ensures var t := was + len + padded;
            && t[|was| + 4..|was| + 4 + |s|] == s
            && forall i :: |was| + 4 + |s| <= i < |t| ==> t[i] == 0
  {
    var t := was + len + padded;
    assert padded[..|s|] == s;
    assert t[|was| + 4..|was| + 4 + |s|] == padded[..|s|];
  }

  /** An entry of the protocol: a one, a file number of four or eight bytes, the length of
      the name, the name, zeros up to a multiple of four, and the number again. All
      numbers have their most significant byte first. */
  ghost predicate IsEntry(e: seq<byte>, w: nat, n: nat, name: seq<byte>) {
    var at := 8 + w;
    && |e| % 4 == 0 && at + |name| + w <= |e| < at + |name| + w + 4 && w >= 4
    && e[..4] == [0, 0, 0, 1]
    && e[4..4 + w] == NumberOf(w, n) && e[4 + w..at] == NumberOf(4, |name|) && e[at..at + |name|] == name
    && (forall i :: at + |name| <= i < |e| - w ==> e[i] == 0)
    && e[|e| - w..] == NumberOf(w, n)
  }

  /** The low 32 bits of a number at the end of w bytes. */
  function NumberOf(w: nat, n: nat): seq<byte>
    requires w >= 4
  {
    Repeat(w - 4, 0) + [n / 16777216 % 256, n / 65536 % 256, n / 256 % 256, n % 256]
  }

  lemma WordIs(n: nat)
    ensures ToBe(n) == NumberOf(4, n)
  {
    assert Repeat(0, 0) == [];
    HighBytes(n);
  }

  lemma QuotientIs(n: nat, b: nat, q: nat, r: nat)
    requires n == b * q + r && r < b && b in {256, 65536, 16777216}
    ensures n / b == q && n % b == r
  {
  }

  lemma HighBytes(n: nat)
    ensures n / 0x1_0000 % 0x1_0000 / 0x100 == n / 16777216 % 256 && n / 0x1_0000 % 0x1_0000 % 0x100 == n / 65536 % 256
    ensures n % 0x1_0000 / 0x100 == n / 256 % 256 && n % 0x1_0000 % 0x100 == n % 256
  {
    var g := n / 256;
    var h, d := g / 256, n % 256;
    var k, c := h / 256, g % 256;
    var p, q, r := k / 256, k % 256, h % 256;
    assert n == 256 * g + d && g == 256 * h + c && h == 256 * k + r && k == 256 * p + q;
    QuotientIs(n, 65536, h, 256 * c + d);
    QuotientIs(n, 16777216, k, 65536 * r + 256 * c + d);
    QuotientIs(h, 65536, p, 256 * q + r);
    QuotientIs(256 * q + r, 256, q, r);
    QuotientIs(256 * c + d, 256, c, d);
  }

  lemma WideIs(n: nat)
    ensures ToBe(0) + ToBe(n) == NumberOf(8, n)
  {
    WordIs(n);
    OneIs();
    assert Repeat(0, 0) == [] && Repeat(4, 0) == [0, 0, 0, 0];
  }

  lemma IdIs(v: Version, n: nat)
    ensures Id(v, n) == NumberOf(if v == V2 then 4 else 8, n)
  {
    if v == V2 {
      WordIs(n);
    } else {
      WideIs(n);
    }
  }

  lemma PartsAreEntry(one: seq<byte>, id: seq<byte>, len: seq<byte>, padded: seq<byte>, e: seq<byte>, w: nat, n: nat, name: seq<byte>)
    requires |one| == |len| == 4 && |id| == w >= 4 && e == one + id + len + padded + id
    requires one == [0, 0, 0, 1] && id == NumberOf(w, n) && len == NumberOf(4, |name|)
    requires |padded| % 4 == 0 && w % 4 == 0 && |name| <= |padded| < |name| + 4 && padded[..|name|] == name
    requires forall i :: |name| <= i < |padded| ==> padded[i] == 0
    ensures IsEntry(e, w, n, name)
  {
    var at := 8 + w;
    assert e[..4] == one && e[4..4 + w] == id && e[4 + w..at] == len;
    assert e[at..at + |name|] == padded[..|name|] && e[|e| - w..] == id;
    forall i | at + |name| <= i < |e| - w ensures e[i] == 0 {
      assert e[i] == padded[i - at];
    }
  }

  /** Each entry that is put into a reply is one of the protocol. */
  lemma EntryOnTheWire(v: Version, n: nat, name: seq<byte>)
    ensures IsEntry(EntryBytes(v, n, name), if v == V2 then 4 else 8, n, name)
  {
    IdIs(v, n);
    OneIs();
    WordIs(|name|);
    PaddedIs(name);
    PartsAreEntry(ToBe(1), Id(v, n), ToBe(|name|), Padded(name), EntryBytes(v, n, name), if v == V2 then 4 else 8, n, name);
  }

  lemma OneIs()
    ensures ToBe(1) == [0, 0, 0, 1] && ToBe(0) == [0, 0, 0, 0]
  {
  }

  lemma PaddedIs(name: seq<byte>)
    ensures var p := Padded(name);
            && |p| % 4 == 0 && |name| <= |p| < |name| + 4 && p[..|name|] == name
            && forall i :: |name| <= i < |p| ==> p[i] == 0
  {
  }

  /** The end of a reply in bytes. */
  lemma TrailerOnTheWire(eof: bool)
    ensures Trailer(eof) == [0, 0, 0, 0, 0, 0, 0, if eof then 1 else 0]
  {
    OneIs();
  }

  // ---------- how many entries fit ----------

  /** Entries behind offset that fit into this room when cwp bytes are used. */
  function Fitting(v: Version, names: seq<seq<byte>>, offset: nat, cwp: nat, room: int): nat
    decreases |names| - offset
  {
    if offset >= |names| || cwp + Cost(v, names[offset]) > room then 0
    else 1 + Fitting(v, names, offset + 1, cwp + Cost(v, names[offset]), room)
  }

  function Room(v: Version, count: int): int {
    (if count > TRANSFER_SIZE then TRANSFER_SIZE else count) - Reserve(v)
  }

  /** How many entries a reply lists. */
  function Listed(v: Version, names: seq<seq<byte>>, offset: nat, count: int): (k: nat) {
    Fitting(v, names, offset, Base(v), Room(v, count))
  }

  /** Whether a reply says that it is the last. */
  predicate Eof(v: Version, names: seq<seq<byte>>, offset: nat, count: int) {
    offset + Listed(v, names, offset, count) >= |names| && Room(v, count) != 0
  }

  /** The bytes of k entries. */
  function TotalCost(v: Version, names: seq<seq<byte>>, offset: nat, k: nat): nat
    decreases k
  {
    if k == 0 || offset >= |names| then 0 else Cost(v, names[offset]) + TotalCost(v, names, offset + 1, k - 1)
  }

  lemma {:induction false} EntriesLength(v: Version, names: seq<seq<byte>>, offset: nat, k: nat)
    ensures |EntriesBytes(v, names, offset, k)| == TotalCost(v, names, offset, k)
    decreases k
  {
    if k > 0 && offset < |names| {
      EntriesLength(v, names, offset + 1, k - 1);
    }
  }

  lemma SumAligned(a: nat, b: nat)
    requires a % 4 == 0 && b % 4 == 0
    ensures (a + b) % 4 == 0
  {
  }

  lemma CostAligned(v: Version, name: seq<byte>)
    ensures Cost(v, name) % 4 == 0 && Base(v) % 4 == 0
  {
    PaddedIs(name);
    SumAligned(8 + 2 * IdSize(v), |Padded(name)|);
  }

  lemma {:induction false} TotalAligned(v: Version, names: seq<seq<byte>>, offset: nat, k: nat)
    ensures TotalCost(v, names, offset, k) % 4 == 0
    decreases k
  {
    if k > 0 && offset < |names| {
      CostAligned(v, names[offset]);
      TotalAligned(v, names, offset + 1, k - 1);
      SumAligned(Cost(v, names[offset]), TotalCost(v, names, offset + 1, k - 1));
    }
  }

  lemma EntriesAligned(v: Version, names: seq<seq<byte>>, offset: nat, k: nat)
    ensures |EntriesBytes(v, names, offset, k)| % 4 == 0
  {
    EntriesLength(v, names, offset, k);
    TotalAligned(v, names, offset, k);
  }

  lemma {:induction false} FittingCost(v: Version, names: seq<seq<byte>>, offset: nat, cwp: nat, room: int)
    ensures var k := Fitting(v, names, offset, cwp, room);
            && (offset <= |names| ==> offset + k <= |names|)
            && TotalCost(v, names, offset, k) + cwp <= if k > 0 then room else cwp
    decreases |names| - offset
  {
    if offset < |names| && cwp + Cost(v, names[offset]) <= room {
      FittingCost(v, names, offset + 1, cwp + Cost(v, names[offset]), room);
    }
  }

  lemma FittingBounds(v: Version, names: seq<seq<byte>>, offset: nat, cwp: nat, room: int)
    ensures var k := Fitting(v, names, offset, cwp, room);
            && (offset <= |names| ==> offset + k <= |names|)
            && |EntriesBytes(v, names, offset, k)| + cwp <= if k > 0 then room else cwp
  {
    FittingCost(v, names, offset, cwp, room);
    EntriesLength(v, names, offset, Fitting(v, names, offset, cwp, room));
  }

  /** A reply lists as many entries as fit: with the bytes in front of them, they stay
      within the count, or within 8448 bytes, less 12 or 32 that are kept back; the next
      entry would not. */
  lemma {:induction false} FittingFills(v: Version, names: seq<seq<byte>>, offset: nat, cwp: nat, room: int)
    ensures var k := Fitting(v, names, offset, cwp, room);
            && (k > 0 ==> cwp + TotalCost(v, names, offset, k) <= room)
            && (offset + k < |names| ==> cwp + TotalCost(v, names, offset, k + 1) > room)
    decreases |names| - offset
  {
    if offset < |names| && cwp + Cost(v, names[offset]) <= room {
      FittingFills(v, names, offset + 1, cwp + Cost(v, names[offset]), room);
    }
  }

  lemma ListedFills(v: Version, names: seq<seq<byte>>, offset: nat, count: int, front: nat, room: int)
    requires front == if v == V2 then 28 else 124
    requires room == (if count > 8448 then 8448 else count) - if v == V2 then 12 else 32
    ensures var k := Listed(v, names, offset, count);
            && (k > 0 ==> front + |EntriesBytes(v, names, offset, k)| <= room)
            && (offset + k < |names| ==> front + |EntriesBytes(v, names, offset, k + 1)| > room)
  {
    var k := Listed(v, names, offset, count);
    FittingFills(v, names, offset, front, room);
    EntriesLength(v, names, offset, k);
    EntriesLength(v, names, offset, k + 1);
  }

  // ---------- the server ----------

  class Response {
    const buffer: array<byte>
    var cwp: nat

    constructor ()
      ensures Valid() && cwp == 0 && fresh(buffer)
    {
      buffer := new byte[TRANSFER_SIZE];
      cwp := 0;
    }

    ghost predicate Valid()
      reads this
    {
      buffer.Length == TRANSFER_SIZE && cwp <= TRANSFER_SIZE
    }

    /** What was written so far. */
    ghost function Sent(): seq<byte>
      requires Valid()
      reads this, buffer
    {
      buffer[..cwp]
    }

    /** Copies bytes behind what was written, without counting them as written. */
    method Place(s: seq<byte>)
      requires Valid() && cwp + |s| <= TRANSFER_SIZE
      modifies buffer
      ensures buffer[..cwp + |s|] == old(Sent()) + s
    {
      for i := 0 to |s|
        invariant buffer[..cwp + i] == old(Sent()) + s[..i]
      {
        buffer[cwp + i] := s[i];
      }
      assert s[..|s|] == s;
    }

    /** Starts the reply. */
    method AddHead(head: seq<byte>)
      requires Valid() && cwp == 0 && |head| <= TRANSFER_SIZE
      modifies this, buffer
      ensures Valid() && cwp == |head| && Sent() == head
    {
      Place(head);
      cwp := |head|;
      assert [] + head == head;
    }

    method AddUint(val: nat)
      requires Valid() && cwp + 4 <= TRANSFER_SIZE
      modifies this, buffer
      ensures Valid() && Sent() == old(Sent()) + ToBe(val)
    {
      Place(ToBe(val));
      cwp := cwp + 4;
    }

    method AddUint64(val: nat)
      requires Valid() && cwp + 8 <= TRANSFER_SIZE
      modifies this, buffer
      ensures Valid() && Sent() == old(Sent()) + (ToBe(0) + ToBe(val))
    {
      AddUint(0);
      AddUint(val);
    }

    method AddId(v: Version, n: nat)
      requires Valid() && cwp + IdSize(v) <= TRANSFER_SIZE
      modifies this, buffer
      ensures Valid() && Sent() == old(Sent()) + Id(v, n)
    {
      if v == V2 {
        AddUint(n);
      } else {
        AddUint64(n);
      }
    }

    /** Adds a string: its length, its bytes and three zero bytes, of which as many
        count as its length needs to be rounded up. */
    method AddString(s: seq<byte>)
      requires Valid() && cwp + 4 + |s| + 3 <= TRANSFER_SIZE
      modifies this, buffer
      ensures Valid() && Sent() == old(Sent()) + ToBe(|s|) + Padded(s)
      ensures (cwp - old(cwp)) % 4 == 0 && 4 + |s| <= cwp - old(cwp) < 4 + |s| + 4
      ensures buffer[old(cwp) + 4..old(cwp) + 4 + |s|] == s
      ensures forall i :: old(cwp) + 4 + |s| <= i < cwp ==> buffer[i] == 0
    {
      PaddingIs(Sent(), ToBe(|s|), s, Padded(s));
      AddUint(|s|);
      Place(s + [0, 0, 0]);
      assert Padded(s) <= s + [0, 0, 0];
      assert buffer[..cwp + RoundLen(|s|)] == buffer[..cwp + |s| + 3][..cwp + RoundLen(|s|)];
      cwp := cwp + RoundLen(|s|);
    }

    /** Adds the entry of file n. */
    method AddEntry(v: Version, n: nat, name: seq<byte>)
      requires Valid() && cwp + Cost(v, name) <= TRANSFER_SIZE - 3
      modifies this, buffer
      ensures Valid() && Sent() == old(Sent()) + EntryBytes(v, n, name)
    {
      ghost var was := Sent();
      AddUint(1);
      AddId(v, n);
      AddString(name);
      AddId(v, n);
      FiveAppended(was, ToBe(1), Id(v, n), ToBe(|name|), Padded(name), Id(v, n));
    }

    /** Entry o is the next to be listed, and those that still fit complete the reply. */
    ghost predicate Working(v: Version, names: seq<seq<byte>>, o: nat, room: int, target: seq<byte>, end: nat)
      reads this, buffer
    {
      Valid() && cwp <= TRANSFER_SIZE - 12 && room <= TRANSFER_SIZE - 12 && Pending(v, names, o, Sent(), room, target, end)
    }

    /** The listing is complete, and does not reach the last file. */
    ghost predicate Filled(names: seq<seq<byte>>, target: seq<byte>, end: nat)
      reads this, buffer
    {
      Valid() && cwp <= TRANSFER_SIZE - 12 && Sent() == target && end < |names|
    }

    /** Lists entry o if there is room for it. */
    method ListEntry(v: Version, names: seq<seq<byte>>, o: nat, count: int, ghost target: seq<byte>, ghost end: nat)
      returns (full: bool)
      requires o < |names| && Working(v, names, o, count, target, end)
      modifies this, buffer
      ensures full ==> Filled(names, target, end)
      ensures !full ==> Working(v, names, o + 1, count, target, end)
    {
      PendingNext(v, names, o, Sent(), count, target, end);
      if cwp + RoundLen(|names[o]|) + (8 + 2 * IdSize(v)) > count {
        return true;
      }
      AddEntry(v, o + 1, names[o]);
      return false;
    }

    /** Lists all entries behind the first offset ones until one does not fit. */
    method ListEntries(v: Version, names: seq<seq<byte>>, offset: nat, count: int, ghost target: seq<byte>, ghost end: nat)
      returns (full: bool)
      requires Working(v, names, offset, count, target, end)
      modifies this, buffer
      ensures Valid() && cwp <= TRANSFER_SIZE - 12 && Sent() == target && (full <==> end < |names|)
    {
      var n := 0;
      ghost var o := offset;
      full := false;
      while n < |names| && !full
        invariant n <= |names| && (n <= offset ==> o == offset) && (n > offset ==> o == n)
        invariant if full then Filled(names, target, end) else Working(v, names, o, count, target, end)
        decreases |names| - n, !full
      {
        n := n + 1;
        if n > offset {
          full := ListEntry(v, names, n - 1, count, target, end);
          o := n;
        }
      }
      if !full {
        PendingDone(v, names, o, Sent(), count, target, end);
      }
    }

    /** No entry follows; is it the end of the directory? */
    method Finish(eof: bool)
      requires Valid() && cwp <= TRANSFER_SIZE - 12
      modifies this, buffer
      ensures Valid() && Sent() == old(Sent()) + Trailer(eof)
      ensures cwp == old(cwp) + 8 && buffer[old(cwp)..cwp] == [0, 0, 0, 0, 0, 0, 0, if eof then 1 else 0]
    {
      TrailerOnTheWire(eof);
      ghost var was := Sent();
      AddUint(0);
      AddUint(if eof then 1 else 0);
      assert Sent() == was + Trailer(eof);
    }

    /** Puts the entries that fit into the reply; says whether it is the last one. */
    method PutEntries(v: Version, names: seq<seq<byte>>, offset: nat, wanted: int) returns (eof: bool)
      requires Valid() && cwp == Base(v)
      modifies this, buffer
      ensures Valid() && cwp <= TRANSFER_SIZE - 12 && cwp % 4 == 0 && eof == Eof(v, names, offset, wanted)
      ensures Sent() == old(Sent()) + EntriesBytes(v, names, offset, Listed(v, names, offset, wanted))
    {
      var count := if wanted > TRANSFER_SIZE then TRANSFER_SIZE else wanted;
      count := count - Reserve(v);
      ghost var k := Listed(v, names, offset, wanted);
      ghost var entries := EntriesBytes(v, names, offset, k);
      EntriesAligned(v, names, offset, k);
      CostAligned(v, []);
      SumAligned(cwp, |entries|);
      ghost var target, end, length := Sent() + entries, offset + k, cwp + |entries|;
      var full := ListEntries(v, names, offset, count, target, end);
      if full {
        count := 0;
      }
      assert cwp == |target| == length;
      eof := count != 0;
    }

    /** Answers a client that has the first offset entries of a directory: what was
        written before, the entries that fit, and whether the end was reached. */
    method ReadDir(v: Version, names: seq<seq<byte>>, offset: nat, wanted: int)
      requires Valid() && cwp == Base(v)
      modifies this, buffer
      ensures Valid()
      ensures Sent() == old(Sent()) + EntriesBytes(v, names, offset, Listed(v, names, offset, wanted))
                        + Trailer(Eof(v, names, offset, wanted))
      ensures cwp % 4 == 0 && buffer[cwp - 8..cwp] == [0, 0, 0, 0, 0, 0, 0, if Eof(v, names, offset, wanted) then 1 else 0]
    {
      var eof := PutEntries(v, names, offset, wanted);
      Finish(eof);
    }
  }

  /** The entries that still fit complete the listing up to its end. */
  ghost predicate Pending(v: Version, names: seq<seq<byte>>, o: nat, now: seq<byte>, room: int, target: seq<byte>, end: nat) {
    var k := Fitting(v, names, o, |now|, room);
    now + EntriesBytes(v, names, o, k) == target && o + k == end
  }

  lemma PendingDone(v: Version, names: seq<seq<byte>>, o: nat, now: seq<byte>, room: int, target: seq<byte>, end: nat)
    requires o >= |names| && Pending(v, names, o, now, room, target, end)
    ensures now == target && end >= |names|
  {
  }

  lemma PendingNext(v: Version, names: seq<seq<byte>>, o: nat, now: seq<byte>, room: int, target: seq<byte>, end: nat)
    requires o < |names| && Pending(v, names, o, now, room, target, end)
    ensures |now| + Cost(v, names[o]) > room ==> now == target && end == o
    ensures |now| + Cost(v, names[o]) <= room ==>
              Pending(v, names, o + 1, now + EntryBytes(v, o + 1, names[o]), room, target, end)
  {
    if |now| + Cost(v, names[o]) <= room {
      var k := Fitting(v, names, o, |now|, room);
      Assoc(now, EntryBytes(v, o + 1, names[o]), EntriesBytes(v, names, o + 1, k - 1));
    }
  }

  // ---------- the client, reply by reply ----------

  /** Every entry fits into a reply on its own. */
  predicate EachFits(v: Version, names: seq<seq<byte>>, n: nat, count: int) {
    forall i :: 0 <= i < n && i < |names| ==> Base(v) + Cost(v, names[i]) <= Room(v, count)
  }

  /** The cookie that a client sends with request number i. */
  function Cookie(v: Version, names: seq<seq<byte>>, count: int, i: nat): nat {
    if i == 0 then 0
    else Cookie(v, names, count, i - 1) + Listed(v, names, Cookie(v, names, count, i - 1), count)
  }

  /** A reply is within the client's count exactly when an empty one is. */
  lemma ReplyWithinCount(v: Version, names: seq<seq<byte>>, offset: nat, count: int)
    ensures Base(v) + |EntriesBytes(v, names, offset, Listed(v, names, offset, count))| + 8 <= count <==> Base(v) + 8 <= count
  {
    FittingBounds(v, names, offset, Base(v), Room(v, count));
  }

  lemma {:induction false} CookieBounds(v: Version, names: seq<seq<byte>>, count: int, i: nat)
    ensures Cookie(v, names, count, i) <= |names|
    ensures EachFits(v, names, Cookie(v, names, count, i), count)
  {
    if i > 0 {
      var o := Cookie(v, names, count, i - 1);
      CookieBounds(v, names, count, i - 1);
      FittingBounds(v, names, o, Base(v), Room(v, count));
      ListedFit(v, names, o, Base(v), Room(v, count), Listed(v, names, o, count));
    }
  }

  /** What is listed behind cwp bytes would fit on its own. */
  lemma {:induction false} ListedFit(v: Version, names: seq<seq<byte>>, o: nat, cwp: nat, room: int, k: nat)
    requires k == Fitting(v, names, o, cwp, room) && Base(v) <= cwp
    ensures forall i :: o <= i < o + k && i < |names| ==> Base(v) + Cost(v, names[i]) <= room
    decreases k
  {
    if k > 0 {
      ListedFit(v, names, o + 1, cwp + Cost(v, names[o]), room, k - 1);
    }
  }

  lemma {:induction false} CookieProgress(v: Version, names: seq<seq<byte>>, count: int, i: nat)
    requires EachFits(v, names, |names|, count)
    ensures i <= |names| ==> i <= Cookie(v, names, count, i)
  {
    if 0 < i <= |names| {
      CookieProgress(v, names, count, i - 1);
      CookieBounds(v, names, count, i - 1);
      var o := Cookie(v, names, count, i - 1);
      if o < |names| {
        assert Base(v) + Cost(v, names[o]) <= Room(v, count);
      }
    }
  }

  /** Asking again with the last cookie comes to a reply that says it is the last one
      exactly when every entry fits into a reply and the count is not just what is
      kept back. */
  lemma EndsIffEachFits(v: Version, names: seq<seq<byte>>, count: int)
    ensures (exists i: nat :: Eof(v, names, Cookie(v, names, count, i), count))
            <==> EachFits(v, names, |names|, count) && Room(v, count) != 0
  {
    if EachFits(v, names, |names|, count) && Room(v, count) != 0 {
      CookieProgress(v, names, count, |names|);
      assert Eof(v, names, Cookie(v, names, count, |names|), count);
    }
    if i: nat :| Eof(v, names, Cookie(v, names, count, i), count) {
      CookieBounds(v, names, count, i + 1);
    }
  }

  /** A name of twenty characters and a count of 70 bytes: no reply ever says that it is
      the last one. */
  lemma EntryNeverFits(i: nat)
    ensures var names := [Repeat(20, 65)]; !Eof(V2, names, Cookie(V2, names, 70, i), 70)
  {
    var names := [Repeat(20, 65)];
    assert Base(V2) + Cost(V2, names[0]) > Room(V2, 70);
    EndsIffEachFits(V2, names, 70);
  }

  /** An empty directory and a count of exactly what is kept back. */
  lemma NoRoomNeverEnds(i: nat)
    ensures !Eof(V2, [], Cookie(V2, [], 12, i), 12)
  {
    assert Room(V2, 12) == 0;
    EndsIffEachFits(V2, [], 12);
  }

  /** A client that lists a whole directory. */
  method ListDirectory(v: Version, head: seq<byte>, names: seq<seq<byte>>, count: int) returns (all: seq<DirEntry>)
    requires |head| == Base(v) && Listable(names)
    requires EachFits(v, names, |names|, count) && Room(v, count) != 0 && Base(v) + 8 <= count
    ensures all == Slice(names, 0, |names|)
  {
    all := [];
    var offset := 0;
    while true
      invariant offset <= |names| && all + Slice(names, offset, |names| - offset) == Slice(names, 0, |names|)
      decreases |names| - offset
    {
      var entries, eof := AskOnce(v, head, names, offset, count);
      SliceSplit(names, offset, |entries|, |names| - offset);
      Assoc(all, entries, Slice(names, offset + |entries|, |names| - offset - |entries|));
      all := all + entries;
      offset := offset + |entries|;
      if eof {
        return;
      }
    }
  }

  /** A reply of the server, which is no longer than asked for. */
  method Ask(v: Version, head: seq<byte>, names: seq<seq<byte>>, offset: nat, count: int) returns (reply: seq<byte>)
    requires |head| == Base(v) && Base(v) + 8 <= count
    ensures |reply| <= count && head <= reply
    ensures reply[|head|..] == EntriesBytes(v, names, offset, Listed(v, names, offset, count)) + Trailer(Eof(v, names, offset, count))
  {
    var response := new Response();
    response.AddHead(head);
    response.ReadDir(v, names, offset, count);
    reply := response.buffer[..response.cwp];
    ReplyWithinCount(v, names, offset, count);
    Assoc(head, EntriesBytes(v, names, offset, Listed(v, names, offset, count)), Trailer(Eof(v, names, offset, count)));
  }

  /** One request, and what the client reads from its reply. */
  method AskOnce(v: Version, head: seq<byte>, names: seq<seq<byte>>, offset: nat, count: int)
    returns (entries: seq<DirEntry>, eof: bool)
    requires |head| == Base(v) && Listable(names) && offset <= |names|
    requires EachFits(v, names, |names|, count) && Room(v, count) != 0 && Base(v) + 8 <= count
    ensures entries == Slice(names, offset, |entries|) && offset + |entries| <= |names|
    ensures eof <==> offset + |entries| == |names|
    ensures !eof ==> entries != []
  {
    var reply := Ask(v, head, names, offset, count);
    var listing := Parse(v, reply[|head|..]);
    ghost var k := Listed(v, names, offset, count);
    ParseEntries(v, names, offset, k, Eof(v, names, offset, count));
    FittingBounds(v, names, offset, Base(v), Room(v, count));
    SliceLength(names, offset, k);
    entries, eof := listing.entries, listing.eof;
  }

  lemma {:induction false} SliceLength(names: seq<seq<byte>>, offset: nat, k: nat)
    requires offset + k <= |names|
    ensures |Slice(names, offset, k)| == k
    ensures forall i {:trigger Slice(names, offset, k)[i]} :: 0 <= i < k ==>
              Slice(names, offset, k)[i] == DirEntry(offset + i + 1, names[offset + i], offset + i + 1)
    decreases k
  {
    if k > 0 {
      SliceLength(names, offset + 1, k - 1);
    }
  }

  lemma {:induction false} SliceSplit(names: seq<seq<byte>>, offset: nat, j: nat, k: nat)
    requires j <= k && offset + k <= |names|
    ensures Slice(names, offset, k) == Slice(names, offset, j) + Slice(names, offset + j, k - j)
    decreases j
  {
    if j > 0 {
      SliceSplit(names, offset + 1, j - 1, k - 1);
    }
  }
}
