/** Sorting variable-length relocation records by way of an index, and why the order of
    the records does not change what they mean. */
module RelocOrder {
  import opened Bytes
  import opened Loader

  // ---------- lists with the same elements ----------

  lemma SplitMultiset<T>(s: seq<T>, i: nat)
    requires i < |s|
    ensures multiset(s) == multiset{s[i]} + multiset(s[..i] + s[i + 1..])
  {
    assert s == s[..i] + [s[i]] + s[i + 1..];
  }

  function Map<T, U>(f: T -> U, s: seq<T>): (r: seq<U>)
    ensures |r| == |s| && forall i :: 0 <= i < |s| ==> r[i] == f(s[i])
  {
    if s == [] then [] else [f(s[0])] + Map(f, s[1..])
  }

  lemma {:induction false} MapAppend<T, U>(f: T -> U, a: seq<T>, b: seq<T>)
    ensures Map(f, a + b) == Map(f, a) + Map(f, b)
  {
    if a == [] {
      assert a + b == b;
    } else {
      assert (a + b)[1..] == a[1..] + b;
      MapAppend(f, a[1..], b);
    }
  }

  /** Where the first element of one list stands in a permutation of it. */
  lemma FindFirst<T>(a: seq<T>, b: seq<T>) returns (i: nat)
    requires a != [] && multiset(a) == multiset(b)
    ensures i < |b| && b[i] == a[0] && multiset(a[1..]) == multiset(b[..i] + b[i + 1..])
  {
    assert a[0] in multiset(b);
    i :| 0 <= i < |b| && b[i] == a[0];
    SplitMultiset(b, i);
    SplitMultiset(a, 0);
    assert a[..0] + a[1..] == a[1..];
    assert multiset(a[1..]) == multiset(a) - multiset{a[0]};
    assert multiset(b[..i] + b[i + 1..]) == multiset(b) - multiset{a[0]};
  }

  lemma {:induction false} MapPermutes<T, U>(f: T -> U, a: seq<T>, b: seq<T>)
    requires multiset(a) == multiset(b)
    ensures multiset(Map(f, a)) == multiset(Map(f, b))
    decreases |a|
  {
    if a == [] {
      assert b == [];
    } else {
      var i := FindFirst(a, b);
      var rest := b[..i] + b[i + 1..];
      MapPermutes(f, a[1..], rest);
      assert b == b[..i] + [b[i]] + b[i + 1..];
      MapSplit(f, b[..i], b[i], b[i + 1..]);
      assert Map(f, a) == [f(a[0])] + Map(f, a[1..]);
    }
  }

  lemma MapSplit<T, U>(f: T -> U, pre: seq<T>, x: T, post: seq<T>)
    ensures multiset(Map(f, pre + [x] + post)) == multiset{f(x)} + multiset(Map(f, pre + post))
  {
    MapAppend(f, pre, post);
    MapAppend(f, pre + [x], post);
    MapAppend(f, pre, [x]);
    assert Map(f, [x]) == [f(x)];
  }

  /** Two different places of a list have two different places in a permutation of it. */
  lemma PairPlaces<T>(s: seq<T>, t: seq<T>, i: nat, j: nat) returns (p: nat, q: nat)
    requires multiset(s) == multiset(t) && i < |t| && j < |t| && i != j
    ensures p < |s| && q < |s| && p != q && s[p] == t[i] && s[q] == t[j]
  {
    assert t[i] in multiset(s);
    p :| 0 <= p < |s| && s[p] == t[i];
    OthersPermute(s, t, p, i);
    var u, v := s[..p] + s[p + 1..], t[..i] + t[i + 1..];
    assert v[if j < i then j else j - 1] == t[j];
    assert t[j] in multiset(u);
    var k :| 0 <= k < |u| && u[k] == t[j];
    q := if k < p then k else k + 1;
  }

  lemma OthersPermute<T>(s: seq<T>, t: seq<T>, p: nat, i: nat)
    requires multiset(s) == multiset(t) && p < |s| && i < |t| && s[p] == t[i]
    ensures multiset(s[..p] + s[p + 1..]) == multiset(t[..i] + t[i + 1..])
  {
    SplitMultiset(s, p);
    SplitMultiset(t, i);
    assert multiset(s[..p] + s[p + 1..]) == multiset(s) - multiset{t[i]};
    assert multiset(t[..i] + t[i + 1..]) == multiset(t) - multiset{t[i]};
  }

  // ---------- order and meaning ----------

  /** Words changed in the same segment share no byte. */
  ghost predicate Apart(r: Reloc, s: Reloc) {
    Target(r) == Target(s) && Target(r) in {TEXT, DATA} ==> r.offset + 4 <= s.offset || s.offset + 4 <= r.offset
  }

  ghost predicate AllApart(rs: seq<Reloc>) {
    forall i, j :: 0 <= i < j < |rs| ==> Apart(rs[i], rs[j])
  }

  lemma ApartPermutes(rs: seq<Reloc>, ss: seq<Reloc>)
    requires AllApart(rs) && multiset(rs) == multiset(ss)
    ensures AllApart(ss)
  {
    forall i, j | 0 <= i < j < |ss| ensures Apart(ss[i], ss[j]) {
      var p, q := PairPlaces(rs, ss, i, j);
      assert Apart(rs[if p < q then p else q], rs[if p < q then q else p]);
    }
  }

  lemma WithoutSeparate(rs: seq<Reloc>, i: nat)
    requires AllSeparate(rs) && i < |rs|
    ensures AllSeparate(rs[..i] + rs[i + 1..]) && forall j :: 0 <= j < i ==> Separate(rs[i], rs[j])
  {
    var t := rs[..i] + rs[i + 1..];
    forall j, k | 0 <= j < k < |t| ensures Separate(t[j], t[k]) {
      var p, q := if j < i then j else j + 1, if k < i then k else k + 1;
      assert t[j] == rs[p] && t[k] == rs[q];
    }
    forall j | 0 <= j < i ensures Separate(rs[i], rs[j]) {
      assert Separate(rs[j], rs[i]);
    }
  }

  /** A record can be applied first. */
  lemma ApplyFirst(seg: nat, rs: seq<Reloc>, i: nat, b: Bases, x: Symbols, m: seq<byte>)
    requires i < |rs| && forall j :: 0 <= j < i ==> Separate(rs[i], rs[j])
    ensures Relocate(seg, rs, b, x, m) == Relocate(seg, rs[..i] + rs[i + 1..], b, x, Apply(seg, rs[i], b, x, m))
  {
    var front, back := rs[..i], rs[i + 1..];
    assert rs == front + ([rs[i]] + back);
    RelocateAppend(seg, front, [rs[i]] + back, b, x, m);
    assert ([rs[i]] + back)[1..] == back;
    ApplyPastRelocate(seg, rs[i], b, x, front, b, x, m);
    RelocateAppend(seg, front, back, b, x, Apply(seg, rs[i], b, x, m));
  }

  /** Records whose words are equal or disjoint mean the same in any order. */
  lemma {:induction false} RelocatePermutes(seg: nat, rs: seq<Reloc>, ss: seq<Reloc>, b: Bases, x: Symbols, m: seq<byte>)
    requires multiset(rs) == multiset(ss) && AllSeparate(ss)
    ensures Relocate(seg, rs, b, x, m) == Relocate(seg, ss, b, x, m)
    decreases |rs|
  {
    if rs == [] {
      assert ss == [];
    } else {
      var i := FindFirst(rs, ss);
      WithoutSeparate(ss, i);
      ApplyFirst(seg, ss, i, b, x, m);
      RelocatePermutes(seg, rs[1..], ss[..i] + ss[i + 1..], b, x, Apply(seg, rs[0], b, x, m));
    }
  }

  // ---------- the stored records ----------

  /** Where record i starts. */
  function Start(rs: seq<Reloc>, i: nat): nat
    requires i <= |rs|
  {
    |EncodeAll(rs[..i])|
  }

  lemma RecordAtStart(rs: seq<Reloc>, i: nat)
    requires i < |rs|
    ensures At(EncodeAll(rs), Start(rs, i), Encode(rs[i]))
    ensures Start(rs, i + 1) == Start(rs, i) + |Encode(rs[i])|
  {
    var front, e := EncodeAll(rs[..i]), Encode(rs[i]);
    assert rs == rs[..i] + ([rs[i]] + rs[i + 1..]);
    EncodeAllAppend(rs[..i], [rs[i]] + rs[i + 1..]);
    assert ([rs[i]] + rs[i + 1..])[1..] == rs[i + 1..];
    AtBehind(front, e + EncodeAll(rs[i + 1..]), 0, e);
    assert rs[..i + 1] == rs[..i] + [rs[i]];
    EncodeAllAppend(rs[..i], [rs[i]]);
    assert [rs[i]][1..] == [];
    assert e + [] == e;
  }

  /** The record that is stored at a place, and its bytes. */
  function RecordAt(records: seq<byte>, p: nat): Reloc {
    if p + 8 <= |records| then DecodeFirst(records[p..]).0 else Reloc(0, 0, [])
  }

  /** The bytes of a whole record, taken by its own length field. */
  ghost predicate Whole(records: seq<byte>, p: nat) {
    && p + 8 <= |records|
    && var n := FromBe16(records[p + 6..p + 8]);
       p + 8 + n <= |records| && records[p..p + 8] + records[p + 8..p + 8 + n] == Encode(RecordAt(records, p))
  }

  lemma EncodeParts(r: Reloc)
    requires Storable(r)
    ensures FromBe(Encode(r)[..4]) == r.offset && FromBe16(Encode(r)[6..8]) == |r.name|
  {
    assert Encode(r)[..4] == ToBe(r.offset) && Encode(r)[6..8] == ToBe16(|r.name|);
  }

  lemma SameParts(e: seq<byte>, p: nat, b: seq<byte>)
    requires |b| >= 8 && p + |b| <= |e| && e[p..p + |b|] == b
    ensures e[p..p + 4] == b[..4] && e[p + 6..p + 8] == b[6..8] && e[p..] == b + e[p + |b|..]
    ensures e[p..p + 8] + e[p + 8..p + |b|] == b
  {
    AtInside(e, p, b, 6, b[6..8]);
  }

  /** Where a record's bytes stand, the record is found. */
  lemma StoredIn(e: seq<byte>, p: nat, r: Reloc)
    requires Storable(r) && At(e, p, Encode(r))
    ensures Whole(e, p) && RecordAt(e, p) == r && FromBe16(e[p + 6..p + 8]) == |r.name|
  {
    var b := Encode(r);
    SameParts(e, p, b);
    EncodeParts(r);
    DecodeFirstOfEncode(r, e[p + |b|..]);
  }

  lemma StoredRecord(rs: seq<Reloc>, i: nat)
    requires i < |rs| && Storable(rs[i])
    ensures var p, e := Start(rs, i), EncodeAll(rs);
            Whole(e, p) && RecordAt(e, p) == rs[i] && FromBe16(e[p + 6..p + 8]) == |rs[i].name|
  {
    RecordAtStart(rs, i);
    StoredIn(EncodeAll(rs), Start(rs, i), rs[i]);
  }

  /** The start of every record, in order. */
  function Starts(rs: seq<Reloc>, n: nat): (s: seq<nat>)
    requires n <= |rs|
    ensures |s| == n && forall i :: 0 <= i < n ==> s[i] == Start(rs, i)
  {
    if n == 0 then [] else Starts(rs, n - 1) + [Start(rs, n - 1)]
  }

  /** Builds the index of the records. */
  method BuildIndex(records: seq<byte>, count: nat, ghost rs: seq<Reloc>) returns (index: seq<nat>)
    requires records == EncodeAll(rs) && count == |rs| && AllStorable(rs)
    ensures index == Starts(rs, |rs|)
  {
    index := [];
    var ptr := 0;
    assert rs[..0] == [];
    for i := 0 to count
      invariant ptr == Start(rs, i) && index == Starts(rs, i)
    {
      StoredRecord(rs, i);
      RecordAtStart(rs, i);
      index := index + [ptr];
      ptr := ptr + 8 + FromBe16(records[ptr + 6..ptr + 8]);
    }
  }

  /** Ascending by the key of each element. */
  ghost predicate Ascending<T>(key: T -> nat, s: seq<T>) {
    forall i, j :: 0 <= i < j < |s| ==> key(s[i]) <= key(s[j])
  }

  /** Sorts by keys; nothing is promised about the order of elements with equal keys. */
  method Qsort<T(==)>(s: seq<T>, key: T -> nat) returns (sorted: seq<T>)
    ensures multiset(sorted) == multiset(s) && Ascending(key, sorted)
  {
    sorted := [];
    for i := 0 to |s|
      invariant multiset(sorted) == multiset(s[..i]) && Ascending(key, sorted)
    {
      sorted := Insert(sorted, key, s[i]);
      assert s[..i + 1] == s[..i] + [s[i]];
    }
    assert s[..|s|] == s;
  }

  method Insert<T(==)>(sorted: seq<T>, key: T -> nat, x: T) returns (more: seq<T>)
    requires Ascending(key, sorted)
    ensures multiset(more) == multiset(sorted) + multiset{x} && Ascending(key, more)
  {
    var j := 0;
    while j < |sorted| && key(sorted[j]) <= key(x)
      invariant j <= |sorted| && forall k :: 0 <= k < j ==> key(sorted[k]) <= key(x)
    {
      j := j + 1;
    }
    assert sorted == sorted[..j] + sorted[j..];
    InsertAscends(key, sorted[..j], x, sorted[j..]);
    more := sorted[..j] + [x] + sorted[j..];
  }

  lemma InsertAscends<T>(key: T -> nat, pre: seq<T>, x: T, post: seq<T>)
    requires Ascending(key, pre + post)
    requires forall k :: 0 <= k < |pre| ==> key(pre[k]) <= key(x)
    requires post != [] ==> key(x) <= key(post[0])
    ensures Ascending(key, pre + [x] + post)
  {
    var all, more, n := pre + post, pre + [x] + post, |pre|;
    forall a, c | 0 <= a < c < |more| ensures key(more[a]) <= key(more[c]) {
      if a == n {
        assert all[n] == post[0] && all[c - 1] == post[c - 1 - n] == more[c];
      } else if c == n {
        assert more[a] == pre[a];
      } else {
        assert more[a] == all[if a < n then a else a - 1] && more[c] == all[if c < n then c else c - 1];
      }
    }
  }

  /** Finds the record that is stored at a place. */
  function Stored(records: seq<byte>): nat -> Reloc { (p: nat) => RecordAt(records, p) }

  function OffsetKey(records: seq<byte>): nat -> nat { (p: nat) => RecordAt(records, p).offset }

  lemma ListedAll(rs: seq<Reloc>)
    requires AllStorable(rs)
    ensures Map(Stored(EncodeAll(rs)), Starts(rs, |rs|)) == rs
  {
    forall i | 0 <= i < |rs| ensures Stored(EncodeAll(rs))(Starts(rs, |rs|)[i]) == rs[i] {
      StoredRecord(rs, i);
    }
  }

  /** Rewrites the records in ascending order of their offsets: the same records, whole,
      in an order that a loader finds ascending. */
  method SortRecords(records: seq<byte>, count: nat, ghost rs: seq<Reloc>) returns (out: seq<byte>)
    requires records == EncodeAll(rs) && count == |rs| && AllStorable(rs)
    ensures var ss := DecodeAll(out);
            && out == EncodeAll(ss) && multiset(ss) == multiset(rs)
            && forall i, j :: 0 <= i < j < |ss| ==> ss[i].offset <= ss[j].offset
  {
    var built := BuildIndex(records, count, rs);
    var index := Qsort(built, OffsetKey(records));
    IndexSorts(rs, built, index);
    ghost var ss := Map(Stored(records), index);
    out := WriteRecords(records, index);
    DecodeAllOfEncodeAll(ss);
  }

  lemma RecordAppended(out: seq<byte>, records: seq<byte>, p: nat, n: nat)
    requires Whole(records, p) && n == FromBe16(records[p + 6..p + 8])
    ensures p + 8 + n <= |records|
    ensures out + records[p..p + 8] + records[p + 8..p + 8 + n] == out + Encode(RecordAt(records, p))
  {
    Assoc(out, records[p..p + 8], records[p + 8..p + 8 + n]);
  }

  /** Writes the records at some places. */
  method WriteRecords(records: seq<byte>, index: seq<nat>) returns (out: seq<byte>)
    requires forall i :: 0 <= i < |index| ==> Whole(records, index[i])
    ensures out == EncodeAll(Map(Stored(records), index))
  {
    out := [];
    ghost var f := Stored(records);
    for i := 0 to |index|
      invariant out == EncodeAll(Map(f, index[..i]))
    {
      var p := index[i];
      var n := FromBe16(records[p + 6..p + 8]);
      EncodeNext(f, index, i);
      RecordAppended(out, records, p, n);
      out := out + records[p..p + 8];
      if n != 0 {
        out := out + records[p + 8..p + 8 + n];
      } else {
        assert out + [] == out;
      }
    }
    assert index[..|index|] == index;
  }

  lemma EncodeNext<T>(f: T -> Reloc, xs: seq<T>, i: nat)
    requires i < |xs|
    ensures EncodeAll(Map(f, xs[..i + 1])) == EncodeAll(Map(f, xs[..i])) + Encode(f(xs[i]))
  {
    assert xs[..i + 1] == xs[..i] + [xs[i]];
    MapAppend(f, xs[..i], [xs[i]]);
    var one := Map(f, [xs[i]]);
    assert one == [f(xs[i])] && one[1..] == [];
    EncodeAllAppend(Map(f, xs[..i]), one);
    assert Encode(f(xs[i])) + [] == Encode(f(xs[i]));
  }

  /** A sorted index lists the same records, all of them whole, in ascending order. */
  lemma IndexSorts(rs: seq<Reloc>, built: seq<nat>, index: seq<nat>)
    requires AllStorable(rs) && built == Starts(rs, |rs|)
    requires multiset(index) == multiset(built) && Ascending(OffsetKey(EncodeAll(rs)), index)
    ensures var ss := Map(Stored(EncodeAll(rs)), index);
            && multiset(ss) == multiset(rs) && AllStorable(ss)
            && (forall i, j :: 0 <= i < j < |ss| ==> ss[i].offset <= ss[j].offset)
            && forall i :: 0 <= i < |index| ==> Whole(EncodeAll(rs), index[i])
  {
    var e := EncodeAll(rs);
    var ss := Map(Stored(e), index);
    MapPermutes(Stored(e), index, built);
    ListedAll(rs);
    PermutedStorable(rs, ss);
    forall i | 0 <= i < |index| ensures Whole(e, index[i]) {
      PlaceOfRecord(rs, built, index, i);
    }
    forall i, j | 0 <= i < j < |ss| ensures ss[i].offset <= ss[j].offset {
      assert OffsetKey(e)(index[i]) <= OffsetKey(e)(index[j]);
    }
  }

  lemma PermutedStorable(rs: seq<Reloc>, ss: seq<Reloc>)
    requires multiset(ss) == multiset(rs) && AllStorable(rs)
    ensures AllStorable(ss)
  {
    forall i | 0 <= i < |ss| ensures Storable(ss[i]) {
      assert ss[i] in multiset(rs);
    }
  }

  /** Any place in a permuted index holds a whole record. */
  lemma PlaceOfRecord(rs: seq<Reloc>, built: seq<nat>, index: seq<nat>, i: nat)
    requires AllStorable(rs) && built == Starts(rs, |rs|) && multiset(index) == multiset(built) && i < |index|
    ensures Whole(EncodeAll(rs), index[i])
  {
    assert index[i] in multiset(built);
    var k :| 0 <= k < |built| && built[k] == index[i];
    StoredRecord(rs, k);
  }
}
