/** Printing the end of a stream of unknown length, out of a circular buffer. */
module Tail {
  import opened Bytes

  const LBIN := 32769
  const NL: byte := 10

  // ---------- what is printed ----------

  /** The newlines among positions a to b - 1. */
  function NewlinesIn(s: seq<byte>, a: nat, b: nat): nat
    requires b <= |s|
  {
    if b <= a then 0 else NewlinesIn(s, a, b - 1) + if s[b - 1] == NL then 1 else 0
  }

  function Newlines(s: seq<byte>): nat { NewlinesIn(s, 0, |s|) }

  lemma {:induction false} NewlinesShift(s: seq<byte>, t: seq<byte>, d: nat, a: nat, b: nat)
    requires |t| + d == |s| && t == s[d..] && b <= |t|
    ensures NewlinesIn(t, a, b) == NewlinesIn(s, d + a, d + b)
  {
    if b > a {
      NewlinesShift(s, t, d, a, b - 1);
      assert t[b - 1] == s[d + (b - 1)];
    }
  }

  /** Where the m-th newline from position q backwards is, not before lo; lo - 1 when
      there are fewer. */
  function Nth(w: seq<byte>, lo: nat, q: nat, m: nat): (p: int)
    requires q <= |w|
    ensures lo - 1 <= p && (lo < q ==> p < q)
  {
    if q <= lo then lo - 1
    else if w[q - 1] != NL then Nth(w, lo, q - 1, m)
    else if m <= 1 then q - 1
    else Nth(w, lo, q - 1, m - 1)
  }

  /** The first newline from position q on; the length when there is none. */
  function First(w: seq<byte>, q: nat): (p: nat)
    requires q <= |w|
    ensures q <= p <= |w|
    decreases |w| - q
  {
    if q == |w| || w[q] == NL then q else First(w, q + 1)
  }

  /** It is the first one: none stands before it. */
  lemma {:induction false} FirstFinds(w: seq<byte>, q: nat)
    requires q <= |w|
    ensures First(w, q) < |w| ==> w[First(w, q)] == 10
    ensures 10 !in w[q..First(w, q)]
    decreases |w| - q
  {
    if q < |w| && w[q] != NL {
      FirstFinds(w, q + 1);
      assert w[q..First(w, q)] == [w[q]] + w[q + 1..First(w, q)];
    }
  }

  lemma {:induction false} NewlinesCount(s: seq<byte>)
    ensures Newlines(s) == multiset(s)[10]
  {
    if s != [] {
      var front := s[..|s| - 1];
      assert s == front + [s[|s| - 1]];
      NewlinesCount(front);
      NewlinesFront(s, front, |front|);
    }
  }

  lemma {:induction false} NewlinesFront(s: seq<byte>, front: seq<byte>, b: nat)
    requires front <= s && b <= |front|
    ensures NewlinesIn(s, 0, b) == NewlinesIn(front, 0, b)
  {
    if b > 0 {
      NewlinesFront(s, front, b - 1);
    }
  }

  /** The last k bytes of a stream. */
  function Last(s: seq<byte>, k: nat): seq<byte> {
    if k <= |s| then s[|s| - k..] else s
  }

  /** The bytes that the buffer can still hold at the end of a stream. */
  function Window(s: seq<byte>): seq<byte> { Last(s, LBIN) }

  /** What remains of a window from a newline on, or from its oldest byte. */
  function After(w: seq<byte>, p: int): seq<byte> {
    if 0 <= p < |w| then w[p + 1..] else w
  }

  /** The last n lines of a stream. A full window's oldest byte is not looked at; when
      the rest of the window has too few newlines, it is cut behind its first one. */
  function LastLines(s: seq<byte>, n: nat): seq<byte> {
    if |s| < LBIN then After(s, Nth(s, 0, |s|, n + 1))
    else
      var w := Window(s);
      var p := Nth(w, 1, LBIN, n + 1);
      if p > 0 then After(w, p)
      else if First(w, 1) < LBIN then After(w, First(w, 1))
      else w[1..]
  }

  /** The position found is that of a newline with exactly m - 1 newlines behind it;
      none is found exactly when there are fewer than m. */
  lemma {:induction false} NthCounts(w: seq<byte>, lo: nat, q: nat, m: nat)
    requires lo <= q <= |w| && m > 0
    ensures var p := Nth(w, lo, q, m);
            if p >= lo then w[p] == NL && NewlinesIn(w, p + 1, q) == m - 1
            else p == lo - 1 && NewlinesIn(w, lo, q) < m
  {
    if q > lo {
      var k := if w[q - 1] == NL then m - 1 else m;
      if k > 0 {
        NthCounts(w, lo, q - 1, k);
      }
    }
  }

  /** What stands behind the newline that was found. */
  lemma AfterCount(w: seq<byte>, lo: nat, n: nat)
    requires lo <= |w| && Newlines(w[lo..]) > n
    ensures var p := Nth(w, lo, |w|, n + 1);
            lo <= p < |w| && w[p] == NL && Newlines(After(w, p)) == n
  {
    NthCounts(w, lo, |w|, n + 1);
    NewlinesShift(w, w[lo..], lo, 0, |w| - lo);
    var p := Nth(w, lo, |w|, n + 1);
    NewlinesShift(w, w[p + 1..], p + 1, 0, |w| - p - 1);
  }

  lemma AfterSuffix(s: seq<byte>, w: seq<byte>, p: nat)
    requires |w| <= |s| && w == Last(s, |w|) && p < |w|
    ensures var out := After(w, p); |out| < |s| && out == Last(s, |out|) && s[|s| - |out| - 1] == w[p]
  {
  }

  /** The part of a stream in which lines are looked for: its last 32768 bytes. */
  function LookedAt(s: seq<byte>): seq<byte> {
    if |s| <= 32768 then s else s[|s| - 32768..]
  }

  /** This is the end of the stream, and it is what follows a newline. */
  ghost predicate FollowsNewline(s: seq<byte>, out: seq<byte>) {
    |out| < |s| && out == s[|s| - |out|..] && s[|s| - |out| - 1] == 10
  }

  /** When the end of the stream that is looked at has more than n newlines, what is
      printed has exactly n, and is what follows a newline. */
  lemma LastLinesCount(s: seq<byte>, n: nat)
    requires multiset(LookedAt(s))[10] > n
    ensures multiset(LastLines(s, n))[10] == n && FollowsNewline(s, LastLines(s, n))
  {
    NewlinesCount(LookedAt(s));
    NewlinesCount(LastLines(s, n));
    if |s| < LBIN {
      assert s[0..] == s && Last(s, |s|) == s;
      AfterCount(s, 0, n);
      AfterSuffix(s, s, Nth(s, 0, |s|, n + 1));
    } else {
      var w := Window(s);
      assert w[1..] == LookedAt(s);
      AfterCount(w, 1, n);
      AfterSuffix(s, w, Nth(w, 1, LBIN, n + 1));
    }
  }

  /** When it has no more than n, a short stream is printed as a whole. A long one is cut
      behind the first newline of what is looked at, if there is one. */
  lemma LastLinesFew(s: seq<byte>, n: nat)
    requires multiset(LookedAt(s))[10] <= n
    ensures var w, out := LookedAt(s), LastLines(s, n);
            if |s| <= 32768 || 10 !in w then out == w
            else FollowsNewline(w, out) && 10 !in w[..|w| - |out| - 1]
  {
    NewlinesCount(LookedAt(s));
    if |s| < LBIN {
      NthCounts(s, 0, |s|, n + 1);
      NoneLeft(s, 0, n);
    } else {
      var w, v := Window(s), LookedAt(s);
      assert w[1..] == v;
      NoneLeft(w, 1, n);
      FirstFinds(w, 1);
      var p := First(w, 1);
      assert w[1..p] == v[..p - 1];
      if p < LBIN {
        assert v[p - 1] == 10 && After(w, p) == v[p..];
      } else {
        assert v[..p - 1] == v;
      }
    }
  }

  lemma NoneLeft(w: seq<byte>, lo: nat, n: nat)
    requires lo <= |w| && Newlines(w[lo..]) <= n
    ensures Nth(w, lo, |w|, n + 1) == lo - 1
  {
    NthCounts(w, lo, |w|, n + 1);
    NewlinesShift(w, w[lo..], lo, 0, |w| - lo);
    var p := Nth(w, lo, |w|, n + 1);
    if p >= lo {
      NewlinesSplit(w, lo, p, |w|);
    }
  }

  lemma {:induction false} NewlinesSplit(w: seq<byte>, a: nat, p: nat, b: nat)
    requires a <= p < b <= |w| && w[p] == NL
    ensures NewlinesIn(w, a, b) >= 1 + NewlinesIn(w, p + 1, b)
  {
    if b > p + 1 {
      NewlinesSplit(w, a, p, b - 1);
    }
  }

  // ---------- the buffer ----------

  /** The buffer holds the end of the stream: all of it in front, or a full round that
      ends in front of position i. */
  ghost predicate Ring(bin: seq<byte>, i: nat, partial: bool, s: seq<byte>) {
    && |bin| == LBIN && i < LBIN
    && if partial then |s| < LBIN && i == |s| && bin[..i] == s
       else |s| >= LBIN && bin[i..] + bin[..i] == Window(s)
  }

  /** While a round is being filled: what was read is in front of i, and behind it
      stands what an earlier round left. */
  ghost predicate Filling(bin: seq<byte>, i: nat, partial: bool, s: seq<byte>) {
    && |bin| == LBIN && i <= LBIN && i <= |s|
    && if partial then i == |s| && bin[..i] == s
       else |s| >= LBIN && bin[i..] + bin[..i] == Window(s)
  }

  lemma Filled(bin: seq<byte>, i: nat, partial: bool, s: seq<byte>, chunk: seq<byte>, grown: seq<byte>)
    requires Filling(bin, i, partial, s) && i + |chunk| <= LBIN
    requires grown == bin[..i] + chunk + bin[i + |chunk|..]
    ensures Filling(grown, i + |chunk|, partial, s + chunk)
  {
    var t, j := s + chunk, i + |chunk|;
    if partial {
      assert grown[..j] == t;
    } else {
      assert bin[i..] + bin[..i] == Window(s);
      assert grown[j..] + grown[..j] == (bin[i..] + bin[..i])[|chunk|..] + chunk;
      assert Window(s)[|chunk|..] + chunk == Window(t);
    }
  }

  /** Reads the whole stream, however many bytes each read happens to give. */
  method ReadAll(bin: array<byte>, s: seq<byte>) returns (i: nat, partial: bool)
    requires bin.Length == LBIN
    modifies bin
    ensures Ring(bin[..], i, partial, s)
  {
    partial := true;
    i := 0;
    var pos := 0;
    assert s[..0] == [] && bin[..0] == [];
    while pos < |s|
      invariant pos <= |s| && i < LBIN && Filling(bin[..], i, partial, s[..pos])
    {
      var j: nat :| 0 < j && j <= LBIN - i && j <= |s| - pos;
      Read(bin, i, partial, s, pos, j);
      i := i + j;
      pos := pos + j;
      if i >= LBIN {
        RoundDone(bin[..], partial, s[..pos]);
        partial := false;
        i := 0;
      }
    }
    assert s[..pos] == s;
  }

  /** One byte more of a read. */
  lemma ReadNext(was: seq<byte>, now: seq<byte>, i: nat, k: nat, part: seq<byte>, c: byte)
    requires i + k < |was| && |part| == k && now == was[..i] + part + was[i + k..]
    ensures now[i + k := c] == was[..i] + (part + [c]) + was[i + k + 1..]
  {
  }

  /** One read of j bytes. */
  method Read(bin: array<byte>, i: nat, ghost partial: bool, s: seq<byte>, pos: nat, j: nat)
    requires bin.Length == LBIN && pos + j <= |s| && i + j <= LBIN && Filling(bin[..], i, partial, s[..pos])
    modifies bin
    ensures Filling(bin[..], i + j, partial, s[..pos + j])
  {
    ghost var was := bin[..];
    for k := 0 to j
      invariant bin[..] == was[..i] + s[pos..pos + k] + was[i + k..]
    {
      ReadNext(was, bin[..], i, k, s[pos..pos + k], s[pos + k]);
      assert s[pos..pos + k + 1] == s[pos..pos + k] + [s[pos + k]];
      bin[i + k] := s[pos + k];
    }
    Filled(was, i, partial, s[..pos], s[pos..pos + j], bin[..]);
    assert s[..pos + j] == s[..pos] + s[pos..pos + j];
  }

  /** A full buffer is a round that starts again in front. */
  lemma RoundDone(bin: seq<byte>, partial: bool, s: seq<byte>)
    requires Filling(bin, LBIN, partial, s)
    ensures Filling(bin, 0, false, s)
  {
    assert bin[..LBIN] == bin && bin[LBIN..] == [] && bin[0..] == bin && bin[..0] == [];
    if partial {
      assert Window(s) == s;
    }
  }

  // ---------- going back to a line, and printing ----------

  /** The buffer position of position q of what it holds. Both ends of a full round
      are the same position. */
  function Place(i: nat, partial: bool, q: int): int {
    if partial || i + q < LBIN then (if partial then q else i + q) else i + q - LBIN
  }

  /** What the buffer holds. */
  function Held(bin: seq<byte>, i: nat, partial: bool): seq<byte>
    requires |bin| == LBIN && i < LBIN
  {
    if partial then bin[..i] else bin[i..] + bin[..i]
  }

  /** One position back. */
  lemma PlaceBefore(bin: seq<byte>, i: nat, partial: bool, q: nat)
    requires |bin| == LBIN && i < LBIN && 0 < q <= |Held(bin, i, partial)|
    ensures var k := Place(i, partial, q) - 1;
            && (k < 0 ==> !partial && Place(i, partial, q - 1) == LBIN - 1)
            && (k >= 0 ==> Place(i, partial, q - 1) == k)
    ensures 0 <= Place(i, partial, q - 1) < LBIN && bin[Place(i, partial, q - 1)] == Held(bin, i, partial)[q - 1]
    ensures Place(i, partial, q - 1) == i <==> !partial && q == 1
  {
  }

  /** Steps back to the newline before position q, or to the oldest byte of a full round;
      in a partial buffer it can run out. */
  method ScanBack(bin: array<byte>, i: nat, partial: bool, k0: int, ghost q0: nat)
    returns (k: int, out: bool, ghost q: int)
    requires bin.Length == LBIN && i < LBIN
    requires var w := Held(bin[..], i, partial); q0 <= |w| && (!partial ==> q0 > 0) && k0 == Place(i, partial, q0)
    ensures var w := Held(bin[..], i, partial);
            && -1 <= q < q0 && (out <==> q == -1) && k == Place(i, partial, q) && (out ==> partial)
            && (forall j :: q < j < q0 ==> w[j] != NL)
            && (q >= 0 ==> w[q] == NL || (!partial && q == 0))
  {
    ghost var w := Held(bin[..], i, partial);
    k, q, out := k0, q0, false;
    while true
      invariant 0 <= q <= q0 && (!partial ==> q > 0) && k == Place(i, partial, q)
      invariant forall j :: q <= j < q0 ==> w[j] != NL
      decreases q
    {
      if q > 0 {
        PlaceBefore(bin[..], i, partial, q);
      }
      k := k - 1;
      q := q - 1;
      if k < 0 {
        if partial {
          return k, true, -1;
        }
        k := LBIN - 1;
      }
      assert bin[k] == w[q];
      if bin[k] == NL || k == i {
        return;
      }
    }
  }

  /** The position that a scan back finds is where the count goes on. */
  lemma {:induction false} NthSkips(w: seq<byte>, lo: nat, q0: nat, q: int, m: nat)
    requires lo - 1 <= q < q0 <= |w| && (forall j :: q < j < q0 ==> w[j] != NL)
    ensures q >= lo && w[q] == NL ==> Nth(w, lo, q0, m) == if m <= 1 then q else Nth(w, lo, q, m - 1)
    ensures q == lo - 1 ==> Nth(w, lo, q0, m) == lo - 1
  {
    if q < q0 - 1 {
      NthSkips(w, lo, q0 - 1, q, m);
    }
  }

  /** Goes back over n + 1 newlines, as far as there are so many. */
  method BackLines(bin: array<byte>, i: nat, partial: bool, n: nat) returns (k: int)
    requires bin.Length == LBIN && i < LBIN
    ensures var w := Held(bin[..], i, partial);
            k == Place(i, partial, Nth(w, if partial then 0 else 1, |w|, n + 1))
  {
    ghost var w, lo := Held(bin[..], i, partial), if partial then 0 else 1;
    k := i;
    var j := 0;
    var out;
    ghost var q: int := |w|;
    while true
      invariant j <= n && lo <= q <= |w| && k == Place(i, partial, q)
      invariant Nth(w, lo, |w|, n + 1) == Nth(w, lo, q, n + 1 - j)
      decreases n - j
    {
      ghost var q0 := q;
      k, out, q := ScanBack(bin, i, partial, k, q);
      NthSkips(w, lo, q0, q, n + 1 - j);
      if out || k == i {
        return;
      }
      j := j + 1;
      if j > n {
        return;
      }
    }
  }

  /** Goes on from the oldest byte of a full round to the next newline, or around. */
  method SkipPartLine(bin: array<byte>, i: nat) returns (k: nat)
    requires bin.Length == LBIN && i < LBIN
    ensures k == Place(i, false, First(Held(bin[..], i, false), 1))
  {
    ghost var w, q := Held(bin[..], i, false), 0;
    k := i;
    while true
      invariant 0 <= q < LBIN && k == Place(i, false, q) && First(w, q + 1) == First(w, 1)
      decreases LBIN - q
    {
      k := k + 1;
      q := q + 1;
      if k >= LBIN {
        k := 0;
      }
      if k == i {
        return;
      }
      assert bin[k] == w[q];
      if bin[k] == NL {
        return;
      }
    }
  }

  /** Where a buffer position is in what the buffer holds. */
  function Position(i: nat, partial: bool, k: int): int {
    if partial then k else if k < i then k - i + LBIN else k - i
  }

  lemma Printed(b: seq<byte>, i: nat, partial: bool, k: int)
    requires |b| == LBIN && i < LBIN && -1 <= k < if partial && i > 0 then i else if partial then 0 else LBIN
    ensures After(Held(b, i, partial), Position(i, partial, k)) == if k < i then b[k + 1..i] else b[k + 1..] + b[..i]
  {
    var w := Held(b, i, partial);
    if partial {
      assert k < i && w == b[..i];
    } else if k < i {
      assert w[k - i + LBIN + 1..] == b[k + 1..i];
    } else {
      assert w[k - i + 1..] == b[k + 1..] + b[..i];
    }
  }

  /** Prints what stands behind position k. */
  method Write(bin: array<byte>, i: nat, ghost partial: bool, k: int) returns (out: seq<byte>)
    requires bin.Length == LBIN && i < LBIN && -1 <= k < if partial && i > 0 then i else if partial then 0 else LBIN
    ensures out == After(Held(bin[..], i, partial), Position(i, partial, k))
  {
    Printed(bin[..], i, partial, k);
    if k < i {
      out := bin[k + 1..i];
    } else {
      out := bin[k + 1..] + bin[..i];
    }
  }

  /** The last n lines of a stream. */
  method TailLines(s: seq<byte>, n: nat) returns (out: seq<byte>)
    ensures out == if n == 0 then [] else LastLines(s, n)
  {
    if n <= 0 {
      return [];
    }
    var bin := new byte[LBIN];
    var i, partial := ReadAll(bin, s);
    ghost var w := Held(bin[..], i, partial);
    var k := BackLines(bin, i, partial, n);
    if k == i {
      k := SkipPartLine(bin, i);
    }
    CutThere(s, w, i, partial, n, k);
    out := Write(bin, i, partial, k);
  }

  /** Where the scans have come to is where the last lines start. */
  lemma CutThere(s: seq<byte>, w: seq<byte>, i: nat, partial: bool, n: nat, k: int)
    requires i < LBIN && (if partial then |s| < LBIN && i == |s| && w == s else |s| >= LBIN && w == Window(s))
    requires var p := Nth(w, if partial then 0 else 1, |w|, n + 1);
             k == Place(i, partial, if !partial && p == 0 then First(w, 1) else p)
    ensures After(w, Position(i, partial, k)) == LastLines(s, n)
  {
  }

  /** The last n bytes of a stream; never more than 32768 of them. */
  method TailBytes(s: seq<byte>, n: nat) returns (out: seq<byte>)
    ensures |out| == if n <= |s| && n <= 32768 then n else if |s| <= 32768 then |s| else 32768
    ensures out == s[|s| - |out|..]
  {
    if n <= 0 {
      return [];
    }
    var bin := new byte[LBIN];
    var i, partial := ReadAll(bin, s);
    var k :=
      if n <= i then i - n
      else if partial then 0
      else if n >= LBIN then i + 1
      else i - n + LBIN;
    k := k - 1;
    ghost var w := Held(bin[..], i, partial);
    out := Write(bin, i, partial, k);
  }

  /** A file that can be searched is read from its last LBIN - 1 bytes on. */
  method TailFile(s: seq<byte>, n: nat) returns (out: seq<byte>)
    ensures out == if n == 0 then [] else LastLines(LookedAt(s), n)
  {
    var start := if |s| > LBIN - 1 then |s| - (LBIN - 1) else 0;
    out := TailLines(s[start..], n);
  }
}
