/** Bytes, 32-bit words and their big-endian form (the 68000's own byte order). */
module Bytes {
  const WORD := 0x1_0000_0000

  type byte = x: int | 0 <= x < 256
  type word = x: int | 0 <= x < WORD

  function FromBe(b: seq<byte>): word
    requires |b| == 4
  {
    0x100_0000 * b[0] as int + 0x1_0000 * b[1] as int + 0x100 * b[2] as int + b[3] as int
  }

  /** The four bytes of the low 32 bits of a number. */
  function ToBe(w: nat): (b: seq<byte>)
    ensures |b| == 4 && (w < WORD ==> FromBe(b) == w)
  {
    var high, low := w / 0x1_0000 % 0x1_0000, w % 0x1_0000;
    [high / 0x100, high % 0x100, low / 0x100, low % 0x100]
  }

  function FromBe16(b: seq<byte>): nat
    requires |b| == 2
  {
    0x100 * b[0] as int + b[1] as int
  }

  /** The two bytes of the low 16 bits of a number. */
  function ToBe16(v: nat): (b: seq<byte>)
    ensures |b| == 2 && (v < 0x1_0000 ==> FromBe16(b) == v)
  {
    [v / 0x100 % 0x100, v % 0x100]
  }

  /** The highest byte comes first. */
  lemma HighByteFirst()
    ensures FromBe([0x12, 0x34, 0x56, 0x78]) == 0x1234_5678 && ToBe(0x1234_5678) == [0x12, 0x34, 0x56, 0x78]
    ensures FromBe16([0x12, 0x34]) == 0x1234 && ToBe16(0x1234) == [0x12, 0x34]
  {
  }

  const SLASH: byte := 47

  function Repeat(n: nat, c: byte): (s: seq<byte>)
    ensures |s| == n && forall i :: 0 <= i < n ==> s[i] == c
  {
    seq(n, _ => c)
  }

  ghost predicate Distinct<T>(s: seq<T>) {
    forall i, j :: 0 <= i < j < |s| ==> s[i] != s[j]
  }

  /** All pieces one after the other. */
  function Flatten<T>(xs: seq<seq<T>>): seq<T> {
    if xs == [] then [] else xs[0] + Flatten(xs[1..])
  }

  lemma {:induction false} FlattenAppend<T>(xs: seq<seq<T>>, ys: seq<seq<T>>)
    ensures Flatten(xs + ys) == Flatten(xs) + Flatten(ys)
  {
    if xs == [] {
      assert xs + ys == ys;
    } else {
      assert (xs + ys)[1..] == xs[1..] + ys;
      calc {
        Flatten(xs + ys);
        xs[0] + Flatten(xs[1..] + ys);
        { FlattenAppend(xs[1..], ys); }
        xs[0] + (Flatten(xs[1..]) + Flatten(ys));
        Flatten(xs) + Flatten(ys);
      }
    }
  }

  /** A piece is found again behind the pieces that come before it. */
  lemma FlattenSlice<T>(xs: seq<seq<T>>, i: nat)
    requires i < |xs|
    ensures |Flatten(xs[..i])| + |xs[i]| <= |Flatten(xs)|
    ensures Flatten(xs)[|Flatten(xs[..i])|..|Flatten(xs[..i])| + |xs[i]|] == xs[i]
  {
    assert xs == xs[..i] + [xs[i]] + xs[i + 1..];
    FlattenAppend(xs[..i] + [xs[i]], xs[i + 1..]);
    FlattenAppend(xs[..i], [xs[i]]);
    assert Flatten([xs[i]]) == xs[i];
  }

  /** The piece m stands in a longer sequence at a given start. */
  ghost predicate At<T>(whole: seq<T>, start: int, m: seq<T>) {
    0 <= start && start + |m| <= |whole| && whole[start..start + |m|] == m
  }

  lemma AtFront<T>(m: seq<T>, pad: seq<T>, rest: seq<T>)
    ensures At(m + pad + rest, 0, m)
  {
  }

  lemma AtBehind<T>(front: seq<T>, rest: seq<T>, start: int, m: seq<T>)
    requires At(rest, start, m)
    ensures At(front + rest, |front| + start, m)
  {
    assert (front + rest)[|front| + start..|front| + start + |m|] == rest[start..start + |m|];
  }

  /** A part of a part. */
  lemma AtInside<T>(whole: seq<T>, a: int, s: seq<T>, b: int, m: seq<T>)
    requires At(whole, a, s) && At(s, b, m)
    ensures At(whole, a + b, m)
  {
    var p := whole[a + b..a + b + |m|];
    forall i | 0 <= i < |m| ensures p[i] == m[i] {
      assert m[i] == s[b..b + |m|][i] == s[b + i];
      assert s[b + i] == whole[a..a + |s|][b + i];
    }
  }

  lemma Assoc<T>(a: seq<T>, b: seq<T>, c: seq<T>)
    ensures a + b + c == a + (b + c)
  {
  }

  lemma Regroup<T>(a: seq<T>, b: seq<T>, c: seq<T>, d: seq<T>)
    ensures a + b + (c + d) == a + (b + c) + d == a + (b + c + d)
  {
  }

  /** The characters up to the first NUL. */
  function CString(s: seq<byte>): seq<byte> {
    if s == [] || s[0] == 0 then [] else [s[0]] + CString(s[1..])
  }

  lemma {:induction false} CStringOf(t: seq<byte>, rest: seq<byte>)
    requires 0 !in t
    ensures CString(t + [0] + rest) == t
  {
    if t != [] {
      assert (t + [0] + rest)[1..] == t[1..] + [0] + rest;
      CStringOf(t[1..], rest);
    }
  }
}
