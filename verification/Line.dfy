/** Drawing lines in fixed-point arithmetic on a bitmap that is toggled word by word. */
module Line {
  const ROW_WORDS := 32  // words in a row of the bitmap
  const WIDTH := 1024
  const ONE := 0x1_0000  // one, with sixteen bits of fraction
  const HALF := 0x8000

  /** A word of 32 pixels, leftmost first. */
  type Word = w: seq<bool> | |w| == 32 witness seq(32, _ => false)

  function Abs(a: int): nat { if a < 0 then -a else a }

  /** Division that rounds toward zero. */
  function Quotient(a: int, b: int): int
    requires b != 0
  {
    if (a < 0) == (b < 0) then Abs(a) / Abs(b) else -(Abs(a) / Abs(b))
  }

  /** What the row changes by in each step. */
  function Slope(dx: int, dy: int): int { if dx == 0 then 0 else Quotient(dy * ONE, dx) }

  /** The row of step i of a line, counted from its first row. */
  function RowAt(dx: int, dy: int, i: nat): int { (HALF + i * Slope(dx, dy)) / ONE }

  // ---------- how far rows are from the exact line ----------

  lemma MulMono(a: int, b: int, k: nat)
    requires a <= b
    ensures a * k <= b * k
  {
    assert b * k - a * k == (b - a) * k;
    assert (b - a) * k >= 0;
  }

  /** The slope is exact to less than one unit of its last bit. */
  lemma SlopeError(dx: int, dy: int)
    requires dx > 0
    ensures dy * ONE - dx <= Slope(dx, dy) * dx <= dy * ONE + dx
    ensures dy >= 0 ==> 0 <= Slope(dx, dy) && Slope(dx, dy) * dx <= dy * ONE
    ensures dy <= 0 ==> Slope(dx, dy) <= 0 && dy * ONE <= Slope(dx, dy) * dx
  {
    var n := Abs(dy * ONE);
    var q := n / dx;
    assert n == q * dx + n % dx;
    if dy >= 0 {
      assert Slope(dx, dy) == q;
    } else {
      assert Slope(dx, dy) == -q;
      assert -q * dx == -(q * dx);
    }
  }

  /** Row i is at most a half and i units of the last bit away from the exact line:
      the distance is given in units of 1 / (dx * 65536) of a row. */
  lemma RowError(dx: int, dy: int, i: nat)
    requires dx > 0
    ensures Abs(RowAt(dx, dy, i) * 65536 * dx - i * dy * 65536) <= (32768 + i) * dx
  {
    var s, r := Slope(dx, dy), RowAt(dx, dy, i);
    SlopeError(dx, dy);
    assert r * ONE <= HALF + i * s < r * ONE + ONE;
    MulMono(r * ONE, HALF + i * s, dx);
    MulMono(HALF + i * s - ONE, r * ONE, dx);
    MulMono(s * dx, dy * ONE + dx, i);
    MulMono(dy * ONE - dx, s * dx, i);
    Distribute(s, dx, dy, i);
  }

  lemma Distribute(s: int, dx: int, dy: int, i: nat)
    ensures (HALF + i * s) * dx == HALF * dx + s * dx * i
    ensures (HALF + i * s - ONE) * dx == s * dx * i - HALF * dx
    ensures (dy * ONE + dx) * i == i * dy * ONE + i * dx && (dy * ONE - dx) * i == i * dy * ONE - i * dx
    ensures (HALF + i) * dx == HALF * dx + i * dx
  {
  }

  /** Every row of a line is between those of its ends. */
  lemma RowBetween(dx: int, dy: int, i: nat)
    requires 0 <= i < dx
    ensures if dy >= 0 then 0 <= RowAt(dx, dy, i) <= dy else dy <= RowAt(dx, dy, i) <= 0
  {
    var s := Slope(dx, dy);
    SlopeError(dx, dy);
    if dy >= 0 {
      MulMono(i, dx, s);
      assert 0 <= i * s <= dy * ONE;
    } else {
      MulMono(i, dx, -s);
      assert i * -s == -(i * s) && dx * -s == -(s * dx);
      assert dy * ONE <= i * s <= 0;
    }
  }

  // ---------- the bitmap ----------

  /** A pixel of a bitmap; false outside it. */
  function Pixel(words: seq<Word>, x: int, y: int): bool {
    if 0 <= x < WIDTH && 0 <= y && ROW_WORDS * y + ROW_WORDS <= |words| then words[ROW_WORDS * y + x / 32][x % 32] else false
  }

  /** The line toggles this pixel: in each column it has one. */
  predicate OnLine(x: int, y: int, dx: int, dy: int, px: int, py: int) {
    x <= px < x + dx && py == y + RowAt(dx, dy, px - x)
  }

  /** The pixels up to column x + n of the line have been toggled, and no others. */
  ghost predicate Toggled(before: seq<Word>, after: seq<Word>, x: int, y: int, dx: int, dy: int, n: int) {
    && |after| == |before|
    && forall px, py {:trigger Pixel(after, px, py)} :: 0 <= px < WIDTH && 0 <= py && ROW_WORDS * py + ROW_WORDS <= |before| ==>
         Pixel(after, px, py) == (Pixel(before, px, py) != (px < x + n && OnLine(x, y, dx, dy, px, py)))
  }

  /** Toggles one pixel in its word. */
  method ToggleBit(words: array<Word>, a: int, bit: nat)
    requires 0 <= a < words.Length && bit < 32
    modifies words
    ensures words[..] == old(words[..])[a := old(words[a])[bit := !old(words[a])[bit]]]
  {
    words[a] := words[a][bit := !words[a][bit]];
  }

  lemma ToggledPixel(words: seq<Word>, x: int, y: int, px: int, py: int)
    requires 0 <= x < WIDTH && 0 <= y && ROW_WORDS * y + ROW_WORDS <= |words|
    requires 0 <= px < WIDTH && 0 <= py && ROW_WORDS * py + ROW_WORDS <= |words|
    ensures var a := ROW_WORDS * y + x / 32;
            Pixel(words[a := words[a][x % 32 := !words[a][x % 32]]], px, py)
            == (Pixel(words, px, py) != (px == x && py == y))
  {
  }

  lemma ToggledNext(before: seq<Word>, after: seq<Word>, x: int, y: int, dx: int, dy: int, n: nat)
    requires Toggled(before, after, x, y, dx, dy, n) && n < dx && 0 <= x && x + dx <= WIDTH
    requires var r := y + RowAt(dx, dy, n); 0 <= r && ROW_WORDS * r + ROW_WORDS <= |before|
    ensures var a := ROW_WORDS * (y + RowAt(dx, dy, n)) + (x + n) / 32;
            Toggled(before, after[a := after[a][(x + n) % 32 := !after[a][(x + n) % 32]]], x, y, dx, dy, n + 1)
  {
    var r := y + RowAt(dx, dy, n);
    var a := ROW_WORDS * r + (x + n) / 32;
    var next := after[a := after[a][(x + n) % 32 := !after[a][(x + n) % 32]]];
    forall px, py {:trigger Pixel(next, px, py)} | 0 <= px < WIDTH && 0 <= py && ROW_WORDS * py + ROW_WORDS <= |before|
      ensures Pixel(next, px, py) == (Pixel(before, px, py) != (px < x + (n + 1) && OnLine(x, y, dx, dy, px, py)))
    {
      ToggledPixel(after, x + n, r, px, py);
    }
  }

  /** The fixed-point row of step n. */
  function Fixed(y: int, dx: int, dy: int, n: nat): int { y * ONE + HALF + n * Slope(dx, dy) }

  lemma FixedNext(y: int, dx: int, dy: int, n: nat)
    requires n < dx
    ensures Fixed(y, dx, dy, n + 1) == Fixed(y, dx, dy, n) + Slope(dx, dy)
    ensures Fixed(y, dx, dy, n) / ONE == y + RowAt(dx, dy, n)
    ensures if dy >= 0 then y <= y + RowAt(dx, dy, n) <= y + dy else y + dy <= y + RowAt(dx, dy, n) <= y
  {
    assert (n + 1) * Slope(dx, dy) == n * Slope(dx, dy) + Slope(dx, dy);
    RowBetween(dx, dy, n);
  }

  /** The line and the rows that it runs between are on the bitmap. */
  predicate Fits(size: nat, x: int, y: int, x2: int, y2: int) {
    && 0 <= x < WIDTH && 0 <= x2 < WIDTH && 0 <= y && 0 <= y2
    && ROW_WORDS * y + ROW_WORDS <= size && ROW_WORDS * y2 + ROW_WORDS <= size
  }

  /** Toggles the pixel of step n, which is in word addr of row c. */
  method TogglePixel(words: array<Word>, x: int, addr: int, c: int, ghost before: seq<Word>,
                     ghost x0: int, ghost y: int, ghost dx: int, ghost dy: int, ghost n: nat)
    requires Toggled(before, words[..], x0, y, dx, dy, n) && n < dx && 0 <= x0 && x0 + dx < WIDTH
    requires x == x0 + n && addr == x / 32 && c == y + RowAt(dx, dy, n) && 0 <= c && ROW_WORDS * c + ROW_WORDS <= words.Length
    modifies words
    ensures Toggled(before, words[..], x0, y, dx, dy, n + 1)
  {
    ghost var was := words[..];
    ToggledNext(before, was, x0, y, dx, dy, n);
    assert addr + ROW_WORDS * c == ROW_WORDS * (y + RowAt(dx, dy, n)) + (x0 + n) / 32;
    ToggleBit(words, addr + ROW_WORDS * c, x % 32);
  }

  /** Only lines to the right that are not steep are drawn: exactly one pixel is toggled
      in each column from x to x2 - 1. For other lines nothing happens. */
  method MyLine32(words: array<Word>, x0: int, y: int, x2: int, y2: int)
    requires Fits(words.Length, x0, y, x2, y2)
    modifies words
    ensures Toggled(old(words[..]), words[..], x0, y, x2 - x0, y2 - y, if x0 < x2 && Abs(y2 - y) <= x2 - x0 then x2 - x0 else 0)
  {
    var shortLen, longLen, yLonger := y2 - y, x2 - x0, false;
    if Abs(shortLen) > Abs(longLen) {
      shortLen, longLen := longLen, shortLen;
      yLonger := true;
    }
    var decInc := if longLen == 0 then 0 else Quotient(shortLen * ONE, longLen);
    if yLonger || longLen <= 0 {
      return;
    }
    DrawColumns(words, x0, y, x0 + longLen, decInc, longLen, shortLen);
  }

  /** The loop of the lines that are drawn. */
  method DrawColumns(words: array<Word>, x0: int, y: int, end: int, decInc: int, ghost dx: int, ghost dy: int)
    requires Fits(words.Length, x0, y, x0 + dx, y + dy) && dx > 0 && end == x0 + dx && decInc == Slope(dx, dy)
    modifies words
    ensures Toggled(old(words[..]), words[..], x0, y, dx, dy, dx)
  {
    var x, addr, j := x0, x0 / 32, y * ONE + HALF;
    ghost var n, before := 0, words[..];
    assert 0 * Slope(dx, dy) == 0;
    while x < end
      invariant x == x0 + n && n <= dx && addr == x / 32 && j == Fixed(y, dx, dy, n)
      invariant Toggled(before, words[..], x0, y, dx, dy, n)
    {
      var c := j / ONE;
      FixedNext(y, dx, dy, n);
      TogglePixel(words, x, addr, c, before, x0, y, dx, dy, n);
      if x % 32 == 31 {
        addr := addr + 1;
      }
      j := j + decInc;
      x := x + 1;
      n := n + 1;
    }
  }

  /** Drawing the same line twice leaves the bitmap as it was. */
  method DrawTwice(words: array<Word>, x: int, y: int, x2: int, y2: int)
    requires Fits(words.Length, x, y, x2, y2) && words.Length % ROW_WORDS == 0
    modifies words
    ensures words[..] == old(words[..])
  {
    ghost var before := words[..];
    MyLine32(words, x, y, x2, y2);
    ghost var once := words[..];
    MyLine32(words, x, y, x2, y2);
    TwiceIsNothing(before, once, words[..], x, y, x2 - x, y2 - y, if x < x2 && Abs(y2 - y) <= x2 - x then x2 - x else 0);
  }

  lemma TwiceIsNothing(before: seq<Word>, once: seq<Word>, twice: seq<Word>, x: int, y: int, dx: int, dy: int, n: int)
    requires |before| % ROW_WORDS == 0
    requires Toggled(before, once, x, y, dx, dy, n) && Toggled(once, twice, x, y, dx, dy, n)
    ensures before == twice
  {
    forall a | 0 <= a < |before| ensures before[a] == twice[a] {
      var row := a / ROW_WORDS;
      forall b | 0 <= b < 32 ensures before[a][b] == twice[a][b] {
        var px := 32 * (a % ROW_WORDS) + b;
        assert px / 32 == a % ROW_WORDS && px % 32 == b && ROW_WORDS * row + px / 32 == a;
        assert Pixel(once, px, row) == Pixel(once, px, row);
        assert Pixel(twice, px, row) == Pixel(before, px, row);
      }
    }
  }
}
