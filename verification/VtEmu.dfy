/** The terminal: a screen of characters and attributes that scrolls. */
module VtEmu {
  import opened Bytes

  const MAXTERMCOLS := 128
  const MAXTERMROWS := 32

  const ESC := 0x1b
  const BS := 0x08
  const CR := 0x0d
  const LF := 0x0a
  const TAB := 0x09
  const FF := 0x0c

  predicate IsPrint(c: byte) { 0x20 <= c <= 0x7e }

  /** One row: what stands in it and in which style. */
  datatype Line = Line(chars: seq<byte>, attrs: seq<byte>)

  const EMPTY := Line(Repeat(MAXTERMCOLS, 0), Repeat(MAXTERMCOLS, 0))

  /** Row r of a buffer. */
  function RowOf(b: seq<byte>, r: nat): seq<byte> {
    if MAXTERMCOLS * r + MAXTERMCOLS <= |b| then b[MAXTERMCOLS * r..MAXTERMCOLS * r + MAXTERMCOLS] else []
  }

  // ---------- moving and clearing part of a buffer ----------

  /** The buffer after a part of it was copied elsewhere in it. */
  function Moved(b: seq<byte>, dst: nat, src: nat, len: nat): (r: seq<byte>)
    ensures |r| == |b|
  {
    if dst + len <= |b| && src + len <= |b| then b[..dst] + b[src..src + len] + b[dst + len..] else b
  }

  function Filled(b: seq<byte>, off: nat, len: nat, x: byte): (r: seq<byte>)
    ensures |r| == |b|
  {
    if off + len <= |b| then b[..off] + Repeat(len, x) + b[off + len..] else b
  }

  lemma MovedAt(b: seq<byte>, dst: nat, src: nat, len: nat, i: nat)
    requires dst + len <= |b| && src + len <= |b| && i < |b|
    ensures Moved(b, dst, src, len)[i] == if dst <= i < dst + len then b[i - dst + src] else b[i]
  {
  }

  lemma FilledAt(b: seq<byte>, off: nat, len: nat, x: byte, i: nat)
    requires off + len <= |b| && i < |b|
    ensures Filled(b, off, len, x)[i] == if off <= i < off + len then x else b[i]
  {
  }

  /** Moving one byte more from below. */
  lemma MovedUp(b: seq<byte>, dst: nat, src: nat, i: nat)
    requires dst <= src && src + i < |b|
    ensures var m := Moved(b, dst, src, i); m[dst + i := m[src + i]] == Moved(b, dst, src, i + 1)
  {
    var m := Moved(b, dst, src, i);
    var l, r := m[dst + i := m[src + i]], Moved(b, dst, src, i + 1);
    MovedAt(b, dst, src, i, src + i);
    forall k | 0 <= k < |b| ensures l[k] == r[k] {
      MovedAt(b, dst, src, i, k);
      MovedAt(b, dst, src, i + 1, k);
      assert l[k] == if k == dst + i then m[src + i] else m[k];
    }
  }

  /** Moving one byte more from above. */
  lemma MovedDown(b: seq<byte>, dst: nat, src: nat, len: nat)
    requires 0 < src <= dst && dst + len <= |b|
    ensures var m := Moved(b, dst, src, len); m[dst - 1 := m[src - 1]] == Moved(b, dst - 1, src - 1, len + 1)
  {
    var m := Moved(b, dst, src, len);
    var l, r := m[dst - 1 := m[src - 1]], Moved(b, dst - 1, src - 1, len + 1);
    MovedAt(b, dst, src, len, src - 1);
    forall k | 0 <= k < |b| ensures l[k] == r[k] {
      MovedAt(b, dst, src, len, k);
      MovedAt(b, dst - 1, src - 1, len + 1, k);
    }
  }

  lemma FilledMore(b: seq<byte>, off: nat, i: nat, x: byte)
    requires off + i < |b|
    ensures Filled(b, off, i, x)[off + i := x] == Filled(b, off, i + 1, x)
  {
    var l, r := Filled(b, off, i, x)[off + i := x], Filled(b, off, i + 1, x);
    forall k | 0 <= k < |b| ensures l[k] == r[k] {
      FilledAt(b, off, i, x, k);
      FilledAt(b, off, i + 1, x, k);
    }
  }

  /** Copies one byte of an array. */
  method CopyByte(a: array<byte>, to: nat, from: nat)
    requires to < a.Length && from < a.Length
    modifies a
    ensures a[..] == old(a[..])[to := old(a[..])[from]]
  {
    ghost var was := a[..];
    a[to] := a[from];
    assert a[..] == was[to := was[from]];
  }

  /** f says what an array holds after each number of bytes: the next one is copied. */
  ghost predicate CopiesNext(f: nat -> seq<byte>, n: nat, to: int, from: int) {
    0 <= to < |f(n)| && 0 <= from < |f(n)| && f(n + 1) == f(n)[to := f(n)[from]]
  }

  ghost predicate CopiesLast(f: nat -> seq<byte>, dst: nat, src: nat, len: nat, left: int) {
    0 < left <= len && CopiesNext(f, len - left, dst + left - 1, src + left - 1)
  }

  ghost predicate CopiesFirst(f: nat -> seq<byte>, dst: nat, src: nat, n: nat) {
    CopiesNext(f, n, dst + n, src + n)
  }

  /** Copies len bytes, the last one first. */
  method CopyDown(a: array<byte>, dst: nat, src: nat, len: nat, ghost f: nat -> seq<byte>)
    requires dst + len <= a.Length && src + len <= a.Length && a[..] == f(0)
    requires forall left :: 0 < left <= len ==> CopiesLast(f, dst, src, len, left)
    modifies a
    ensures a[..] == f(len)
  {
    var left: nat := len;
    while left > 0
      invariant left <= len && a[..] == f(len - left)
    {
      assert CopiesLast(f, dst, src, len, left);
      left := left - 1;
      CopyByte(a, dst + left, src + left);
    }
  }

  ghost function MovedDownTo(b: seq<byte>, dst: nat, src: nat, len: nat): nat -> seq<byte> {
    (n: nat) => if n <= len then Moved(b, dst + (len - n), src + (len - n), n) else b
  }

  lemma DownAt(b: seq<byte>, dst: nat, src: nat, len: nat, left: nat)
    requires left <= len
    ensures MovedDownTo(b, dst, src, len)(len - left) == Moved(b, dst + left, src + left, len - left)
  {
    assert len - (len - left) == left;
  }

  lemma MovesDown(b: seq<byte>, dst: nat, src: nat, len: nat, left: nat)
    requires src <= dst && dst + len <= |b| && 0 < left <= len
    ensures CopiesLast(MovedDownTo(b, dst, src, len), dst, src, len, left)
  {
    DownAt(b, dst, src, len, left);
    DownAt(b, dst, src, len, left - 1);
    MovedDown(b, dst + left, src + left, len - left);
  }

  method MoveFromAbove(a: array<byte>, dst: nat, src: nat, len: nat)
    requires src <= dst && dst + len <= a.Length
    modifies a
    ensures a[..] == Moved(old(a[..]), dst, src, len)
  {
    ghost var was := a[..];
    ghost var f := MovedDownTo(was, dst, src, len);
    MovedNothing(was, dst + len, src + len);
    forall left | 0 < left <= len ensures CopiesLast(f, dst, src, len, left) {
      MovesDown(was, dst, src, len, left);
    }
    CopyDown(a, dst, src, len, f);
  }

  lemma MovedNothing(b: seq<byte>, dst: nat, src: nat)
    ensures Moved(b, dst, src, 0) == b
  {
  }

  /** Copies len bytes, the first one first. */
  method CopyUp(a: array<byte>, dst: nat, src: nat, len: nat, ghost f: nat -> seq<byte>)
    requires dst + len <= a.Length && src + len <= a.Length && a[..] == f(0)
    requires forall n :: 0 <= n < len ==> CopiesFirst(f, dst, src, n)
    modifies a
    ensures a[..] == f(len)
  {
    for i := 0 to len
      invariant a[..] == f(i)
    {
      assert CopiesFirst(f, dst, src, i);
      CopyByte(a, dst + i, src + i);
    }
  }

  method MoveFromBelow(a: array<byte>, dst: nat, src: nat, len: nat)
    requires dst <= src && src + len <= a.Length
    modifies a
    ensures a[..] == Moved(old(a[..]), dst, src, len)
  {
    ghost var was := a[..];
    ghost var f := (n: nat) => Moved(was, dst, src, n);
    MovedNothing(was, dst, src);
    forall n | 0 <= n < len ensures CopiesFirst(f, dst, src, n) {
      MovedUp(was, dst, src, n);
    }
    CopyUp(a, dst, src, len, f);
  }

  /** Copies a part of an array within it, from low to high or from high to low, so
      that nothing is overwritten before it was copied. */
  method Move(a: array<byte>, dst: nat, src: nat, len: nat)
    requires dst + len <= a.Length && src + len <= a.Length
    modifies a
    ensures a[..] == Moved(old(a[..]), dst, src, len)
  {
    if dst < src {
      MoveFromBelow(a, dst, src, len);
    } else {
      MoveFromAbove(a, dst, src, len);
    }
  }

  method Fill(a: array<byte>, off: nat, len: nat, x: byte)
    requires off + len <= a.Length
    modifies a
    ensures a[..] == Filled(old(a[..]), off, len, x)
  {
    ghost var was := a[..];
    for i := 0 to len
      invariant a[..] == Filled(was, off, i, x)
    {
      FilledMore(was, off, i, x);
      a[off + i] := x;
    }
  }

  lemma RowAt(b: seq<byte>, r: nat, i: nat)
    requires MAXTERMCOLS * r + MAXTERMCOLS <= |b| && i < MAXTERMCOLS
    ensures RowOf(b, r)[i] == b[MAXTERMCOLS * r + i]
  {
  }

  lemma MovedRowAt(b: seq<byte>, dst: nat, src: nat, n: nat, r: nat, k: nat, i: nat)
    requires |b| == MAXTERMCOLS * MAXTERMROWS && dst + n <= MAXTERMROWS && src + n <= MAXTERMROWS && r < MAXTERMROWS
    requires i < MAXTERMCOLS && k == if dst <= r < dst + n then r - dst + src else r
    ensures RowOf(Moved(b, MAXTERMCOLS * dst, MAXTERMCOLS * src, MAXTERMCOLS * n), r)[i] == RowOf(b, k)[i]
  {
    MovedAt(b, MAXTERMCOLS * dst, MAXTERMCOLS * src, MAXTERMCOLS * n, MAXTERMCOLS * r + i);
    RowAt(Moved(b, MAXTERMCOLS * dst, MAXTERMCOLS * src, MAXTERMCOLS * n), r, i);
    RowAt(b, k, i);
  }

  lemma MovedRow(b: seq<byte>, dst: nat, src: nat, n: nat, r: nat)
    requires |b| == MAXTERMCOLS * MAXTERMROWS && dst + n <= MAXTERMROWS && src + n <= MAXTERMROWS && r < MAXTERMROWS
    ensures RowOf(Moved(b, MAXTERMCOLS * dst, MAXTERMCOLS * src, MAXTERMCOLS * n), r)
            == RowOf(b, if dst <= r < dst + n then r - dst + src else r)
  {
    var k := if dst <= r < dst + n then r - dst + src else r;
    forall i | 0 <= i < MAXTERMCOLS
      ensures RowOf(Moved(b, MAXTERMCOLS * dst, MAXTERMCOLS * src, MAXTERMCOLS * n), r)[i] == RowOf(b, k)[i]
    {
      MovedRowAt(b, dst, src, n, r, k, i);
    }
  }

  lemma FilledRow(b: seq<byte>, dst: nat, n: nat, x: byte, r: nat)
    requires |b| == MAXTERMCOLS * MAXTERMROWS && dst + n <= MAXTERMROWS && r < MAXTERMROWS
    ensures RowOf(Filled(b, MAXTERMCOLS * dst, MAXTERMCOLS * n, x), r)
            == if dst <= r < dst + n then Repeat(MAXTERMCOLS, x) else RowOf(b, r)
  {
    var f := Filled(b, MAXTERMCOLS * dst, MAXTERMCOLS * n, x);
    var row := if dst <= r < dst + n then Repeat(MAXTERMCOLS, x) else RowOf(b, r);
    forall i | 0 <= i < MAXTERMCOLS ensures RowOf(f, r)[i] == row[i] {
      FilledAt(b, MAXTERMCOLS * dst, MAXTERMCOLS * n, x, MAXTERMCOLS * r + i);
      RowAt(f, r, i);
      RowAt(b, r, i);
    }
  }

  lemma UpdatedRow(b: seq<byte>, cy: nat, cx: nat, x: byte, r: nat)
    requires |b| == MAXTERMCOLS * MAXTERMROWS && cy < MAXTERMROWS && cx < MAXTERMCOLS && r < MAXTERMROWS
    ensures RowOf(b[MAXTERMCOLS * cy + cx := x], r) == if r == cy then RowOf(b, r)[cx := x] else RowOf(b, r)
  {
    var u := b[MAXTERMCOLS * cy + cx := x];
    var row := if r == cy then RowOf(b, r)[cx := x] else RowOf(b, r);
    forall i | 0 <= i < MAXTERMCOLS ensures RowOf(u, r)[i] == row[i] {
    }
  }

  // ---------- the transcript ----------

  /** Everything ever written, on a page of any length: the cursor is on its last line. */
  datatype Transcript = Transcript(lines: seq<Line>, cx: nat, style: byte)

  predicate Whole(t: Transcript) {
    t.lines != [] && forall i :: 0 <= i < |t.lines| ==> |t.lines[i].chars| == |t.lines[i].attrs| == MAXTERMCOLS
  }

  function NewLines(t: Transcript, n: nat): (u: Transcript)
    ensures Whole(t) ==> Whole(u)
  {
    if n == 0 then t else NewLines(t, n - 1).(lines := NewLines(t, n - 1).lines + [EMPTY], cx := 0)
  }

  /** The lines that a form feed starts. */
  function PageRest(t: Transcript, rows: nat): nat {
    if |t.lines| <= rows then rows + 1 - |t.lines| else 1
  }

  lemma NewLinesMore(t: Transcript, n: nat)
    ensures NewLines(NewLines(t, n), 1) == NewLines(t, n + 1)
  {
    assert NewLines(NewLines(t, n), 0) == NewLines(t, n);
  }

  /** A character in the last line; it is lost when the cursor is beyond the last column. */
  function PutChar(t: Transcript, c: byte, cols: nat): (u: Transcript)
    requires Whole(t)
    ensures Whole(u) && |u.lines| == |t.lines|
  {
    var last := |t.lines| - 1;
    var l := t.lines[last];
    if t.cx < cols && t.cx < MAXTERMCOLS
    then t.(lines := t.lines[last := Line(l.chars[t.cx := c], l.attrs[t.cx := t.style])], cx := t.cx + 1)
    else t.(cx := t.cx + 1)
  }

  /** What one byte does to the transcript. A form feed ends the page that is on the
      screen. */
  function Step(t: Transcript, c: byte, cols: nat, rows: nat, wrapping: bool): (u: Transcript)
    requires Whole(t)
    ensures Whole(u)
  {
    if c == BS then t.(cx := if t.cx > 0 then t.cx - 1 else 0)
    else if c == CR then t.(cx := 0)
    else if c == LF then NewLines(t, 1)
    else if c == TAB then t.(cx := (t.cx + 8) / 8 * 8)
    else if c == FF then NewLines(t, PageRest(t, rows))
    else if IsPrint(c) then
      var u := PutChar(t, c, cols);
      if wrapping && u.cx >= cols then NewLines(u, 1) else u
    else t
  }

  function Steps(t: Transcript, msg: seq<byte>, cols: nat, rows: nat, wrapping: bool): (u: Transcript)
    requires Whole(t)
    ensures Whole(u)
    decreases |msg|
  {
    if msg == [] then t
    else Step(Steps(t, msg[..|msg| - 1], cols, rows, wrapping), msg[|msg| - 1], cols, rows, wrapping)
  }

  const BLANK := Transcript([EMPTY], 0, 0)

  // ---------- what plain text looks like ----------

  /** Printable characters. */
  predicate Plain(msg: seq<byte>) {
    forall i :: 0 <= i < |msg| ==> 0x20 <= msg[i] <= 0x7e
  }

  /** What a text of rows of cols characters has in column c of row r. */
  function Letter(msg: seq<byte>, cols: nat, r: nat, c: nat): byte {
    if c < cols && cols * r + c < |msg| then msg[cols * r + c] else 0
  }

  /** The text fills rows of cols characters each, the last one up to the cursor. */
  ghost predicate Wraps(t: Transcript, msg: seq<byte>, cols: nat, style: byte) {
    && Whole(t) && t.style == style && t.cx < cols && |msg| == cols * (|t.lines| - 1) + t.cx
    && forall r {:trigger t.lines[r]} :: 0 <= r < |t.lines| ==> IsRow(t.lines[r], msg, cols, r, style)
  }

  ghost predicate IsRow(l: Line, msg: seq<byte>, cols: nat, r: nat, style: byte) {
    && |l.chars| == |l.attrs| == MAXTERMCOLS
    && forall c {:trigger l.chars[c]} {:trigger l.attrs[c]} :: 0 <= c < MAXTERMCOLS ==>
         && l.chars[c] == Letter(msg, cols, r, c)
         && l.attrs[c] == if c < cols && cols * r + c < |msg| then style else 0
  }

  lemma {:induction false} RowsApart(cols: nat, r: nat, y: nat)
    requires r < y
    ensures cols * r + cols <= cols * y
  {
    assert cols * (y - 1) + cols == cols * y;
    if r < y - 1 {
      RowsApart(cols, r, y - 1);
    }
  }

  /** A row that is full, or empty, stays as it is when the text gets longer. */
  lemma OtherRow(l: Line, msg: seq<byte>, b: byte, cols: nat, r: nat, y: nat, x: nat, style: byte)
    requires IsRow(l, msg, cols, r, style) && r < y && x < cols && |msg| == cols * y + x
    ensures IsRow(l, msg + [b], cols, r, style)
  {
    RowsApart(cols, r, y);
    forall c | 0 <= c < MAXTERMCOLS ensures Letter(msg + [b], cols, r, c) == Letter(msg, cols, r, c) {
    }
  }

  lemma LastRow(l: Line, msg: seq<byte>, b: byte, cols: nat, y: nat, x: nat, style: byte)
    requires IsRow(l, msg, cols, y, style) && x < cols <= MAXTERMCOLS && |msg| == cols * y + x
    ensures IsRow(Line(l.chars[x := b], l.attrs[x := style]), msg + [b], cols, y, style)
  {
    var row := Line(l.chars[x := b], l.attrs[x := style]);
    forall c | 0 <= c < MAXTERMCOLS
      ensures row.chars[c] == Letter(msg + [b], cols, y, c)
      ensures row.attrs[c] == if c < cols && cols * y + c < |msg + [b]| then style else 0
    {
      assert l.chars[c] == Letter(msg, cols, y, c);
    }
  }

  lemma NextRow(msg: seq<byte>, cols: nat, y: nat, style: byte)
    requires |msg| == cols * y
    ensures IsRow(EMPTY, msg, cols, y, style)
  {
  }

  lemma WrapsCharacter(t: Transcript, msg: seq<byte>, b: byte, cols: nat, style: byte)
    requires Wraps(t, msg, cols, style) && cols <= MAXTERMCOLS
    ensures var u := PutChar(t, b, cols);
            && u.cx == t.cx + 1 && u.style == style
            && forall r {:trigger u.lines[r]} :: 0 <= r < |u.lines| ==> IsRow(u.lines[r], msg + [b], cols, r, style)
  {
    var u, y := PutChar(t, b, cols), |t.lines| - 1;
    forall r {:trigger u.lines[r]} | 0 <= r < |u.lines| ensures IsRow(u.lines[r], msg + [b], cols, r, style) {
      assert IsRow(t.lines[r], msg, cols, r, style);
      if r < y {
        OtherRow(t.lines[r], msg, b, cols, r, y, t.cx, style);
      } else {
        LastRow(t.lines[y], msg, b, cols, y, t.cx, style);
      }
    }
  }

  /** One printable character more. */
  lemma WrapsNext(t: Transcript, msg: seq<byte>, b: byte, cols: nat, rows: nat, wrapping: bool, style: byte)
    requires Wraps(t, msg, cols, style) && 0x20 <= b <= 0x7e && cols <= MAXTERMCOLS && (wrapping || t.cx + 1 < cols)
    ensures Wraps(Step(t, b, cols, rows, wrapping), msg + [b], cols, style)
  {
    WrapsCharacter(t, msg, b, cols, style);
    var u := PutChar(t, b, cols);
    if u.cx == cols {
      var y := |u.lines|;
      assert NewLines(u, 0) == u && NewLines(u, 1).lines == u.lines + [EMPTY];
      assert cols * y == cols * (y - 1) + cols;
      NextRow(msg + [b], cols, y, style);
    }
  }

  /** Plain text on an empty page stands in rows of cols characters; without wrapping
      this holds as long as the first row is not full. */
  lemma {:induction false} TextWraps(msg: seq<byte>, cols: nat, rows: nat, wrapping: bool, style: byte)
    requires Plain(msg) && 0 < cols <= MAXTERMCOLS && (wrapping || |msg| < cols)
    ensures Wraps(Steps(Transcript([EMPTY], 0, style), msg, cols, rows, wrapping), msg, cols, style)
  {
    var t := Transcript([EMPTY], 0, style);
    if msg == [] {
      assert cols * 0 == 0;
      NextRow([], cols, 0, style);
    } else {
      var before, b := msg[..|msg| - 1], msg[|msg| - 1];
      TextWraps(before, cols, rows, wrapping, style);
      var u := Steps(t, before, cols, rows, wrapping);
      if !wrapping {
        FirstRowOnly(cols, |u.lines| - 1, u.cx, |before|);
      }
      WrapsNext(u, before, b, cols, rows, wrapping, style);
      assert before + [b] == msg;
    }
  }

  lemma FirstRowOnly(cols: nat, y: nat, x: nat, n: nat)
    requires n == cols * y + x && n + 1 < cols
    ensures y == 0 && x == n
  {
    if y > 0 {
      RowsApart(cols, 0, y);
    }
  }

  // ---------- where the cursor goes ----------

  /** The column after a byte, with wrapping on. */
  function ColumnStep(cx: nat, c: byte, cols: nat): nat {
    if c == BS then (if cx > 0 then cx - 1 else 0)
    else if c == CR || c == LF || c == FF then 0
    else if c == TAB then cx / 8 * 8 + 8
    else if IsPrint(c) && cx + 1 >= cols then 0
    else if IsPrint(c) then cx + 1
    else cx
  }

  /** The column after some text. */
  function Column(cx: nat, msg: seq<byte>, cols: nat): nat
    decreases |msg|
  {
    if msg == [] then cx else ColumnStep(Column(cx, msg[..|msg| - 1], cols), msg[|msg| - 1], cols)
  }

  lemma {:induction false} NewLinesColumn(t: Transcript, n: nat)
    ensures NewLines(t, n).cx == if n > 0 then 0 else t.cx
  {
    if n > 0 {
      NewLinesColumn(t, n - 1);
    }
  }

  lemma StepColumn(t: Transcript, c: byte, cols: nat, rows: nat)
    requires Whole(t)
    ensures Step(t, c, cols, rows, true).cx == ColumnStep(t.cx, c, cols)
  {
    if c == FF {
      NewLinesColumn(t, PageRest(t, rows));
    } else if c == LF {
      NewLinesColumn(t, 1);
    } else if IsPrint(c) {
      NewLinesColumn(PutChar(t, c, cols), 1);
    }
  }

  lemma {:induction false} StepsColumn(t: Transcript, msg: seq<byte>, cols: nat, rows: nat)
    requires Whole(t)
    ensures Steps(t, msg, cols, rows, true).cx == Column(t.cx, msg, cols)
    decreases |msg|
  {
    if msg != [] {
      var before := msg[..|msg| - 1];
      StepsColumn(t, before, cols, rows);
      StepColumn(Steps(t, before, cols, rows, true), msg[|msg| - 1], cols, rows);
    }
  }

  /** Every tab of a text is taken where a tab stop is left before the last column. */
  ghost predicate TabsFit(cx: nat, msg: seq<byte>, cols: nat) {
    forall k {:trigger msg[k]} :: 0 <= k < |msg| && msg[k] == TAB ==> Column(cx, msg[..k], cols) / 8 * 8 + 8 < cols
  }

  /** The cursor is inside the columns after each prefix of a text. */
  ghost predicate StaysInside(cx: nat, msg: seq<byte>, cols: nat) {
    forall k {:trigger msg[..k]} :: 0 <= k <= |msg| ==> Column(cx, msg[..k], cols) < cols
  }

  lemma PrefixColumn(cx: nat, msg: seq<byte>, k: nat, cols: nat)
    requires k < |msg|
    ensures Column(cx, msg[..k + 1], cols) == ColumnStep(Column(cx, msg[..k], cols), msg[k], cols)
  {
    assert msg[..k + 1][..k] == msg[..k];
  }

  lemma {:induction false} InsideUpTo(cx: nat, msg: seq<byte>, k: nat, cols: nat)
    requires cx < cols && k <= |msg| && TabsFit(cx, msg, cols)
    ensures Column(cx, msg[..k], cols) < cols
  {
    if k > 0 {
      InsideUpTo(cx, msg, k - 1, cols);
      PrefixColumn(cx, msg, k - 1, cols);
      assert msg[k - 1] == TAB ==> Column(cx, msg[..k - 1], cols) / 8 * 8 + 8 < cols;
    }
  }

  /** With wrapping on the cursor never leaves the columns if and only if every tab is
      taken where a tab stop is left. */
  lemma CursorInside(cx: nat, msg: seq<byte>, cols: nat)
    requires cx < cols
    ensures StaysInside(cx, msg, cols) <==> TabsFit(cx, msg, cols)
  {
    if TabsFit(cx, msg, cols) {
      forall k {:trigger msg[..k]} | 0 <= k <= |msg| ensures Column(cx, msg[..k], cols) < cols {
        InsideUpTo(cx, msg, k, cols);
      }
    }
    if StaysInside(cx, msg, cols) {
      forall k | 0 <= k < |msg| && msg[k] == TAB ensures Column(cx, msg[..k], cols) / 8 * 8 + 8 < cols {
        PrefixColumn(cx, msg, k, cols);
        assert Column(cx, msg[..k + 1], cols) < cols;
      }
    }
  }

  /** A tab in column 72 of 80 leaves the columns. */
  lemma TabLeaves()
    ensures !StaysInside(72, [TAB], 80)
  {
    PrefixColumn(72, [TAB], 0, 80);
    assert Column(72, [TAB][..1], 80) == 80;
  }

  // ---------- the terminal ----------

  class Terminal {
    const cols: nat
    const rows: nat
    const buffer: array<byte>
    const attrib: array<byte>
    var cx: nat
    var cy: nat
    var style: byte
    var wrapping: bool
    var margintop: nat
    var marginbot: nat

    constructor (cols: nat, rows: nat)
      requires 0 < cols <= MAXTERMCOLS && 0 < rows <= MAXTERMROWS
      ensures this.cols == cols && this.rows == rows && Valid() && fresh(buffer) && fresh(attrib)
      ensures Shows(BLANK) && !wrapping
    {
      this.cols, this.rows := cols, rows;
      buffer := new byte[MAXTERMCOLS * MAXTERMROWS];
      attrib := new byte[MAXTERMCOLS * MAXTERMROWS];
      cx, cy, style, wrapping, margintop, marginbot := 0, 0, 0, false, 0, rows - 1;
      new;
      VTreset();
    }

    ghost predicate Valid()
      reads this
    {
      && 0 < cols <= MAXTERMCOLS && 0 < rows <= MAXTERMROWS
      && buffer != attrib && buffer.Length == attrib.Length == MAXTERMCOLS * MAXTERMROWS
      && margintop <= marginbot < rows && cy < rows
    }

    /** What row r of the screen holds. */
    ghost function Row(r: nat): Line
      reads buffer, attrib
    {
      Line(RowOf(buffer[..], r), RowOf(attrib[..], r))
    }

    /** The screen shows the last rows of the transcript, or all of it at the top of an
        otherwise empty screen, with the cursor on the transcript's last line. */
    ghost predicate Shows(t: Transcript)
      reads this, buffer, attrib
    {
      && Valid() && Whole(t) && cx == t.cx && style == t.style
      && margintop == 0 && marginbot == rows - 1
      && cy == (if |t.lines| <= rows then |t.lines| else rows) - 1
      && forall r {:trigger Row(r)} :: 0 <= r < rows ==> Row(r) == Visible(t.lines, rows, r)
    }

    /** The screen holds n full rows of a plain text and then the rest of it, as much of
        the end as fits, in one style, and nothing else; the cursor is behind the text. */
    ghost predicate ShowsText(msg: seq<byte>, n: nat, textStyle: byte)
      reads this, buffer, attrib
    {
      && Valid() && |msg| == cols * n + cx && cx < cols && cy == (if n < rows then n else rows - 1)
      && AllCellsShow(buffer[..], attrib[..], msg, cols, rows, n - cy, textStyle)
    }

    /** Clears both buffers, from one place for some length. */
    method ClearRegion(off: nat, len: nat)
      requires Valid()
      modifies buffer, attrib
      ensures buffer[..] == Filled(old(buffer[..]), off, len, 0)
      ensures attrib[..] == Filled(old(attrib[..]), off, len, 0)
    {
      if off + len <= MAXTERMCOLS * MAXTERMROWS {
        Fill(buffer, off, len, 0);
        Fill(attrib, off, len, 0);
      }
    }

    method VTreset()
      requires 0 < cols <= MAXTERMCOLS && 0 < rows <= MAXTERMROWS
      requires buffer != attrib && buffer.Length == attrib.Length == MAXTERMCOLS * MAXTERMROWS
      modifies this, buffer, attrib
      ensures Shows(BLANK) && !wrapping
    {
      wrapping, style := false, 0;
      cx, cy := 0, 0;
      margintop, marginbot := 0, rows - 1;
      ghost var b, a := buffer[..], attrib[..];
      ClearRegion(0, MAXTERMROWS * MAXTERMCOLS);
      forall r {:trigger Row(r)} | 0 <= r < rows ensures Row(r) == EMPTY {
        FilledRow(b, 0, MAXTERMROWS, 0, r);
        FilledRow(a, 0, MAXTERMROWS, 0, r);
      }
    }

    /** Copies n rows from src to dst; nothing happens when they do not fit. */
    method VTmovelines(dst: nat, src: nat, n: nat)
      requires Valid() && src + n <= MAXTERMROWS
      modifies buffer, attrib
      ensures forall r {:trigger Row(r)} :: 0 <= r < MAXTERMROWS ==>
                Row(r) == old(Row(if dst + n <= MAXTERMROWS && dst <= r < dst + n then r - dst + src else r))
    {
      if dst + n > MAXTERMROWS {
        return;
      }
      ghost var b, a := buffer[..], attrib[..];
      Move(buffer, MAXTERMCOLS * dst, MAXTERMCOLS * src, MAXTERMCOLS * n);
      Move(attrib, MAXTERMCOLS * dst, MAXTERMCOLS * src, MAXTERMCOLS * n);
      forall r {:trigger Row(r)} | 0 <= r < MAXTERMROWS
        ensures Row(r) == old(Row(if dst <= r < dst + n then r - dst + src else r))
      {
        MovedRow(b, dst, src, n, r);
        MovedRow(a, dst, src, n, r);
      }
    }

    /** Empties n rows; nothing happens when they do not exist. */
    method VTclearlines(dst: nat, n: nat)
      requires Valid()
      modifies buffer, attrib
      ensures forall r {:trigger Row(r)} :: 0 <= r < MAXTERMROWS ==>
                Row(r) == if dst + n <= MAXTERMROWS && dst <= r < dst + n then EMPTY else old(Row(r))
    {
      if dst + n > MAXTERMROWS {
        return;
      }
      ghost var b, a := buffer[..], attrib[..];
      ClearRegion(MAXTERMCOLS * dst, MAXTERMCOLS * n);
      forall r {:trigger Row(r)} | 0 <= r < MAXTERMROWS
        ensures Row(r) == if dst <= r < dst + n then EMPTY else old(Row(r))
      {
        FilledRow(b, dst, n, 0, r);
        FilledRow(a, dst, n, 0, r);
      }
    }

    /** Starts a new line. When the cursor passes the bottom margin, the rows between
        the margins move up by one and the cursor's row is emptied; rows outside the
        margins stay, except the cursor's own when it is below them. */
    method VTnewline()
      requires Valid()
      modifies this`cx, this`cy, buffer, attrib
      ensures Valid() && cx == 0 && cy == if old(cy) + 1 > marginbot then old(cy) else old(cy) + 1
      ensures forall r {:trigger Row(r)} :: 0 <= r < MAXTERMROWS ==>
                Row(r) == if old(cy) + 1 <= marginbot then old(Row(r))
                          else if r == cy then EMPTY
                          else old(Row(if margintop <= r < marginbot then r + 1 else r))
    {
      var numlines := 1;
      cx := 0;
      cy := cy + 1;
      if cy > marginbot {
        cy := cy - numlines;
        VTmovelines(margintop, margintop + numlines, marginbot - margintop + 1 - numlines);
        VTclearlines(cy, numlines);
      }
    }

    /** A new line on the screen is a new line of the transcript. */
    method NextLine(ghost t: Transcript)
      requires Shows(t)
      modifies this`cx, this`cy, buffer, attrib
      ensures Shows(NewLines(t, 1))
    {
      VTnewline();
      ghost var u := NewLines(t, 1);
      assert u.lines == t.lines + [EMPTY] by {
        assert NewLines(t, 0) == t;
      }
      forall r {:trigger Row(r)} | 0 <= r < rows ensures Row(r) == Visible(u.lines, rows, r) {
        VisibleNext(t.lines, rows, r);
      }
    }

    /** Undoes a scrolling region. */
    method ResetMargins(ghost t: Transcript)
      requires Shows(t)
      modifies this`margintop, this`marginbot
      ensures Shows(t)
    {
      margintop := 0;
      marginbot := rows - 1;
    }

    /** Starts a new page. */
    method FormFeed(ghost t: Transcript)
      requires Shows(t)
      modifies this`cx, this`cy, this`margintop, this`marginbot, buffer, attrib
      ensures Shows(NewLines(t, PageRest(t, rows)))
    {
      ResetMargins(t);
      var i: nat := rows - cy;
      ghost var n, u := 0, t;
      while i > 0
        invariant Shows(u) && u == NewLines(t, n) && n + i == PageRest(t, rows)
      {
        NewLinesMore(t, n);
        NextLine(u);
        n := n + 1;
        u := NewLines(u, 1);
        i := i - 1;
      }
    }

    /** Sets the character under the cursor, in the current style. */
    method SetCell(c: byte)
      requires Valid() && cx < cols
      modifies buffer, attrib
      ensures forall r {:trigger Row(r)} :: 0 <= r < MAXTERMROWS ==>
                Row(r) == if r == cy then Line(old(Row(r)).chars[cx := c], old(Row(r)).attrs[cx := style]) else old(Row(r))
    {
      ghost var b, a := buffer[..], attrib[..];
      buffer[MAXTERMCOLS * cy + cx] := c;
      attrib[MAXTERMCOLS * cy + cx] := style;
      forall r {:trigger Row(r)} | 0 <= r < MAXTERMROWS
        ensures Row(r) == if r == cy then Line(old(Row(r)).chars[cx := c], old(Row(r)).attrs[cx := style]) else old(Row(r))
      {
        UpdatedRow(b, cy, cx, c, r);
        UpdatedRow(a, cy, cx, style, r);
      }
    }

    /** Writes a character where the cursor is. */
    method Print(c: byte, ghost t: Transcript)
      requires Shows(t)
      modifies this`cx, buffer, attrib
      ensures Shows(PutChar(t, c, cols))
    {
      if cx < cols {
        SetCell(c);
      }
      ghost var u := PutChar(t, c, cols);
      forall r {:trigger Row(r)} | 0 <= r < rows ensures Row(r) == Visible(u.lines, rows, r) {
        VisiblePut(t, c, cols, rows, r, cy);
        assert old(Row(r)) == Visible(t.lines, rows, r);
      }
      cx := cx + 1;
    }

    /** Takes in one byte that is not part of an escape sequence. */
    method PlainByte(c: byte, ghost t: Transcript)
      requires Shows(t) && c != 0x1b
      modifies this`cx, this`cy, this`margintop, this`marginbot, buffer, attrib
      ensures Shows(Step(t, c, cols, rows, wrapping))
      ensures c == 8 ==> cx == if old(cx) > 0 then old(cx) - 1 else 0
      ensures c == 9 ==> old(cx) < cx <= old(cx) + 8 && cx % 8 == 0
      ensures c in {10, 12, 13} ==> cx == 0
      ensures (c < 0x20 && c !in {8, 9, 10, 12, 13}) || c > 0x7e ==> cx == old(cx)
      ensures !(0x20 <= c <= 0x7e) && c !in {10, 12} ==>
                cy == old(cy) && buffer[..] == old(buffer[..]) && attrib[..] == old(attrib[..])
    {
      if c == BS {
        if cx > 0 {
          cx := cx - 1;
        }
      } else if c == CR {
        cx := 0;
      } else if c == LF {
        NextLine(t);
      } else if c == TAB {
        cx := cx + 8;
        cx := cx / 8 * 8;
      } else if c == FF {
        FormFeed(t);
      } else if IsPrint(c) {
        Print(c, t);
        if wrapping && cx >= cols {
          NextLine(PutChar(t, c, cols));
        }
      }
    }

    lemma TextShown(t: Transcript, msg: seq<byte>)
      requires Shows(t) && Wraps(t, msg, cols, style)
      ensures ShowsText(msg, |t.lines| - 1, style)
    {
      forall r {:trigger RowOf(buffer[..], r)} | 0 <= r < rows
        ensures Line(RowOf(buffer[..], r), RowOf(attrib[..], r)) == Visible(t.lines, rows, r)
      {
        assert Row(r) == Visible(t.lines, rows, r);
      }
      CellsOfRows(t, buffer[..], attrib[..], msg, cols, rows, |t.lines| - 1 - cy, style);
    }

    /** Takes in text without escape sequences: the screen goes on showing the end of
        the transcript. */
    method VToutput(msg: seq<byte>, ghost t: Transcript)
      requires Shows(t) && 0x1b !in msg
      modifies this`cx, this`cy, this`margintop, this`marginbot, buffer, attrib
      ensures Shows(Steps(t, msg, cols, rows, wrapping))
      ensures t == Transcript([EMPTY], 0, style) && Plain(msg) && (wrapping || |msg| < cols) ==>
                exists n: nat :: ShowsText(msg, n, style)
      ensures wrapping ==> cx == Column(old(cx), msg, cols)
      ensures wrapping && old(cx) < cols && TabsFit(old(cx), msg, cols) ==> cx < cols && cy < rows
    {
      for i := 0 to |msg|
        invariant Shows(Steps(t, msg[..i], cols, rows, wrapping))
      {
        PlainByte(msg[i], Steps(t, msg[..i], cols, rows, wrapping));
        assert msg[..i + 1][..i] == msg[..i];
      }
      assert msg[..|msg|] == msg;
      if t == Transcript([EMPTY], 0, style) && Plain(msg) && (wrapping || |msg| < cols) {
        TextWraps(msg, cols, rows, wrapping, style);
        TextShown(Steps(t, msg, cols, rows, wrapping), msg);
      }
      if wrapping {
        StepsColumn(t, msg, cols, rows);
        if old(cx) < cols && TabsFit(old(cx), msg, cols) {
          InsideUpTo(old(cx), msg, |msg|, cols);
        }
      }
    }
  }

  /** Column c of screen row r holds what row top + r of a text has there, or nothing. */
  ghost predicate CellShows(chars: seq<byte>, attrs: seq<byte>, msg: seq<byte>, cols: nat, top: int, style: byte, r: int, c: int) {
    var at, k := 128 * r + c, cols * (top + r) + c;
    && 0 <= at < |chars| && at < |attrs|
    && if c < cols && 0 <= k < |msg| then chars[at] == msg[k] && attrs[at] == style else chars[at] == attrs[at] == 0
  }

  lemma CellIs(chars: seq<byte>, attrs: seq<byte>, msg: seq<byte>, cols: nat, top: nat, style: byte, r: nat, c: nat, at: nat, k: nat)
    requires at == 128 * r + c && k == cols * (top + r) + c && at < |chars| == |attrs|
    requires chars[at] == (if c < cols && k < |msg| then msg[k] else 0) && attrs[at] == if c < cols && k < |msg| then style else 0
    ensures CellShows(chars, attrs, msg, cols, top, style, r, c)
  {
  }

  lemma CellOfRow(chars: seq<byte>, attrs: seq<byte>, msg: seq<byte>, cols: nat, top: nat, style: byte, r: nat, c: nat)
    requires |chars| == |attrs| == MAXTERMCOLS * MAXTERMROWS && r < MAXTERMROWS && c < MAXTERMCOLS
    requires RowOf(chars, r)[c] == Letter(msg, cols, top + r, c)
    requires RowOf(attrs, r)[c] == if c < cols && cols * (top + r) + c < |msg| then style else 0
    ensures CellShows(chars, attrs, msg, cols, top, style, r, c)
  {
    RowAt(chars, r, c);
    RowAt(attrs, r, c);
    CellIs(chars, attrs, msg, cols, top, style, r, c, MAXTERMCOLS * r + c, cols * (top + r) + c);
  }

  ghost predicate AllCellsShow(chars: seq<byte>, attrs: seq<byte>, msg: seq<byte>, cols: nat, rows: nat, top: int, style: byte) {
    forall r, c :: 0 <= r < rows && 0 <= c < 128 ==> CellShows(chars, attrs, msg, cols, top, style, r, c)
  }

  lemma CellsOfRows(t: Transcript, chars: seq<byte>, attrs: seq<byte>, msg: seq<byte>, cols: nat, rows: nat, top: nat, style: byte)
    requires |chars| == |attrs| == MAXTERMCOLS * MAXTERMROWS && rows <= MAXTERMROWS && Wraps(t, msg, cols, style)
    requires top == if |t.lines| <= rows then 0 else |t.lines| - rows
    requires forall r {:trigger RowOf(chars, r)} :: 0 <= r < rows ==> Line(RowOf(chars, r), RowOf(attrs, r)) == Visible(t.lines, rows, r)
    ensures AllCellsShow(chars, attrs, msg, cols, rows, top, style)
  {
    forall r, c | 0 <= r < rows && 0 <= c < 128 ensures CellShows(chars, attrs, msg, cols, top, style, r, c) {
      var row := RowOf(chars, r);
      assert Line(row, RowOf(attrs, r)) == Visible(t.lines, rows, r);
      VisibleText(t, msg, cols, rows, style, top + r, r, c);
      CellOfRow(chars, attrs, msg, cols, top, style, r, c);
    }
  }

  /** Column c of screen row r, which is row y of the text. */
  lemma VisibleText(t: Transcript, msg: seq<byte>, cols: nat, rows: nat, style: byte, y: nat, r: nat, c: nat)
    requires Wraps(t, msg, cols, style) && r < rows && c < MAXTERMCOLS
    requires y == r + if |t.lines| <= rows then 0 else |t.lines| - rows
    ensures Visible(t.lines, rows, r).chars[c] == Letter(msg, cols, y, c)
    ensures Visible(t.lines, rows, r).attrs[c] == if c < cols && cols * y + c < |msg| then style else 0
  {
    if y < |t.lines| {
      assert IsRow(t.lines[y], msg, cols, y, style);
    } else {
      RowsApart(cols, |t.lines| - 1, y);
    }
  }

  /** Row r of a screen that shows the end of these lines. */
  function Visible(lines: seq<Line>, rows: nat, r: nat): Line {
    var top := if |lines| <= rows then 0 else |lines| - rows;
    if top + r < |lines| then lines[top + r] else EMPTY
  }

  lemma VisibleNext(lines: seq<Line>, rows: nat, r: nat)
    requires r < rows
    ensures Visible(lines + [EMPTY], rows, r) ==
              if |lines| < rows then Visible(lines, rows, r)
              else if r == rows - 1 then EMPTY else Visible(lines, rows, r + 1)
  {
  }

  lemma VisiblePut(t: Transcript, c: byte, cols: nat, rows: nat, r: nat, cy: nat)
    requires Whole(t) && r < rows && cols <= MAXTERMCOLS
    requires cy == (if |t.lines| <= rows then |t.lines| else rows) - 1
    ensures Visible(PutChar(t, c, cols).lines, rows, r) ==
              var l := Visible(t.lines, rows, r);
              if r == cy && t.cx < cols then Line(l.chars[t.cx := c], l.attrs[t.cx := t.style]) else l
  {
  }
}
