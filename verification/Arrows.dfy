/** Arrows that wind over a grid: laying one down, and finding its ends again. */
module Arrows {
  import opened Bytes

  const STRIDE := 64
  const FIRST := 0x80
  const LAST := 0x40
  const CORNER := 0x20
  const CL: byte := 255
  const TRIES := 256

  datatype Pos = Pos(x: int, y: int)

  /** Directions north, east, south and west, as steps. */
  function DX(tile: nat): int { if tile == 1 then 1 else if tile == 3 then -1 else 0 }

  function DY(tile: nat): int { if tile == 0 then -1 else if tile == 2 then 1 else 0 }

  function Step(p: Pos, tile: nat): Pos { Pos(p.x + DX(tile), p.y + DY(tile)) }

  function Back(p: Pos, tile: nat): Pos { Pos(p.x - DX(tile), p.y - DY(tile)) }

  // ---------- what is in a cell ----------

  predicate Used(v: byte) { v / 0x10 % 2 == 0 }

  predicate IsFirst(v: byte) { v / FIRST % 2 == 1 }

  predicate IsLast(v: byte) { v / LAST % 2 == 1 }

  /** The direction in which an arrow comes into a cell. */
  function In(v: byte): nat { v % 4 }

  /** The direction in which it leaves: a corner has its own bits for that. */
  function Out(v: byte): nat { if v / CORNER % 2 == 1 then v / 4 % 4 else v % 4 }

  predicate IsOob(bsize: nat, p: Pos) { p.x < 0 || p.x > bsize - 1 || p.y < 0 || p.y > bsize - 1 }

  function Cell(board: seq<byte>, p: Pos): byte {
    var i := STRIDE * p.y + p.x;
    if 0 <= i < |board| then board[i] else CL
  }

  // ---------- arrows ----------

  /** A path that does not cross itself. */
  ghost predicate Simple(path: seq<Pos>) {
    forall i, j :: 0 <= i < j < |path| ==> path[i] != path[j]
  }

  ghost predicate Inside(bsize: nat, path: seq<Pos>) {
    forall i :: 0 <= i < |path| ==> !IsOob(bsize, path[i])
  }

  /** Cell i of a path leads to the next cell and back to the one before, and knows
      whether it is the first. */
  ghost predicate Link(board: seq<byte>, path: seq<Pos>, i: nat)
    requires i + 1 < |path|
  {
    var v := Cell(board, path[i]);
    && Used(v) && !IsLast(v) && (IsFirst(v) <==> i == 0)
    && path[i + 1] == Step(path[i], Out(v)) && (i > 0 ==> path[i - 1] == Back(path[i], In(v)))
  }

  /** A whole arrow: a simple path of at least two cells inside the board. */
  ghost predicate Arrow(board: seq<byte>, bsize: nat, path: seq<Pos>) {
    && 2 <= |path| && Simple(path) && Inside(bsize, path)
    && (forall i :: 0 <= i < |path| - 1 ==> Link(board, path, i))
    && var v := Cell(board, path[|path| - 1]);
       Used(v) && IsLast(v) && !IsFirst(v) && path[|path| - 2] == Back(path[|path| - 1], In(v))
  }

  /** The neighbour of a cell to the north (0), east (1), south (2) or west (3). */
  ghost predicate Towards(p: Pos, d: nat, q: Pos) {
    match d
    case 0 => q == Pos(p.x, p.y - 1)
    case 1 => q == Pos(p.x + 1, p.y)
    case 2 => q == Pos(p.x, p.y + 1)
    case 3 => q == Pos(p.x - 1, p.y)
    case _ => false
  }

  lemma StepIsTowards(p: Pos, d: nat)
    requires d < 4
    ensures Towards(p, d, Step(p, d)) && Towards(Back(p, d), d, p)
  {
  }

  lemma LinkTowards(board: seq<byte>, path: seq<Pos>, i: nat)
    requires i + 1 < |path| && Link(board, path, i)
    ensures Towards(path[i], Out(Cell(board, path[i])), path[i + 1])
  {
    StepIsTowards(path[i], Out(Cell(board, path[i])));
  }

  lemma ComesFrom(board: seq<byte>, bsize: nat, path: seq<Pos>, i: nat)
    requires Arrow(board, bsize, path) && i + 1 < |path|
    ensures Towards(path[i], In(Cell(board, path[i + 1])), path[i + 1])
  {
    if i + 1 < |path| - 1 {
      assert Link(board, path, i + 1);
    }
    StepIsTowards(path[i + 1], In(Cell(board, path[i + 1])));
  }

  /** What the bits of the board say about an arrow: the lowest two are the direction
      from the cell before, in a corner (0x20) the next two are the direction to the next
      cell, 0x80 marks the first cell and 0x40 the last one. Consecutive cells are
      neighbours. */
  lemma ArrowWinds(board: seq<byte>, bsize: nat, path: seq<Pos>, i: nat)
    requires |board| == 4096 && bsize <= 64 && Arrow(board, bsize, path) && i + 1 < |path|
    ensures var p, q := path[i], path[i + 1];
            && 0 <= p.x < bsize && 0 <= p.y < bsize && 0 <= q.x < bsize && 0 <= q.y < bsize
            && var v, w := board[64 * p.y + p.x], board[64 * q.y + q.x];
               && Towards(p, if v / 0x20 % 2 == 1 then v / 4 % 4 else v % 4, q) && Towards(p, w % 4, q)
               && (v / 0x80 % 2 == 1 <==> i == 0) && v / 0x40 % 2 == 0
               && w / 0x80 % 2 == 0 && (w / 0x40 % 2 == 1 <==> i + 1 == |path| - 1)
  {
    assert Link(board, path, i);
    assert !IsOob(bsize, path[i]) && !IsOob(bsize, path[i + 1]);
    LinkTowards(board, path, i);
    ComesFrom(board, bsize, path, i);
    if i + 1 < |path| - 1 {
      assert Link(board, path, i + 1);
    }
  }

  /** An arrow that is being laid: it has come to its last cell, which is still clear,
      in the given direction. */
  ghost predicate Trail(board: seq<byte>, bsize: nat, path: seq<Pos>, tile: nat) {
    && path != [] && tile < 4 && Simple(path) && Inside(bsize, path)
    && (forall i :: 0 <= i < |path| - 1 ==> Link(board, path, i))
    && Cell(board, path[|path| - 1]) == CL
    && (|path| > 1 ==> path[|path| - 2] == Back(path[|path| - 1], tile))
  }

  /** What is written into a cell. */
  function CellValue(first: bool, tile: nat, out: nat): byte
    requires tile < 4 && out < 4
  {
    if first then FIRST + out else if out == tile then tile else CORNER + tile + 4 * out
  }

  lemma CellMeaning(first: bool, tile: nat, out: nat)
    requires tile < 4 && out < 4
    ensures var v := CellValue(first, tile, out);
            && Used(v) && !IsLast(v) && (IsFirst(v) <==> first) && Out(v) == out && (!first ==> In(v) == tile)
            && Used(v + LAST) && IsLast(v + LAST) && (IsFirst(v + LAST) <==> first) && (!first ==> In(v + LAST) == tile)
  {
  }

  /** The board with one cell changed. */
  function Write(board: seq<byte>, p: Pos, v: byte): (b: seq<byte>)
    ensures |b| == |board|
  {
    var i := STRIDE * p.y + p.x;
    if 0 <= i < |board| then board[i := v] else board
  }

  lemma WriteElsewhere(board: seq<byte>, bsize: nat, p: Pos, v: byte, q: Pos)
    requires |board| == STRIDE * STRIDE && bsize <= STRIDE && !IsOob(bsize, p) && !IsOob(bsize, q)
    ensures Cell(Write(board, p, v), q) == if p == q then v else Cell(board, q)
  {
  }

  lemma LinksKept(board: seq<byte>, bsize: nat, path: seq<Pos>, v: byte, i: nat)
    requires |board| == STRIDE * STRIDE && bsize <= STRIDE && Simple(path) && Inside(bsize, path)
    requires i + 1 < |path| && Link(board, path, i)
    ensures Link(Write(board, path[|path| - 1], v), path, i)
  {
    assert path[i] != path[|path| - 1];
    WriteElsewhere(board, bsize, path[|path| - 1], v, path[i]);
  }

  /** The arrow goes on from its last cell into a clear one. */
  lemma TrailNext(board: seq<byte>, bsize: nat, path: seq<Pos>, tile: nat, out: nat)
    requires |board| == STRIDE * STRIDE && bsize <= STRIDE && Trail(board, bsize, path, tile) && out < 4
    requires var q := Step(path[|path| - 1], out);
             !IsOob(bsize, q) && Cell(Write(board, path[|path| - 1], CellValue(|path| == 1, tile, out)), q) == CL
    ensures Trail(Write(board, path[|path| - 1], CellValue(|path| == 1, tile, out)), bsize,
                  path + [Step(path[|path| - 1], out)], out)
  {
    var n := |path| - 1;
    var v := CellValue(|path| == 1, tile, out);
    var b, q := Write(board, path[n], v), Step(path[n], out);
    CellMeaning(|path| == 1, tile, out);
    WriteElsewhere(board, bsize, path[n], v, path[n]);
    var longer := path + [q];
    forall i | 0 <= i < |longer| - 1 ensures Link(b, longer, i) {
      if i < n {
        LinksKept(board, bsize, path, v, i);
      }
    }
    forall i | 0 <= i <= n ensures path[i] != q {
      if i < n {
        LinksKept(board, bsize, path, v, i);
        assert Link(b, path, i);
      }
    }
  }

  /** The arrow ends in its last cell. */
  lemma TrailEnd(board: seq<byte>, bsize: nat, path: seq<Pos>, tile: nat, out: nat)
    requires |board| == STRIDE * STRIDE && bsize <= STRIDE && Trail(board, bsize, path, tile) && out < 4 && |path| > 1
    ensures Arrow(Write(board, path[|path| - 1], CellValue(false, tile, out) + LAST), bsize, path)
  {
    var v := CellValue(false, tile, out) + LAST;
    CellMeaning(false, tile, out);
    WriteElsewhere(board, bsize, path[|path| - 1], v, path[|path| - 1]);
    var b := Write(board, path[|path| - 1], v);
    forall i | 0 <= i < |path| - 1 ensures Link(b, path, i) {
      LinksKept(board, bsize, path, v, i);
    }
  }

  /** Only cells of the path have changed, and those were clear. */
  ghost predicate Grown(before: seq<byte>, now: seq<byte>, path: seq<Pos>) {
    && (forall q {:trigger Cell(now, q)} :: !IsOob(STRIDE, q) && q !in path ==> Cell(now, q) == Cell(before, q))
    && (forall i {:trigger path[i]} :: 0 <= i < |path| ==> Cell(before, path[i]) == CL)
  }

  lemma GrownNext(before: seq<byte>, now: seq<byte>, path: seq<Pos>, v: byte, q: Pos)
    requires |now| == STRIDE * STRIDE && path != [] && Grown(before, now, path[..|path| - 1]) && Inside(STRIDE, path)
    requires Simple(path + [q]) && !IsOob(STRIDE, q)
    requires Cell(before, path[|path| - 1]) == CL && Cell(Write(now, path[|path| - 1], v), q) == CL
    ensures Grown(before, Write(now, path[|path| - 1], v), path) && Cell(before, q) == CL
  {
    var next := Write(now, path[|path| - 1], v);
    GrownLast(before, now, path, v);
    WriteElsewhere(now, STRIDE, path[|path| - 1], v, q);
    forall i | 0 <= i < |path| ensures path[i] != q {
      assert (path + [q])[i] != (path + [q])[|path|];
    }
  }

  /** An arrow that is already there is not disturbed by a new one. */
  lemma ArrowKept(before: seq<byte>, now: seq<byte>, bsize: nat, path: seq<Pos>, other: seq<Pos>)
    requires bsize <= STRIDE && Arrow(before, bsize, other) && Grown(before, now, path)
    ensures Arrow(now, bsize, other)
  {
    forall i | 0 <= i < |other| ensures Cell(now, other[i]) == Cell(before, other[i]) {
      if i < |other| - 1 {
        assert Link(before, other, i);
      }
      assert other[i] !in path;
    }
    forall i | 0 <= i < |other| - 1 ensures Link(now, other, i) {
      assert Link(before, other, i);
    }
  }

  /** How a position is packed into a number. */
  function Pack(bsize: nat, p: Pos): int { p.y * bsize + p.x }

  lemma MulAtLeast(k: int, b: nat)
    ensures k >= 1 ==> k * b >= b
    ensures k <= -1 ==> k * b + b <= 0
  {
    if k >= 1 {
      assert (k - 1) * b >= 0;
    } else if k <= -1 {
      assert (-k - 1) * b >= 0;
    }
  }

  /** A quotient and remainder are the only ones. */
  lemma DivUnique(y: nat, b: nat, x: nat)
    requires x < b
    ensures (y * b + x) / b == y && (y * b + x) % b == x
  {
    var a := y * b + x;
    var q, r := a / b, a % b;
    assert a == q * b + r;
    var k := q - y;
    assert k * b == x - r;
    MulAtLeast(k, b);
    assert k == 0;
  }

  lemma PackInverse(bsize: nat, p: Pos)
    requires 0 < bsize && !IsOob(bsize, p)
    ensures Pack(bsize, p) >= 0 && Pack(bsize, p) / bsize == p.y && Pack(bsize, p) % bsize == p.x
  {
    assert p.y * bsize >= 0;
    DivUnique(p.y, bsize, p.x);
  }

  class Game {
    const bsize: nat
    const board: array<byte>

    constructor (bsize: nat)
      requires 0 < bsize <= STRIDE
      ensures Valid() && fresh(board) && this.bsize == bsize
    {
      this.bsize := bsize;
      board := new byte[STRIDE * STRIDE](_ => CL);
    }

    /** A cell that is not clear is used. */
    ghost predicate Valid()
      reads board
    {
      && 0 < bsize <= STRIDE && board.Length == STRIDE * STRIDE
      && forall i :: 0 <= i < board.Length ==> board[i] == CL || Used(board[i])
    }

    method Set(p: Pos, v: byte)
      requires board.Length == STRIDE * STRIDE && bsize <= STRIDE && !IsOob(bsize, p)
      modifies board
      ensures board[..] == Write(old(board[..]), p, v)
    {
      board[STRIDE * p.y + p.x] := v;
    }

    function Get(p: Pos): byte
      requires board.Length == STRIDE * STRIDE && bsize <= STRIDE && !IsOob(bsize, p)
      reads board
    {
      board[STRIDE * p.y + p.x]
    }

    /** Whether an arrow cannot go there. */
    predicate Blocked(p: Pos)
      requires board.Length == STRIDE * STRIDE && bsize <= STRIDE
      reads board
    {
      IsOob(bsize, p) || Used(Get(p))
    }

    /** Makes a corner of a cell; the first cell only leads to another direction. */
    method Turn(p: Pos, tile: nat, newtile: nat, len: nat)
      requires Valid() && !IsOob(bsize, p) && tile < 4 && newtile < 4 && newtile != tile
      modifies board
      ensures Valid() && board[..] == Write(old(board[..]), p, CellValue(len == 0, tile, newtile))
    {
      CellMeaning(len == 0, tile, newtile);
      CellMeaning(false, tile, newtile);
      Set(p, CORNER + (tile + 4 * newtile));
      if len == 0 {
        Set(p, FIRST + newtile);
      }
    }

    /** Whether the arrow must turn, and where it then goes on, if anywhere. Writes the
        cell, as a corner when it turns. */
    method Choose(p: Pos, tile: nat, len: nat) returns (stop: bool, out: nat, next: Pos)
      requires Valid() && !IsOob(bsize, p) && Get(p) == CL && tile < 4
      modifies board
      ensures Valid() && out < 4 && board[..] == Write(old(board[..]), p, CellValue(len == 0, tile, out))
      ensures !stop ==> len <= 255 && next == Step(p, out) && !IsOob(bsize, next) && Get(next) == CL
    {
      CellMeaning(len == 0, tile, tile);
      Set(p, tile);
      if len == 0 {
        Set(p, Get(p) + FIRST);
      }
      out := tile;
      next := Step(p, tile);
      var chance: bool := *;
      if Blocked(next) || (len > 4 && chance) {
        var right: bool := *;
        var newtile := if right then (if tile == 3 then 0 else tile + 1) else if tile == 0 then 3 else tile - 1;
        next := Step(p, newtile);
        if Blocked(next) {
          return true, tile, next;
        }
        Turn(p, tile, newtile, len);
        out := newtile;
      }
      var rnd: nat :| rnd < 256;
      stop := len > 8 && len > rnd;
    }

    /** Marks the last cell, or clears it again when it is the only one. */
    method Finish(p: Pos, len: nat, ghost b: seq<byte>, ghost before: seq<byte>, ghost path: seq<Pos>, ghost tile: nat, ghost out: nat)
      requires Valid() && Laying(b, bsize, before, path, tile) && |path| == len + 1 && path[len] == p && out < 4
      requires board[..] == Write(b, p, CellValue(len == 0, tile, out)) && (len == 0 ==> b == before)
      modifies board
      ensures Valid()
      ensures len == 0 ==> board[..] == before
      ensures len > 0 ==> Arrow(board[..], bsize, path) && Grown(before, board[..], path)
    {
      CellMeaning(len == 0, tile, out);
      Set(p, Get(p) + LAST);
      if len == 0 {
        Set(p, CL);
      } else {
        TrailEnd(b, bsize, path, tile, out);
        assert board[..] == Write(b, p, CellValue(false, tile, out) + LAST);
        GrownLast(before, b, path, CellValue(false, tile, out) + LAST);
      }
    }

    /** Writes the last cell so far and goes on into the next one, unless the arrow ends. */
    method Onward(p: Pos, tile: nat, len: nat, ghost before: seq<byte>, ghost path: seq<Pos>)
      returns (stop: bool, out: nat, next: Pos)
      requires Valid() && !IsOob(bsize, p) && Get(p) == CL && Laying(board[..], bsize, before, path, tile)
      requires |path| == len + 1 && path[len] == p
      modifies board
      ensures Valid() && out < 4
      ensures stop ==> board[..] == Write(old(board[..]), p, CellValue(len == 0, tile, out))
      ensures !stop ==> len <= 255 && !IsOob(bsize, next) && Laying(board[..], bsize, before, path + [next], out)
    {
      ghost var b := board[..];
      stop, out, next := Choose(p, tile, len);
      if !stop {
        LayingNext(b, bsize, before, path, tile, out);
      }
    }

    /** Lays one arrow from a clear cell on: nothing changes, or a simple path of at
        least two cells that were clear is written. */
    method GrowArrow(start: Pos, tile0: nat) returns (ghost path: seq<Pos>)
      requires Valid() && !IsOob(bsize, start) && Get(start) == CL && tile0 < 4
      modifies board
      ensures Valid() && Grown(old(board[..]), board[..], path)
      ensures path == [] ==> board[..] == old(board[..])
      ensures path != [] ==> path[0] == start && Arrow(board[..], bsize, path) && |path| <= 257
    {
      ghost var before := board[..];
      var p, tile, len := start, tile0, 0;
      path := [start];
      ghost var b, o := before, tile;
      assert path[..0] == [];
      while Get(p) == CL
        invariant Valid() && !IsOob(bsize, p) && len < 257 && Laying(board[..], bsize, before, path, tile)
        invariant |path| == len + 1 && path[0] == start && path[len] == p && (len == 0 ==> board[..] == before)
        decreases 257 - len
      {
        b := board[..];
        var stop, out, next := Onward(p, tile, len, before, path);
        o := out;
        if stop {
          break;
        }
        p := next;
        path := path + [next];
        tile := out;
        len := len + 1;
      }
      Finish(p, len, b, before, path, tile, o);
      if len == 0 {
        path := [];
      }
    }

    /** Goes back to the first cell of an arrow; gives up after 255 cells. */
    method FindHead(p: Pos, ghost path: seq<Pos>, ghost i: nat) returns (r: int)
      requires Valid() && Arrow(board[..], bsize, path) && i < |path| && p == path[i]
      ensures i < 255 ==> r >= 0 && Pos(r % bsize, r / bsize) == path[0]
      ensures i >= 255 ==> r == -1
    {
      var len, q := TRIES - 1, p;
      ghost var k := i;
      while len > 0
        invariant 0 <= k <= i && len == 255 - (i - k) && len >= 0 && q == path[k]
      {
        assert k < |path| - 1 ==> Link(board[..], path, k);
        var tile := Get(q);
        if IsFirst(tile) {
          PackInverse(bsize, q);
          return Pack(bsize, q);
        }
        q := Back(q, In(tile));
        k := k - 1;
        len := len - 1;
      }
      return -1;
    }

    /** Goes on to the last cell of an arrow; gives up after 255 cells. */
    method FindTail(p: Pos, ghost path: seq<Pos>, ghost i: nat) returns (r: int)
      requires Valid() && Arrow(board[..], bsize, path) && i < |path| && p == path[i]
      ensures |path| - i <= 255 ==> r >= 0 && Pos(r % bsize, r / bsize) == path[|path| - 1]
      ensures |path| - i > 255 ==> r == -1
    {
      var len, q := TRIES - 1, p;
      ghost var k := i;
      while len > 0
        invariant i <= k < |path| && len == 255 - (k - i) && len >= 0 && q == path[k]
      {
        assert k < |path| - 1 ==> Link(board[..], path, k);
        var tile := Get(q);
        if IsLast(tile) || tile == CL {
          PackInverse(bsize, q);
          return Pack(bsize, q);
        }
        var next := Step(q, Out(tile));
        assert k + 1 < |path| - 1 ==> Link(board[..], path, k + 1);
        if Get(next) == CL {
          PackInverse(bsize, q);
          return Pack(bsize, q);
        }
        q := next;
        k := k + 1;
        len := len - 1;
      }
      return -1;
    }
  }

  /** The state while an arrow is laid: its path so far, with the last cell still to be
      written, in the given direction. */
  ghost predicate Laying(now: seq<byte>, bsize: nat, before: seq<byte>, path: seq<Pos>, tile: nat) {
    && |now| == STRIDE * STRIDE && bsize <= STRIDE
    && Trail(now, bsize, path, tile) && Grown(before, now, path[..|path| - 1])
    && Cell(before, path[|path| - 1]) == CL
  }

  lemma LayingNext(now: seq<byte>, bsize: nat, before: seq<byte>, path: seq<Pos>, tile: nat, out: nat)
    requires Laying(now, bsize, before, path, tile) && out < 4
    requires var q := Step(path[|path| - 1], out);
             !IsOob(bsize, q) && Cell(Write(now, path[|path| - 1], CellValue(|path| == 1, tile, out)), q) == CL
    ensures Laying(Write(now, path[|path| - 1], CellValue(|path| == 1, tile, out)), bsize, before,
                   path + [Step(path[|path| - 1], out)], out)
  {
    var q := Step(path[|path| - 1], out);
    TrailNext(now, bsize, path, tile, out);
    GrownNext(before, now, path, CellValue(|path| == 1, tile, out), q);
    assert (path + [q])[..|path|] == path;
  }

  lemma GrownLast(before: seq<byte>, now: seq<byte>, path: seq<Pos>, v: byte)
    requires |now| == STRIDE * STRIDE && path != [] && Grown(before, now, path[..|path| - 1]) && Inside(STRIDE, path)
    requires Cell(before, path[|path| - 1]) == CL
    ensures Grown(before, Write(now, path[|path| - 1], v), path)
  {
    var last := path[|path| - 1];
    var next := Write(now, last, v);
    assert path == path[..|path| - 1] + [last];
    forall p | !IsOob(STRIDE, p) && p !in path ensures Cell(next, p) == Cell(before, p) {
      WriteElsewhere(now, STRIDE, last, v, p);
    }
  }

  // ---------- a long arrow ----------

  /** Cell k of a path that winds through the rows of the board. */
  function SnakeAt(k: nat): Pos {
    Pos(if k / STRIDE % 2 == 0 then k % STRIDE else STRIDE - 1 - k % STRIDE, k / STRIDE)
  }

  /** Along the row: east or west. */
  function Along(k: nat): nat { if k / STRIDE % 2 == 0 then 1 else 3 }

  function SnakeIn(k: nat): nat { if k % STRIDE == 0 && k > 0 then 2 else Along(k) }

  function SnakeOut(k: nat): nat { if k % STRIDE == STRIDE - 1 then 2 else Along(k) }

  /** What cell k of an arrow of n cells along that path holds. */
  function SnakeValue(n: nat, k: nat): byte {
    if k >= n then CL
    else if k == n - 1 then CellValue(false, SnakeIn(k), SnakeIn(k)) + LAST
    else CellValue(k == 0, SnakeIn(k), SnakeOut(k))
  }

  /** Where on the path cell i of the board is. */
  function SnakeIndex(i: nat): nat {
    STRIDE * (i / STRIDE) + if i / STRIDE % 2 == 0 then i % STRIDE else STRIDE - 1 - i % STRIDE
  }

  function SnakeBoard(n: nat): (b: seq<byte>)
    ensures |b| == STRIDE * STRIDE && forall i :: 0 <= i < |b| ==> b[i] == SnakeValue(n, SnakeIndex(i))
  {
    seq(STRIDE * STRIDE, (i: nat) => SnakeValue(n, SnakeIndex(i)))
  }

  function Snake(n: nat): (path: seq<Pos>)
    ensures |path| == n && forall k :: 0 <= k < n ==> path[k] == SnakeAt(k)
  {
    seq(n, (k: nat) => SnakeAt(k))
  }

  lemma SnakeCell(n: nat, k: nat)
    requires k < STRIDE * STRIDE
    ensures !IsOob(STRIDE, SnakeAt(k)) && Cell(SnakeBoard(n), SnakeAt(k)) == SnakeValue(n, k)
  {
    var p := SnakeAt(k);
    var i := STRIDE * p.y + p.x;
    assert i / STRIDE == p.y && i % STRIDE == p.x;
    assert SnakeIndex(i) == k;
  }

  lemma NextCell(k: nat)
    ensures k % STRIDE < STRIDE - 1 ==> (k + 1) / STRIDE == k / STRIDE && (k + 1) % STRIDE == k % STRIDE + 1
    ensures k % STRIDE == STRIDE - 1 ==> (k + 1) / STRIDE == k / STRIDE + 1 && (k + 1) % STRIDE == 0
  {
    var y, c := k / STRIDE, k % STRIDE;
    assert k == STRIDE * y + c;
    if c == STRIDE - 1 {
      assert k + 1 == STRIDE * (y + 1);
    }
  }

  lemma SnakeTurns(k: nat)
    ensures SnakeAt(k + 1) == Step(SnakeAt(k), SnakeOut(k))
    ensures SnakeAt(k) == Back(SnakeAt(k + 1), SnakeIn(k + 1))
  {
    var y := k / STRIDE;
    NextCell(k);
    assert (y + 1) % 2 == 0 <==> y % 2 == 1;
  }

  lemma SnakeLink(n: nat, k: nat)
    requires k + 1 < n <= STRIDE * STRIDE
    ensures Link(SnakeBoard(n), Snake(n), k)
  {
    CellMeaning(k == 0, SnakeIn(k), SnakeOut(k));
    SnakeCell(n, k);
    SnakeTurns(k);
    if k > 0 {
      SnakeTurns(k - 1);
    }
  }

  /** There are arrows of every length from 2 to the number of cells, so also of 256
      cells: from the end of such an arrow FindHead fails, and from its start FindTail. */
  lemma LongArrow(n: nat)
    requires 2 <= n <= STRIDE * STRIDE
    ensures Arrow(SnakeBoard(n), STRIDE, Snake(n))
    ensures forall i :: 0 <= i < |SnakeBoard(n)| ==> SnakeBoard(n)[i] == CL || Used(SnakeBoard(n)[i])
  {
    forall i | 0 <= i < n ensures !IsOob(STRIDE, SnakeAt(i)) {
      SnakeCell(n, i);
    }
    forall i, j | 0 <= i < j < n ensures SnakeAt(i) != SnakeAt(j) {
    }
    forall k | 0 <= k < n - 1 ensures Link(SnakeBoard(n), Snake(n), k) {
      SnakeLink(n, k);
    }
    CellMeaning(false, SnakeIn(n - 1), SnakeIn(n - 1));
    SnakeCell(n, n - 1);
    SnakeTurns(n - 2);
    forall k: nat ensures SnakeValue(n, k) == CL || Used(SnakeValue(n, k)) {
      CellMeaning(k == 0, SnakeIn(k), SnakeOut(k));
      CellMeaning(false, SnakeIn(k), SnakeIn(k));
    }
  }
}
