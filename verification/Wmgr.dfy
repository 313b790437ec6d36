/** The window manager's stack of windows and the painting of what is visible. */
module Wmgr {
  import opened Bytes
  import opened Rects

  const WINBORDER := 16
  const WINTITLEBAR := 16

  class Window {
    var windowrect: Rect
    var next: Window?

    constructor (r: Rect)
      ensures windowrect == r && next == null
    {
      windowrect, next := r, null;
    }
  }

  /** Something that was drawn: a window, or the desktop when there is none, and the
      rectangle of pixels that it set. */
  datatype Drawn = Drawn(win: Window?, area: Rect)

  /** What was drawn on a pixel, in order. */
  function Hits(log: seq<Drawn>, p: Point): seq<Window?> {
    if log == [] then []
    else Hits(log[..|log| - 1], p) + if In(log[|log| - 1].area, p) then [log[|log| - 1].win] else []
  }

  lemma {:induction false} HitsAppend(a: seq<Drawn>, b: seq<Drawn>, p: Point)
    ensures Hits(a + b, p) == Hits(a, p) + Hits(b, p)
  {
    if b == [] {
      assert a + b == a;
    } else {
      assert (a + b)[..|a + b| - 1] == a + b[..|b| - 1];
      HitsAppend(a, b[..|b| - 1], p);
    }
  }

  lemma HitsOne(w: Window?, area: Rect, p: Point)
    ensures Hits([Drawn(w, area)], p) == if In(area, p) then [w] else []
  {
    assert [Drawn(w, area)][..0] == [];
  }

  // ---------- the stack ----------

  /** The windows of a chain, front to back, linked by their next fields. */
  ghost predicate Linked(win: Window?, ws: seq<Window>)
    reads ws
  {
    && win == (if ws == [] then null else ws[0])
    && forall i {:trigger ws[i].next} :: 0 <= i < |ws| ==> ws[i].next == if i + 1 < |ws| then ws[i + 1] else null
  }

  lemma LinkedBelow(win: Window, ws: seq<Window>)
    requires Linked(win, ws)
    ensures Linked(win.next, ws[1..])
  {
  }

  /** A list without one of its windows. */
  function Without(ws: seq<Window>, w: Window): seq<Window> {
    if ws == [] then [] else (if ws[0] == w then [] else [ws[0]]) + Without(ws[1..], w)
  }

  lemma {:induction false} WithoutAt(ws: seq<Window>, i: nat)
    requires i < |ws| && Distinct(ws)
    ensures Without(ws, ws[i]) == ws[..i] + ws[i + 1..]
  {
    if i == 0 {
      WithoutNone(ws[1..], ws[0]);
    } else {
      assert ws[1..][i - 1] == ws[i] && ws[0] != ws[i];
      assert Distinct(ws[1..]) by {
        forall j, k | 0 <= j < k < |ws[1..]| ensures ws[1..][j] != ws[1..][k] {
          assert ws[j + 1] != ws[k + 1];
        }
      }
      WithoutAt(ws[1..], i - 1);
      assert ws[..i] == [ws[0]] + ws[1..][..i - 1] && ws[1..][i..] == ws[i + 1..];
    }
  }

  lemma {:induction false} WithoutNone(ws: seq<Window>, w: Window)
    requires w !in ws
    ensures Without(ws, w) == ws
  {
    if ws != [] {
      WithoutNone(ws[1..], w);
    }
  }

  /** The frontmost window that contains a pixel; none when it is the desktop's. */
  ghost function Front(ws: seq<Window>, p: Point): Window?
    reads ws`windowrect
  {
    if ws == [] then null else if In(ws[0].windowrect, p) then ws[0] else Front(ws[1..], p)
  }

  /** The window that shows on a pixel: the first one whose rectangle has it. */
  lemma {:induction false} FrontIsFirst(ws: seq<Window>, x: int, y: int, i: nat)
    requires i <= |ws|
    requires forall j {:trigger ws[j]} :: 0 <= j < i ==>
               var r := ws[j].windowrect; !(r.x <= x < r.x + r.w && r.y <= y < r.y + r.h)
    requires i < |ws| ==> var r := ws[i].windowrect; r.x <= x < r.x + r.w && r.y <= y < r.y + r.h
    ensures Front(ws, Point(x, y)) == if i < |ws| then ws[i] else null
  {
    if i > 0 {
      assert !In(ws[0].windowrect, Point(x, y));
      forall j {:trigger ws[1..][j]} | 0 <= j < i - 1
        ensures var r := ws[1..][j].windowrect; !(r.x <= x < r.x + r.w && r.y <= y < r.y + r.h)
      {
        assert ws[1..][j] == ws[j + 1];
      }
      FrontIsFirst(ws[1..], x, y, i - 1);
    }
  }

  /** What painting should draw on a pixel. A window is drawn through a clip of its own,
      within the screen; the desktop through the clip that was in effect. */
  ghost function Shown(ws: seq<Window>, p: Point, screen: Rect, clip: Rect): seq<Window?>
    reads ws
  {
    var w := Front(ws, p);
    if w == null then (if In(clip, p) then [null] else [])
    else if In(screen, p) then [w] else []
  }

  /** These drawings paint rectangle r: on every pixel in it what is to be shown there,
      and on no other pixel anything. */
  ghost predicate Paints(added: seq<Drawn>, ws: seq<Window>, r: Rect, screen: Rect, clip: Rect)
    reads ws
  {
    forall p :: Hits(added, p) == if In(r, p) then Shown(ws, p, screen, clip) else []
  }

  /** These drawings paint some regions, as often as each pixel is in them. */
  ghost predicate PaintsAll(added: seq<Drawn>, ws: seq<Window>, rs: seq<Rect>, screen: Rect, clip: Rect)
    reads ws
  {
    forall p :: Hitting(rs, p) <= 1 ==> Hits(added, p) == if Hitting(rs, p) == 1 then Shown(ws, p, screen, clip) else []
  }

  lemma PaintsDesktop(r: Rect, screen: Rect, clip: Rect)
    ensures Paints([Drawn(null, RectIntersect(r, clip))], [], r, screen, clip)
  {
    forall p {:trigger Hits([Drawn(null, RectIntersect(r, clip))], p)} {
      HitsOne(null, RectIntersect(r, clip), p);
    }
  }

  lemma PaintsOneMore(a: seq<Drawn>, b: seq<Drawn>, ws: seq<Window>, rs: seq<Rect>, r: Rect, screen: Rect, clip: Rect)
    requires PaintsAll(a, ws, rs, screen, clip) && Paints(b, ws, r, screen, clip)
    ensures PaintsAll(a + b, ws, rs + [r], screen, clip)
  {
    forall p | Hitting(rs + [r], p) <= 1
      ensures Hits(a + b, p) == if Hitting(rs + [r], p) == 1 then Shown(ws, p, screen, clip) else []
    {
      HittingMore(rs, r, p);
      HitsAppend(a, b, p);
    }
  }

  /** A window over part of r, and the rest painted around it. */
  lemma PaintsOver(a: seq<Drawn>, b: seq<Drawn>, ws: seq<Window>, rs: seq<Rect>, r: Rect, screen: Rect, clip: Rect)
    requires ws != [] && PaintsAll(a, ws[1..], rs, screen, clip)
    requires forall p :: Hitting(rs, p) == if In(r, p) && !In(ws[0].windowrect, p) then 1 else 0
    requires forall p :: Hits(b, p) == if In(r, p) && In(ws[0].windowrect, p) && In(screen, p) then [ws[0]] else []
    ensures Paints(a + b, ws, r, screen, clip)
  {
    forall p ensures Hits(a + b, p) == if In(r, p) then Shown(ws, p, screen, clip) else [] {
      HitsAppend(a, b, p);
      assert Hitting(rs, p) <= 1;
    }
  }

  class Manager {
    const screenrect: Rect
    var windows: seq<Window>
    var wintopmost: Window?
    var cliprect: Rect
    var log: seq<Drawn>
    /** The stack, front to back. */
    ghost var chain: seq<Window>

    constructor (screenrect: Rect)
      ensures this.screenrect == screenrect && Valid() && chain == [] && windows == []
    {
      this.screenrect, cliprect := screenrect, screenrect;
      windows, wintopmost, log, chain := [], null, [], [];
    }

    /** Following the next fields from the front visits each window of the stack once
        and ends; all of them are windows the manager knows. */
    ghost predicate Valid()
      reads this, chain
    {
      Linked(wintopmost, chain) && Distinct(chain) && forall i :: 0 <= i < |chain| ==> chain[i] in windows
    }

    /** Sets the clip: the pixels of r that are on the screen. */
    method SetClip(r: Rect)
      modifies this`cliprect
      ensures ClipIs(r)
    {
      cliprect := RectIntersect(r, screenrect);
    }

    ghost predicate ClipIs(r: Rect)
      reads this
    {
      forall p :: In(cliprect, p) <==> In(r, p) && In(screenrect, p)
    }

    /** Opens a window with its content at x, rounded down to a multiple of eight, and y,
        and puts it in front of the others. */
    method WindowCreate(x: int, y: int, w: int, h: int) returns (win: Window)
      requires Valid()
      modifies this`windows, this`wintopmost, this`chain, this`cliprect
      ensures Valid() && fresh(win) && chain == [win] + old(chain) && windows == old(windows) + [win]
      ensures AtPlace(win.windowrect, x - 16, y - 16) && win.windowrect.w == w + 32 && win.windowrect.h == h + 32
      ensures ClipIs(win.windowrect)
      ensures old(DesktopRight()) ==> DesktopRight()
    {
      ghost var was := chain;
      var content := Rect(x / 8 * 8, y, w, h);
      var frame := Rect(content.x - WINBORDER, content.y - WINBORDER, content.w + 2 * WINBORDER, content.h + 2 * WINBORDER);
      frame := frame.(y := frame.y - (WINTITLEBAR - WINBORDER), h := frame.h + (WINTITLEBAR - WINBORDER));
      AtPlaceMeans(frame, x - WINBORDER, y - WINTITLEBAR);
      ContentStart(x);
      win := new Window(frame);
      Link(win);
      SetClip(win.windowrect);
      forall p ensures Front(chain, p) == if In(win.windowrect, p) then win else old(Front(chain, p)) {
        RaisedShows(was, win, p);
        assert Front(was, p) == old(Front(was, p));
      }
    }

    /** Puts a new window in front of the stack. */
    method Link(win: Window)
      requires Valid() && win !in chain
      modifies this`windows, this`wintopmost, this`chain, win`next
      ensures Valid() && chain == [win] + old(chain) && windows == old(windows) + [win]
    {
      win.next := wintopmost;
      wintopmost := win;
      windows := windows + [win];
      chain := [win] + chain;
    }

    /** Unlinks element i of the stack and puts it in front. */
    method Relink(prevwin: Window?, win: Window, ghost i: nat)
      requires Valid() && i < |chain| && chain[i] == win != wintopmost
      requires prevwin == if i > 0 then chain[i - 1] else null
      modifies this`wintopmost, this`chain, chain
      ensures Valid() && chain == [win] + old(chain)[..i] + old(chain)[i + 1..]
      ensures forall w :: w in old(chain) ==> w.windowrect == old(w.windowrect)
    {
      ghost var was := chain;
      if prevwin != null {
        prevwin.next := win.next;
      }
      win.next := wintopmost;
      wintopmost := win;
      chain := [win] + chain[..i] + chain[i + 1..];
      forall j | 0 <= j < |chain| ensures chain[j] in windows && chain[j].next == if j + 1 < |chain| then chain[j + 1] else null {
        ghost var k := if j == 0 then i else if j <= i then j - 1 else j;
        assert chain[j] == was[k] && was[k] in windows;
        assert old(was[k].next) == if k + 1 < |was| then was[k + 1] else null;
      }
    }

    /** Brings a window to the front. The stack stays free of cycles and keeps its other
        windows in their order. */
    method WindowTop(win: Window) returns (result: int)
      requires Valid()
      modifies this`cliprect, this`wintopmost, this`chain, chain
      ensures Valid()
      ensures result == if win in windows then 0 else -1
      ensures chain == if win in old(chain) then [win] + Without(old(chain), win) else old(chain)
      ensures forall w :: w in old(chain) ==> w.windowrect == old(w.windowrect)
      ensures result == 0 ==> ClipIs(win.windowrect)
    {
      if win !in windows {
        return -1;
      }
      if win != wintopmost {
        var prevwin: Window? := null;
        var awin := wintopmost;
        ghost var i := 0;
        while awin != null
          invariant Valid() && chain == old(chain) && wintopmost == old(wintopmost)
          invariant forall w :: w in chain ==> w.windowrect == old(w.windowrect)
          invariant i <= |chain| && awin == (if i < |chain| then chain[i] else null)
          invariant prevwin == if i > 0 then chain[i - 1] else null
          invariant forall j :: 0 <= j < i ==> chain[j] != win
          decreases |chain| - i
        {
          if awin == win {
            WithoutAt(chain, i);
            Assoc([win], chain[..i], chain[i + 1..]);
            Relink(prevwin, win, i);
            break;
          }
          prevwin := awin;
          awin := awin.next;
          i := i + 1;
        }
      } else {
        WithoutAt(chain, 0);
        assert chain == [win] + Without(chain, win);
      }
      SetClip(win.windowrect);
      return 0;
    }

    /** Fills a rectangle with the desktop pattern, within the clip. */
    method RectDrawX(r: Rect)
      modifies this`log
      ensures log == old(log) + [Drawn(null, RectIntersect(r, cliprect))]
    {
      log := log + [Drawn(null, RectIntersect(r, cliprect))];
    }

    /** Draws a window, within the clip. */
    method WindowRender(win: Window)
      modifies this`log
      ensures log == old(log) + [Drawn(win, RectIntersect(win.windowrect, cliprect))]
    {
      log := log + [Drawn(win, RectIntersect(win.windowrect, cliprect))];
    }

    /** Draws the part of a window that is in r, through a clip of its own. */
    method RepaintSelf(win: Window, r: Rect)
      modifies this`log, this`cliprect
      ensures cliprect == old(cliprect) && old(log) <= log
      ensures forall p :: Hits(log[|old(log)|..], p)
                          == if In(r, p) && In(win.windowrect, p) && In(screenrect, p) then [win] else []
    {
      var overlap := RectIntersect(r, win.windowrect);
      if overlap.w > 0 && overlap.h > 0 {
        var oldclip := cliprect;
        SetClip(overlap);
        ghost var area := RectIntersect(win.windowrect, cliprect);
        WindowRender(win);
        cliprect := oldclip;
        assert log[|old(log)|..] == [Drawn(win, area)];
        forall p {:trigger Hits(log[|old(log)|..], p)} {
          HitsOne(win, area, p);
        }
      } else {
        assert forall p :: !In(overlap, p);
      }
    }

    /** Paints rectangle r from this window down: every pixel gets the frontmost window
        that contains it, or the desktop, exactly once; the clip is left as it was. */
    method Paint(win: Window?, r: Rect, ghost ws: seq<Window>)
      requires Linked(win, ws) && forall i :: 0 <= i < |ws| ==> ws[i] in windows
      modifies this`log, this`cliprect
      ensures cliprect == old(cliprect) && old(log) <= log
      ensures Paints(log[|old(log)|..], ws, r, screenrect, cliprect)
      decreases |ws|
    {
      if win == null {
        RectDrawX(r);
        PaintsDesktop(r, screenrect, cliprect);
        assert log[|old(log)|..] == [Drawn(null, RectIntersect(r, cliprect))];
        return;
      }
      if win !in windows {
        assert false;
        return;
      }
      var region := RectAreasOutside(r, win.windowrect);
      ghost var a: seq<Drawn> := PaintRegions(win, region, ws);
      ghost var before := log;
      RepaintSelf(win, r);
      ghost var b := log[|before|..];
      PaintsOver(a, b, ws, region, r, screenrect, cliprect);
      assert log[|old(log)|..] == a + b;
    }

    /** Paints some regions from the window below this one down. */
    method PaintRegions(win: Window, region: seq<Rect>, ghost ws: seq<Window>) returns (ghost added: seq<Drawn>)
      requires Linked(win, ws) && forall i :: 0 <= i < |ws| ==> ws[i] in windows
      modifies this`log, this`cliprect
      ensures cliprect == old(cliprect) && log == old(log) + added
      ensures PaintsAll(added, ws[1..], region, screenrect, cliprect)
      decreases |ws|, 0
    {
      added := [];
      ghost var below := ws[1..];
      for i := 0 to |region|
        invariant cliprect == old(cliprect) && log == old(log) + added
        invariant PaintsAll(added, below, region[..i], screenrect, cliprect)
      {
        ghost var before := log;
        LinkedBelow(win, ws);
        Paint(win.next, region[i], below);
        ghost var more := log[|before|..];
        PaintsOneMore(added, more, below, region[..i], region[i], screenrect, cliprect);
        assert region[..i + 1] == region[..i] + [region[i]];
        added := added + more;
      }
      assert region[..|region|] == region;
    }

    /** Repaints the screen: every pixel of it is drawn on exactly once, and shows the
        frontmost window there or the desktop. */
    method RepaintEverything()
      requires Valid()
      modifies this`log, this`cliprect
      ensures Valid() && old(log) <= log
      ensures forall p :: Hits(log[|old(log)|..], p) == if In(screenrect, p) then [Front(chain, p)] else []
      ensures ScreenRight()
    {
      ghost var before := log;
      SetClip(screenrect);
      Paint(wintopmost, screenrect, chain);
      ghost var added := log[|before|..];
      assert log == before + added;
      forall p | In(screenrect, p) ensures Shows(log, p, Front(chain, p)) {
        assert Hits(added, p) == [Front(chain, p)];
        ShowsAfter(before, added, p, Front(chain, p));
      }
    }

    /** Moves a window as close to a place as its content can start at a multiple of
        eight pixels; says whether it had to move. The front window's old place becomes
        the clip. */
    method WindowMove(win: Window, x: int, y: int) returns (moved: bool)
      modifies win`windowrect, this`cliprect
      ensures AtPlace(win.windowrect, x, y) && win.windowrect.w == old(win.windowrect.w) && win.windowrect.h == old(win.windowrect.h)
      ensures moved <==> !AtPlace(old(win.windowrect), x, y)
      ensures moved <==> win.windowrect != old(win.windowrect)
      ensures if win == wintopmost then ClipIs(old(win.windowrect)) else cliprect == old(cliprect)
    {
      if win == wintopmost {
        SetClip(win.windowrect);
      }
      AtPlaceMeans(win.windowrect, x, y);
      if x / 8 * 8 != win.windowrect.x || win.windowrect.y != y {
        var contentX := (x + WINBORDER) / 8 * 8;
        var contentY := y + WINTITLEBAR;
        win.windowrect := win.windowrect.(x := contentX - WINBORDER, y := contentY - WINTITLEBAR);
        AtPlaceMeans(win.windowrect, x, y);
        return true;
      }
      return false;
    }

    /** Paints what the front window left of rectangle r2, through a clip there, and then
        the window itself. */
    method Uncover(win: Window, r2: Rect)
      requires Valid() && win == wintopmost && ClipIs(r2)
      modifies this`log, this`cliprect
      ensures old(log) <= log
      ensures DragPainted(log[|old(log)|..], chain, r2, screenrect)
    {
      ghost var clip := cliprect;
      var region := RectAreasOutside(r2, win.windowrect);
      ghost var a: seq<Drawn> := PaintRegions(win, region, chain);
      SetClip(win.windowrect);
      ghost var area := RectIntersect(win.windowrect, cliprect);
      WindowRender(win);
      assert log[|old(log)|..] == a + [Drawn(win, area)];
      DragPaints(a, chain, region, r2, area, screenrect, clip);
    }

    /** One step of dragging the front window: what it uncovers is painted, and then the
        window itself. Every pixel of the screen that the window left or covers is drawn
        on exactly once, and right; elsewhere the same window shows as before. */
    method DragStep(win: Window, x: int, y: int) returns (moved: bool)
      requires Valid() && win == wintopmost
      modifies this`log, this`cliprect, win`windowrect
      ensures Valid() && chain == old(chain) && old(log) <= log
      ensures if moved then DragPainted(log[|old(log)|..], chain, old(win.windowrect), screenrect) else log == old(log)
      ensures forall p :: !In(win.windowrect, p) && !In(old(win.windowrect), p) ==> Front(chain, p) == old(Front(chain, p))
      ensures !moved ==> win.windowrect == old(win.windowrect)
    {
      var r2 := win.windowrect;
      moved := WindowMove(win, x, y);
      ghost var below := chain[1..];
      assert win !in below;
      if moved {
        Uncover(win, r2);
      }
    }

    // ---------- the screen stays right ----------

    /** Every pixel of the screen shows the frontmost window there, or the desktop. */
    ghost predicate ScreenRight()
      reads this, chain
    {
      forall p :: In(screenrect, p) ==> Shows(log, p, Front(chain, p))
    }

    /** The pixels without a window show the desktop. */
    ghost predicate DesktopRight()
      reads this, chain
    {
      forall p :: In(screenrect, p) && Front(chain, p) == null ==> Shows(log, p, null)
    }

    /** A drag step keeps the desktop right. */
    method Drag(win: Window, x: int, y: int)
      requires Valid() && win == wintopmost && DesktopRight()
      modifies this`log, this`cliprect, win`windowrect
      ensures Valid() && chain == old(chain) && wintopmost == win && DesktopRight()
    {
      ghost var before, r2 := log, win.windowrect;
      var moved := DragStep(win, x, y);
      ghost var added := log[|before|..];
      assert log == before + added;
      forall p | In(screenrect, p) && Front(chain, p) == null ensures Shows(log, p, null) {
        assert !In(win.windowrect, p);
        if moved {
          assert Hits(added, p) == if In(r2, p) then [Front(chain, p)] else [];
        }
        ShowsAfter(before, added, p, null);
      }
    }

    /** Repaints everything through whatever clip is in effect: windows are painted
        wherever they show, desktop only inside the clip. A desktop that was right makes
        the whole screen right. */
    method RepaintThroughClip()
      requires Valid() && DesktopRight()
      modifies this`log, this`cliprect
      ensures Valid() && ScreenRight()
    {
      ghost var before := log;
      Paint(wintopmost, screenrect, chain);
      ghost var added := log[|before|..];
      assert log == before + added;
      forall p | In(screenrect, p) ensures Shows(log, p, Front(chain, p)) {
        assert Hits(added, p) == Shown(chain, p, screenrect, cliprect);
        ShowsAfter(before, added, p, Front(chain, p));
      }
    }

    /** Bringing a window to the front keeps the desktop right. */
    method Raise(win: Window)
      requires Valid() && win in chain && DesktopRight()
      modifies this`cliprect, this`wintopmost, this`chain, chain
      ensures Valid() && chain == [win] + Without(old(chain), win) && wintopmost == win && DesktopRight()
    {
      ghost var was := chain;
      var result := WindowTop(win);
      forall p | In(screenrect, p) && Front(chain, p) == null ensures Shows(log, p, null) {
        RaisedShows(Without(was, win), win, p);
        RaisedElsewhere(was, win, p);
        assert Front(was, p) == old(Front(was, p));
      }
    }

    /** A click on a window and whatever drag follows: raises it, perhaps copies its
        content to memory through a clip of its own, follows the mouse, and repaints.
        A right desktop before gives a right screen after. */
    method ClickAndDrag(win: Window, cached: bool, cache: Rect, places: seq<Point>)
      requires Valid() && win in chain && DesktopRight()
      modifies this`log, this`cliprect, this`wintopmost, this`chain, chain
      ensures Valid() && chain == [win] + Without(old(chain), win) && ScreenRight()
    {
      Raise(win);
      if cached {
        SetClip(cache);
      }
      ghost var stack := chain;
      for i := 0 to |places|
        invariant Valid() && chain == stack && wintopmost == win && DesktopRight()
      {
        Drag(win, places[i].x, places[i].y);
      }
      RepaintThroughClip();
    }
  }

  /** A repaint that misses desktop: no window, and a clip over the left half of the
      screen, as a click leaves it that has copied a window's content to memory. */
  lemma PaintMissesDesktop()
    ensures var screen, clip := Rect(0, 0, 8, 8), Rect(0, 0, 4, 8);
            && Paints([Drawn(null, clip)], [], screen, screen, clip)
            && Hits([Drawn(null, clip)], Point(6, 0)) == []
  {
    var screen, clip := Rect(0, 0, 8, 8), Rect(0, 0, 4, 8);
    PaintsDesktop(screen, screen, clip);
    assert RectIntersect(screen, clip) == clip;
    HitsOne(null, clip, Point(6, 0));
  }

  /** A frame at the wanted height whose content starts at a multiple of eight, less than
      eight pixels left of the wanted place. */
  predicate AtPlace(r: Rect, x: int, y: int) {
    (r.x + 16) % 8 == 0 && 0 <= x - r.x < 8 && r.y == y
  }

  lemma ContentStart(x: int)
    ensures (x - WINBORDER) / 8 * 8 == x / 8 * 8 - WINBORDER
  {
    var q := x / 8;
    assert x == 8 * q + x % 8;
    assert (x - WINBORDER) / 8 == q - 2;
  }

  lemma AtPlaceMeans(r: Rect, x: int, y: int)
    ensures AtPlace(r, x, y) <==> r.x == x / 8 * 8 && r.y == y
    ensures (x + WINBORDER) / 8 * 8 - WINBORDER == x / 8 * 8
  {
    var q, m := x / 8, (r.x + WINBORDER) / 8;
    assert x == 8 * q + x % 8 && r.x + WINBORDER == 8 * m + (r.x + WINBORDER) % 8;
    assert (x + WINBORDER) / 8 == q + 2;
    if AtPlace(r, x, y) {
      assert q == m - 2;
    }
  }

  /** The last thing drawn on a pixel. */
  predicate Shows(log: seq<Drawn>, p: Point, w: Window?) {
    var h := Hits(log, p);
    h != [] && h[|h| - 1] == w
  }

  /** What shows on a pixel is what was drawn on it last. */
  lemma {:induction false} ShowsLast(log: seq<Drawn>, x: int, y: int, i: nat)
    requires i < |log| && var r := log[i].area; r.x <= x < r.x + r.w && r.y <= y < r.y + r.h
    requires forall j {:trigger log[j]} :: i < j < |log| ==>
               var r := log[j].area; !(r.x <= x < r.x + r.w && r.y <= y < r.y + r.h)
    ensures Shows(log, Point(x, y), log[i].win)
  {
    if i < |log| - 1 {
      ShowsLast(log[..|log| - 1], x, y, i);
      assert !In(log[|log| - 1].area, Point(x, y));
    }
  }

  lemma ShowsAfter(a: seq<Drawn>, b: seq<Drawn>, p: Point, w: Window?)
    requires Hits(b, p) == [w] || (Hits(b, p) == [] && Shows(a, p, w))
    ensures Shows(a + b, p, w)
  {
    HitsAppend(a, b, p);
  }

  /** What a drag step draws: on every pixel of the screen that the front window left or
      covers what is to be seen there, and nothing anywhere else. */
  ghost predicate DragPainted(added: seq<Drawn>, ws: seq<Window>, r2: Rect, screen: Rect)
    requires ws != []
    reads ws
  {
    forall p :: Hits(added, p) ==
      if In(screen, p) && (In(ws[0].windowrect, p) || In(r2, p)) then [Front(ws, p)] else []
  }

  /** The uncovered regions, painted through a clip at the window's old place, and the
      window at its new place. */
  lemma DragPaints(a: seq<Drawn>, ws: seq<Window>, rs: seq<Rect>, r2: Rect, area: Rect, screen: Rect, clip: Rect)
    requires ws != [] && PaintsAll(a, ws[1..], rs, screen, clip)
    requires forall p :: In(clip, p) <==> In(r2, p) && In(screen, p)
    requires forall p :: Hitting(rs, p) == if In(r2, p) && !In(ws[0].windowrect, p) then 1 else 0
    requires forall p :: In(area, p) <==> In(ws[0].windowrect, p) && In(screen, p)
    ensures DragPainted(a + [Drawn(ws[0], area)], ws, r2, screen)
  {
    forall p
      ensures Hits(a + [Drawn(ws[0], area)], p) ==
                if In(screen, p) && (In(ws[0].windowrect, p) || In(r2, p)) then [Front(ws, p)] else []
    {
      HitsAppend(a, [Drawn(ws[0], area)], p);
      HitsOne(ws[0], area, p);
      assert Hitting(rs, p) <= 1;
    }
  }

  /** Painting r reaches all of it that is on the screen exactly when the clip in effect
      contains the desktop that shows there. */
  lemma CoversWhenDesktopInClip(added: seq<Drawn>, ws: seq<Window>, r: Rect, screen: Rect, clip: Rect)
    requires Paints(added, ws, r, screen, clip)
    ensures (forall p :: In(r, p) && In(screen, p) ==> Hits(added, p) == [Front(ws, p)])
            <==> (forall p :: In(r, p) && In(screen, p) && Front(ws, p) == null ==> In(clip, p))
  {
    if forall p :: In(r, p) && In(screen, p) ==> Hits(added, p) == [Front(ws, p)] {
      forall p | In(r, p) && In(screen, p) && Front(ws, p) == null ensures In(clip, p) {
        assert Hits(added, p) == [Front(ws, p)];
      }
    }
  }

  /** A window that was brought to the front is what shows wherever it is. */
  lemma RaisedShows(ws: seq<Window>, win: Window, p: Point)
    ensures Front([win] + ws, p) == if In(win.windowrect, p) then win else Front(ws, p)
  {
    assert ([win] + ws)[1..] == ws;
  }

  /** Where a raised window is not, the same window shows as before. */
  lemma {:induction false} RaisedElsewhere(ws: seq<Window>, win: Window, p: Point)
    requires !In(win.windowrect, p)
    ensures Front([win] + Without(ws, win), p) == Front(ws, p)
  {
    RaisedShows(Without(ws, win), win, p);
    if ws != [] {
      RaisedElsewhere(ws[1..], win, p);
      RaisedShows(Without(ws[1..], win), win, p);
      if ws[0] != win {
        RaisedShows(Without(ws[1..], win), ws[0], p);
      } else {
        assert [] + Without(ws[1..], win) == Without(ws[1..], win);
      }
    }
  }
}
