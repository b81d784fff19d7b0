/** model/pointer.go: the compositor-level cursor.  Time is in nanoseconds and
    the clock reading is a parameter. */
module PointerModel {
  import opened Wrappers
  import opened Ints
  import opened Geometry
  import opened Events
  import UtilsMath

  datatype Pointer = Pointer(mx: int, my: int, ox: int, oy: int, time: int)

  const NanosPerMilli := 1_000_000

  /** `time.Since(t).Milliseconds() > 1`: whole milliseconds, truncated toward zero. */
  predicate MoreThanOneMs(t: int, now: int)
  {
    TruncDiv(now - t, NanosPerMilli) > 1
  }

  /** `ProcessPointerEvent`: a move more than 1 ms after the last update sets both the
      position and the origin to the move coordinates and restamps the time. */
  function ProcessPointerEvent(p: Pointer, ev: PointerEvent, now: int): (r: (Pointer, bool))
    ensures r.1 <==> ev.move.Some? && MoreThanOneMs(p.time, now)
    ensures !r.1 ==> r.0 == p
    ensures r.1 ==> r.0 == Pointer(ev.move.value.mx, ev.move.value.my, ev.move.value.mx, ev.move.value.my, now)
  {
    if ev.move.Some? && MoreThanOneMs(p.time, now) then
      var m := ev.move.value;
      (Pointer(m.mx, m.my, m.mx, m.my, now), true)
    else (p, false)
  }

  /** `ToLocalPointer`: nil outside the half-open rectangle; inside, MX/MY become
      rectangle-local and OX/OY are kept.  The copy drops the time stamp. */
  function ToLocalPointer(p: Pointer, rect: Rect): (r: Option<Pointer>)
    ensures r.None? <==> !Point(p.mx, p.my).In(rect)
    ensures r.Some? ==> r.value.mx == p.mx - rect.min.x && r.value.my == p.my - rect.min.y
    ensures r.Some? ==> r.value.ox == p.ox && r.value.oy == p.oy
    ensures r.Some? ==> Point(r.value.mx, r.value.my).In(rect.Sub(rect.min))
  {
    var h := UtilsMath.IntersectsRect(p.mx, p.my, rect);
    if h.intersects then Some(Pointer(h.ix, h.iy, p.ox, p.oy, 0)) else None
  }

  /** Moves are throttled: once a move is taken, any event less than 2 ms later is
      dropped and leaves the pointer where that move put it. */
  lemma MovesThrottled(p: Pointer, ev1: PointerEvent, now: int, ev2: PointerEvent, later: int)
    requires ProcessPointerEvent(p, ev1, now).1
    requires now <= later < now + 2 * NanosPerMilli
    ensures var p1 := ProcessPointerEvent(p, ev1, now).0;
      ProcessPointerEvent(p1, ev2, later) == (p1, false)
  {
    assert 0 <= later - now < 2 * NanosPerMilli;
  }

  /** Non-move events never change the pointer. */
  lemma NonMoveIgnored(p: Pointer, ev: PointerEvent, now: int)
    requires ev.move.None?
    ensures ProcessPointerEvent(p, ev, now) == (p, false)
  {
  }
}
