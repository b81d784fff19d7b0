/** The input event records of model/client.go.  Pointer coordinates, which
    are float32 in Go, are integers here. */
module Events {
  import opened Wrappers

  datatype PointerMove = PointerMove(time: int, mx: int, my: int)
  datatype PointerButton = PointerButton(time: int, button: int, state: int)
  datatype PointerAxis = PointerAxis(time: int, axis: int, value: int)

  /** Each part may be absent (a nil pointer in Go). */
  datatype PointerEvent = PointerEvent(move: Option<PointerMove>, button: Option<PointerButton>, axis: Option<PointerAxis>)

  datatype KeyboardEvent = KeyboardEvent(time: int, key: int, state: int, modifiers: int)

  /** Replaces the coordinates of a move event; other events are returned unchanged. */
  function WithMove(ev: PointerEvent, mx: int, my: int): PointerEvent
  {
    if ev.move.Some? then ev.(move := Some(ev.move.value.(mx := mx, my := my))) else ev
  }
}
