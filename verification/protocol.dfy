/** What a request handler produces, shared by every object kind.

    A Go handler mutates objects in place, writes events to the socket as it
    goes and may then return an error, which ends the connection; whatever it
    changed before the error stays changed.  A `Reply` therefore carries the new
    connection state, the effects in the order they happened, and the error if
    there was one. */
module Protocol {
  import opened Wrappers
  import opened Ints
  import opened Wire
  import opened Registry
  import Window

  /** An effect on the outside world: the socket, a buffer's owner, or the workspace
      that all connections share. */
  datatype Out =
    | Send(msg: Message)                 // `SendMessage`
    | SendWithFd(msg: Message, fd: int)  // `SendMessageWithFd`
    | Released(buffer: int)              // `Buffer.Release` on a committed wl_buffer
    | Closed(fd: int)                    // `unix.Close` at teardown
    | WindowAdded(window: Window.Window) // `workspace.AddTopLevel`
    | WindowRemoved(index: int)          // `workspace.RemoveTopLevel`
    | PopupPushed(index: int, popup: int)  // `PushPopup` on the window with that index
    | PopupPopped(index: int)            // `PopPopup` on the window with that index

  datatype Reply = Reply(conn: Conn, out: seq<Out>, error: Option<Error>)

  /** The display object every connection holds at wire id 1. */
  const DisplayId := 1

  function Msg(id: int, opcode: int, fields: seq<Field>): Out
  {
    Send(Message(id, opcode, fields))
  }

  /** `wl_display.delete_id`: the object id is free for reuse. */
  function DeleteId(id: int): Out
  {
    Msg(DisplayId, 1, [UintF(id)])
  }

  /** An unknown opcode leaves the state alone and ends the connection. */
  function Unknown(c: Conn, opcode: int): (r: Reply)
    ensures r.conn == c && r.out == [] && r.error == Some(UnknownOpcode(opcode))
  {
    Reply(c, [], Some(UnknownOpcode(opcode)))
  }

  /** A request whose body is too short for its fields. */
  function Short(c: Conn, e: Error): (r: Reply)
    ensures r.conn == c && r.out == [] && r.error == Some(e)
  {
    Reply(c, [], Some(e))
  }
}
