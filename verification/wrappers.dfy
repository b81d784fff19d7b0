/** Failure-carrying datatypes shared by every layer of the model. */
module Wrappers {

  /** A value that may be absent; stands for a Go pointer that may be nil. */
  datatype Option<+T> = None | Some(value: T)

  /** The ways a request, a read or a decode can fail.  The connection loop
      treats every one of them alike: it ends the connection. */
  datatype Error =
    | ParseError                      // a field did not fit in the remaining body
    | UnknownObject                   // a registry lookup of an absent id
    | UnknownOpcode(opcode: int)      // no case of a handler matches
    | Fault                           // a Go runtime panic (bad slice, nil pointer) recovered by the loop
    | Rejected(reason: string)        // a handler-specific refusal
    | NoFd                            // wl_shm.create_pool with no descriptor queued
    | MapFailed                       // mmap of a pool failed
    | RemapFailed                     // mremap of a pool failed
    | BindFailed(name: seq<int>)      // wl_registry.bind of an unknown interface
    | ShortBody(expected: int, got: int)
    | ReadFailed(transient: bool)     // the socket read failed

  /** Either a value or the error that prevented it. */
  datatype Result<+T> = Ok(value: T) | Err(error: Error) {
    predicate IsFailure() { Err? }
    function PropagateFailure<U>(): Result<U>
      requires Err?
    {
      Err(error)
    }
    function Extract(): T
      requires Ok?
    {
      value
    }
  }
}
