/** Machine integer widths, the error kinds the library reports, and the
    shape of a kernel call's answer. */
module Types {

  /** Unsigned and signed machine integers of the widths the C ABI uses. */
  type u8 = x: int | 0 <= x < 0x100
  type u32 = x: int | 0 <= x < 0x1_0000_0000
  type u64 = x: int | 0 <= x < 0x1_0000_0000_0000_0000
  type i32 = x: int | -0x8000_0000 <= x < 0x8000_0000

  /** A raw file descriptor (a C `int`). */
  type Fd = i32

  /** The kinds of `io::Error` the library can return. `Os` carries the errno
      of a failed system call; the other two are raised by the library
      itself before or after a system call. */
  datatype Error =
    | Os(errno: int)
    | InvalidInput
    | InvalidData

  datatype Result<T> = Ok(value: T) | Err(error: Error)

  datatype Option<T> = None | Some(value: T)

  /** What a system call (an ioctl, `open`, `read`) answered: either the
      data it filled in or the errno it failed with. */
  datatype Sys<T> = Done(value: T) | Failed(errno: int)

  /** `from_nix_result`: a failed system call becomes an `Os` error carrying
      the same errno; a successful one hands its data through. */
  function FromSys<T>(reply: Sys<T>): (r: Result<T>)
    ensures r.Ok? <==> reply.Done?
    ensures reply.Done? ==> r.value == reply.value
    ensures reply.Failed? ==> r.error == Os(reply.errno)
  {
    match reply
    case Done(v) => Ok(v)
    case Failed(e) => Err(Os(e))
  }
}
