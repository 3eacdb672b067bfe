/** Decoded protocol values, the coercions radix.v2 offers on them, and the connection
    they are read from. The RESP wire codec is not part of this model: a frame is a value
    the codec has already decoded, or the failure it reported instead. */
module Resp {
  import opened Wrappers

  /** Redis integer replies are signed 64-bit. */
  newtype int64 = x: int | -0x8000_0000_0000_0000 <= x < 0x8000_0000_0000_0000

  /** One read off the connection. `Err` is a frame whose error is set (radix sets it for
      an error reply from the broker and for an I/O failure alike); `Timeout` is a read
      whose deadline passed before a frame arrived. */
  datatype Frame =
    | Array(elems: seq<Frame>)
    | Str(s: string)
    | Int(n: int64)
    | Err(msg: string)
    | Nil
    | Timeout

  datatype Error =
    | Fault(msg: string)              // the error carried by an `Err` frame
    | TimedOut                        // the error carried by a `Timeout` frame
    | BadType(want: string)           // a coercion to the wrong shape
    | UnknownReturn(arr: seq<Frame>)  // a subscribe-family reply that is too short

  /** The error a read reports along with its frame (radix's `m.Err`), if any. */
  function ErrorOf(f: Frame): Option<Error> {
    match f
    case Err(msg) => Some(Fault(msg))
    case Timeout => Some(TimedOut)
    case _ => None
  }

  /** `Array()`: the elements of an array frame. A frame with an error yields that error. */
  function AsArray(f: Frame): Result<seq<Frame>, Error> {
    match f
    case Array(elems) => Success(elems)
    case _ => Failure(if ErrorOf(f).Some? then ErrorOf(f).value else BadType("array"))
  }

  /** `Str()`, simplified to succeed on string frames only. */
  function AsStr(f: Frame): Result<string, Error> {
    match f
    case Str(s) => Success(s)
    case _ => Failure(if ErrorOf(f).Some? then ErrorOf(f).value else BadType("string"))
  }

  /** `Int64()`, simplified to succeed on integer frames only. */
  function AsInt64(f: Frame): Result<int64, Error> {
    match f
    case Int(n) => Success(n)
    case _ => Failure(if ErrorOf(f).Some? then ErrorOf(f).value else BadType("int64"))
  }

  /** The frame a read at position `p` yields: past the last frame the connection is gone. */
  function FrameAt(frames: seq<Frame>, p: nat): Frame {
    if p < |frames| then frames[p] else Err("EOF")
  }

  /** Where the reader stands after a read at position `p`. */
  function NextPos(frames: seq<Frame>, p: nat): nat {
    if p < |frames| then p + 1 else p
  }

  /** The connection: the frames the broker will send, how many of them have been read,
      and the commands written to it so far. */
  class Socket {
    const frames: seq<Frame>
    var pos: nat
    var sent: seq<seq<string>>

    predicate Valid()
      reads this
    {
      pos <= |frames|
    }

    constructor (frames: seq<Frame>)
      ensures Valid() && this.frames == frames && pos == 0 && sent == []
    {
      this.frames := frames;
      pos := 0;
      sent := [];
    }

    /** `rr.Read()`: the next frame, or an end-of-stream error once there is none. */
    method Next() returns (f: Frame)
      requires Valid()
      modifies this`pos
      ensures Valid()
      ensures f == FrameAt(frames, old(pos)) && pos == NextPos(frames, old(pos))
    {
      if pos < |frames| {
        f := frames[pos];
        pos := pos + 1;
      } else {
        f := Err("EOF");
      }
    }

    /** Hands one encoded command to the connection. */
    method Send(cmd: seq<string>)
      modifies this`sent
      ensures sent == old(sent) + [cmd]
    {
      sent := sent + [cmd];
    }
  }
}
