/** The client half that the connection driver calls back into: reading one reply
    (draining every frame a subscribe-family command is owed), classifying pushes and
    writing commands. */
module Inner {
  import opened Wrappers
  import opened Resp

  /** A frame is a published message when it is an array of at least three elements
      whose first element is the string "message". Only that tag is recognised. */
  predicate IsPush(f: Frame) {
    match AsArray(f)
    case Failure(_) => false
    case Success(arr) =>
      |arr| >= 3 &&
      match AsStr(arr[0])
      case Failure(_) => false
      case Success(m) => m == "message"
  }

  lemma IsPushShape(f: Frame)
    ensures IsPush(f) <==> f.Array? && |f.elems| >= 3 && f.elems[0] == Str("message")
  {
  }

  /** A pattern publish is not classified as a push. */
  lemma PatternMessageIsNotPush(pattern: string, channel: string, msg: string)
    ensures !IsPush(Array([Str("pmessage"), Str(pattern), Str(channel), Str(msg)]))
  {
  }

  /** What `Read` hands back: a frame (with no error and close=false), or the error
      that makes the driver close the connection (no frame, close=true). */
  datatype ReadReply = Reply(m: Frame) | Fatal(err: Error)

  /** The reply together with where the reader stands and what the count slot holds. */
  datatype ReadStep = ReadStep(reply: ReadReply, pos: nat, slot: Option<int>)

  /** The count taken from the slot: its value, or 0 when it is empty. */
  function Count(slot: Option<int>): int {
    match slot
    case Some(n) => n
    case None => 0
  }

  /** How many frames a read consumes after skipping timeouts, for a given slot. */
  function Consumed(slot: Option<int>): (t: nat)
    ensures t >= 1
    ensures slot.Some? && slot.value >= 1 ==> t == slot.value
    ensures slot.None? || slot.value <= 1 ==> t == 1
  {
    if Count(slot) > 1 then Count(slot) else 1
  }

  /** The first position at or after `p` that does not hold a timeout. */
  function SkipTimeouts(frames: seq<Frame>, p: nat): (k: nat)
    requires p <= |frames|
    ensures p <= k <= |frames|
    ensures forall j :: p <= j < k ==> frames[j].Timeout?
    ensures k < |frames| ==> !frames[k].Timeout?
    decreases |frames| - p
  {
    if p < |frames| && frames[p].Timeout? then SkipTimeouts(frames, p + 1) else p
  }

  /** The first position in [p, p + d) whose read fails, or p + d when none does. */
  function FirstFault(frames: seq<Frame>, p: nat, d: nat): (j: nat)
    ensures p <= j <= p + d
    ensures forall l :: p <= l < j ==> ErrorOf(FrameAt(frames, l)).None?
    ensures j < p + d ==> ErrorOf(FrameAt(frames, j)).Some?
    decreases d
  {
    if d == 0 then p
    else if ErrorOf(FrameAt(frames, p)).Some? then p
    else FirstFault(frames, p + 1, d - 1)
  }

  /** The drain loop: read `i` more frames, keeping the last, and give up on any error. */
  function Drain(frames: seq<Frame>, p: nat, i: int, m: Frame): (r: (ReadReply, nat))
    requires p <= |frames|
    ensures p <= r.1 <= |frames|
    decreases i
  {
    if i <= 0 then (Reply(m), p)
    else
      var f := FrameAt(frames, p);
      match ErrorOf(f)
      case Some(e) => (Fatal(e), NextPos(frames, p))
      case None => Drain(frames, NextPos(frames, p), i - 1, f)
  }

  /** One call of `Read` on a reader at `p` with the count slot holding `slot`. */
  function ReadSpec(frames: seq<Frame>, p: nat, slot: Option<int>): (s: ReadStep)
    requires p <= |frames|
    ensures p <= s.pos <= |frames|
    ensures s.reply.Reply? ==> p < s.pos && ErrorOf(s.reply.m).None?
  {
    var k := SkipTimeouts(frames, p);
    var m := FrameAt(frames, k);
    match ErrorOf(m)
    case Some(e) => ReadStep(Fatal(e), NextPos(frames, k), slot)
    case None =>
      var (r, q) := Drain(frames, NextPos(frames, k), Count(slot) - 1, m);
      DrainKeepsValue(frames, NextPos(frames, k), Count(slot) - 1, m);
      ReadStep(r, q, None)
  }

  lemma {:induction false} DrainKeepsValue(frames: seq<Frame>, p: nat, i: int, m: Frame)
    requires p <= |frames| && ErrorOf(m).None?
    ensures var r := Drain(frames, p, i, m); r.0.Reply? ==> ErrorOf(r.0.m).None?
    decreases i
  {
    if i > 0 {
      var f := FrameAt(frames, p);
      if ErrorOf(f).None? {
        DrainKeepsValue(frames, NextPos(frames, p), i - 1, f);
      }
    }
  }

  /** The drain consumes frames up to the first failing read: with none among the next
      `i` frames it returns the last of them, otherwise the first failure is fatal. */
  lemma {:induction false} DrainOutcome(frames: seq<Frame>, p: nat, i: int, m: Frame)
    requires p <= |frames|
    ensures var d := if i > 0 then i else 0;
            var j := FirstFault(frames, p, d);
            Drain(frames, p, i, m) ==
              if j == p + d then (Reply(if d == 0 then m else FrameAt(frames, p + d - 1)), p + d)
              else (Fatal(ErrorOf(FrameAt(frames, j)).value), NextPos(frames, j))
    decreases i
  {
    if i > 0 {
      var f := FrameAt(frames, p);
      if ErrorOf(f).None? {
        assert p < |frames|;
        DrainOutcome(frames, p + 1, i - 1, f);
        var d := i;
        var j := FirstFault(frames, p, d);
        assert j == FirstFault(frames, p + 1, d - 1);
      }
    }
  }

  /** Exactly how many frames `Read` consumes and what it returns. After the timeouts
      before the first frame, a read takes `Consumed(slot)` frames (the slot's count, at
      least one) and returns the last of them, unless one of them fails to read: the
      first failure is then returned as fatal. The slot is left empty, except when the
      very first frame fails, which leaves the slot as it was. */
  lemma {:induction false} ReadOutcome(frames: seq<Frame>, p: nat, slot: Option<int>)
    requires p <= |frames|
    ensures var k := SkipTimeouts(frames, p);
            var t := Consumed(slot);
            var j := FirstFault(frames, k, t);
            var s := ReadSpec(frames, p, slot);
            && (s.reply.Reply? <==> j == k + t)
            && (s.reply.Reply? ==> k + t <= |frames| && s.reply.m == frames[k + t - 1] && s.pos == k + t)
            && (s.reply.Fatal? ==> s.reply.err == ErrorOf(FrameAt(frames, j)).value && s.pos == NextPos(frames, j))
            && s.slot == (if j == k then slot else None)
  {
    var k := SkipTimeouts(frames, p);
    var t := Consumed(slot);
    var m := FrameAt(frames, k);
    if ErrorOf(m).None? {
      assert k < |frames|;
      DrainOutcome(frames, k + 1, Count(slot) - 1, m);
      assert FirstFault(frames, k, t) == FirstFault(frames, k + 1, t - 1);
    }
  }

  /** A timeout in front of the first frame is skipped: the read is the same as one
      that starts after it. */
  lemma ReadSkipsTimeout(frames: seq<Frame>, p: nat, slot: Option<int>)
    requires p < |frames| && frames[p].Timeout?
    ensures ReadSpec(frames, p, slot) == ReadSpec(frames, p + 1, slot)
  {
  }

  /** For a slot holding n >= 1 and n frames that read without error, a read consumes
      exactly those n frames, returns the n-th and leaves the slot empty. */
  lemma ReadConsumesExactly(frames: seq<Frame>, p: nat, n: nat)
    requires n >= 1 && p + n <= |frames|
    requires forall j :: p <= j < p + n ==> ErrorOf(frames[j]).None?
    ensures ReadSpec(frames, p, Some(n)) == ReadStep(Reply(frames[p + n - 1]), p + n, None)
  {
    assert SkipTimeouts(frames, p) == p;
    ReadOutcome(frames, p, Some(n));
  }

  /** With an empty slot, or a count of at most one, a read consumes only the first
      frame that is not a timeout. */
  lemma ReadConsumesOne(frames: seq<Frame>, p: nat, slot: Option<int>)
    requires slot.None? || slot.value <= 1
    requires p < |frames| && ErrorOf(frames[p]).None?
    ensures ReadSpec(frames, p, slot) == ReadStep(Reply(frames[p]), p + 1, None)
  {
    assert SkipTimeouts(frames, p) == p;
    ReadOutcome(frames, p, slot);
  }

  /** An error on the first frame is fatal and leaves the slot untouched. */
  lemma ReadFirstFrameFatal(frames: seq<Frame>, p: nat, slot: Option<int>, msg: string)
    requires p < |frames| && frames[p] == Err(msg)
    ensures ReadSpec(frames, p, slot) == ReadStep(Fatal(Fault(msg)), p + 1, slot)
  {
  }

  /** A failing read during the drain, a timeout included, is fatal: the partial drain
      is not resumed, and the slot has already been emptied. */
  lemma ReadDrainFailureFatal(frames: seq<Frame>, p: nat, n: nat, l: nat)
    requires p < l < p + n && l < |frames|
    requires forall j :: p <= j < l ==> ErrorOf(frames[j]).None?
    requires frames[l].Timeout? || frames[l].Err?
    ensures ReadSpec(frames, p, Some(n)) == ReadStep(Fatal(ErrorOf(frames[l]).value), l + 1, None)
  {
    assert SkipTimeouts(frames, p) == p;
    ReadOutcome(frames, p, Some(n));
    var j := FirstFault(frames, p, n);
    assert ErrorOf(FrameAt(frames, l)).Some?;
  }

  /** A read that lets a push frame through on its own, leaving the slot for the reply
      it precedes; any other first frame is read as `Read` reads it. */
  function ReadSpecFixed(frames: seq<Frame>, p: nat, slot: Option<int>): (s: ReadStep)
    requires p <= |frames|
    ensures p <= s.pos <= |frames|
    ensures s.reply.Reply? ==> p < s.pos
  {
    var k := SkipTimeouts(frames, p);
    if k < |frames| && IsPush(frames[k]) then ReadStep(Reply(frames[k]), k + 1, slot)
    else ReadSpec(frames, p, slot)
  }

  /** `MClient`: the read-count slot, a channel with a buffer of one. */
  class MClient {
    var readCount: Option<int>

    constructor ()
      ensures readCount == None
    {
      readCount := None;
    }

    /** `ReadCountCh <- n`. A send to a full slot blocks until a reader empties it; in a
        single caller's sequence of calls that never happens, so the slot must be empty. */
    method SendReadCount(n: int)
      requires readCount.None?
      modifies this
      ensures readCount == Some(n)
    {
      readCount := Some(n);
    }

    /** `getReadCount`: takes the count out of the slot without blocking, 0 if empty. */
    method GetReadCount() returns (n: int)
      modifies this
      ensures old(readCount).Some? ==> n == old(readCount).value
      ensures old(readCount).None? ==> n == 0
      ensures readCount == None
    {
      match readCount
      case Some(c) =>
        n := c;
        readCount := None;
      case None =>
        n := 0;
    }

    /** `Read`: skip timeouts until a first frame, then drain the frames the slot says
        are still owed and return the last. Any other failure is fatal. */
    method Read(sock: Socket) returns (reply: ReadReply)
      requires sock.Valid()
      modifies this, sock`pos
      ensures sock.Valid()
      ensures ReadStep(reply, sock.pos, readCount) == ReadSpec(sock.frames, old(sock.pos), old(readCount))
    {
      ghost var frames, p0, slot0 := sock.frames, sock.pos, readCount;
      ghost var q: nat := sock.pos;
      var m := sock.Next();
      while m.Timeout?
        invariant sock.Valid() && readCount == slot0
        invariant q <= |frames| && m == FrameAt(frames, q) && sock.pos == NextPos(frames, q)
        invariant SkipTimeouts(frames, p0) == SkipTimeouts(frames, q)
        decreases |frames| - sock.pos + (if m.Timeout? then 1 else 0)
      {
        q := sock.pos;
        m := sock.Next();
      }
      assert SkipTimeouts(frames, q) == q;
      if m.Err? {
        return Fatal(Fault(m.msg));
      }
      var n := GetReadCount();
      ghost var target := Drain(frames, sock.pos, n - 1, m);
      var i := n - 1;
      while i > 0
        invariant sock.Valid() && readCount == None
        invariant ErrorOf(m).None?
        invariant Drain(frames, sock.pos, i, m) == target
        decreases i
      {
        m := sock.Next();
        if m.Err? || m.Timeout? {
          return Fatal(ErrorOf(m).value);
        }
        i := i - 1;
      }
      return Reply(m);
    }

    /** `Write`: the command is handed to the encoder; an encoder error closes the
        connection, success reports no error and keeps it open. */
    method Write(sock: Socket, cmd: seq<string>, encodeErr: Option<string>)
      returns (err: Option<Error>, close: bool)
      modifies sock`sent
      ensures close <==> encodeErr.Some?
      ensures err == if encodeErr.Some? then Some(Fault(encodeErr.value)) else None
      ensures sock.sent == if encodeErr.Some? then old(sock.sent) else old(sock.sent) + [cmd]
    {
      if encodeErr.Some? {
        return Some(Fault(encodeErr.value)), true;
      }
      sock.Send(cmd);
      return None, false;
    }
  }
}
