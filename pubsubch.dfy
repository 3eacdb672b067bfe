/** The public pub/sub connection: subscribe-family commands that report the broker's
    subscription count, and the decoding of pushed frames into publish records. */
module PubSub {
  import opened Wrappers
  import opened Resp
  import opened Inner

  /** A message published on a channel this connection is subscribed to. */
  datatype Publish = Publish(message: string, channel: string)

  /** The push frame the broker sends for a publish: tag, channel, then message. */
  function MessageFrame(p: Publish): Frame {
    Array([Str("message"), Str(p.channel), Str(p.message)])
  }

  /** One pass of the decoding loop: a push frame whose channel and message are strings
      becomes a publish record; any other push frame is dropped. */
  function DecodePush(f: Frame): Option<Publish>
    requires IsPush(f)
  {
    var arr := f.elems;
    match AsStr(arr[1])
    case Failure(_) => None
    case Success(ch) =>
      match AsStr(arr[2])
      case Failure(_) => None
      case Success(msg) => Some(Publish(msg, ch))
  }

  /** Channel at element 1 and message at element 2 become the record's `channel` and
      `message` (in the opposite order of the record's fields); trailing elements are
      ignored, and a non-string channel or message drops the frame. */
  lemma DecodePushFields(f: Frame)
    requires IsPush(f)
    ensures DecodePush(f).Some? <==> f.elems[1].Str? && f.elems[2].Str?
    ensures DecodePush(f).Some? ==> DecodePush(f).value == Publish(f.elems[2].s, f.elems[1].s)
  {
  }

  /** Decoding inverts the broker's encoding of a publish. */
  lemma DecodePushRoundTrip(p: Publish)
    ensures IsPush(MessageFrame(p)) && DecodePush(MessageFrame(p)) == Some(p)
  {
  }

  /** Everything the decoding loop sends for a sequence of push frames, in order. */
  function DecodeAll(input: seq<Frame>): seq<Publish>
    requires forall f <- input :: IsPush(f)
    decreases |input|
  {
    if input == [] then []
    else
      var front, last := input[..|input| - 1], input[|input| - 1];
      DecodeAll(front) + match DecodePush(last) case Some(p) => [p] case None => []
  }

  /** The broker's push frames for a sequence of publishes. */
  function MessageFrames(ps: seq<Publish>): (fs: seq<Frame>)
    ensures |fs| == |ps| && forall f <- fs :: IsPush(f)
    ensures forall j :: 0 <= j < |ps| ==> fs[j] == MessageFrame(ps[j])
  {
    if ps == [] then [] else MessageFrames(ps[..|ps| - 1]) + [MessageFrame(ps[|ps| - 1])]
  }

  /** Decoding never produces more records than it is given frames. */
  lemma {:induction false} DecodeAllLength(input: seq<Frame>)
    requires forall f <- input :: IsPush(f)
    ensures |DecodeAll(input)| <= |input|
    decreases |input|
  {
    if input != [] {
      DecodeAllLength(input[..|input| - 1]);
    }
  }

  /** Decoding goes frame by frame: what one frame yields does not depend on the others. */
  lemma {:induction false} DecodeAllAppend(a: seq<Frame>, b: seq<Frame>)
    requires forall f <- a :: IsPush(f)
    requires forall f <- b :: IsPush(f)
    ensures DecodeAll(a + b) == DecodeAll(a) + DecodeAll(b)
    decreases |b|
  {
    if b == [] {
      assert a + b == a;
    } else {
      var front := b[..|b| - 1];
      assert (a + b)[..|a + b| - 1] == a + front;
      DecodeAllAppend(a, front);
    }
  }

  /** A malformed push frame is dropped and the frames after it are still decoded. */
  lemma DecodeAllDropsMalformed(a: seq<Frame>, f: Frame, b: seq<Frame>)
    requires forall g <- a :: IsPush(g)
    requires forall g <- b :: IsPush(g)
    requires IsPush(f) && DecodePush(f).None?
    ensures DecodeAll(a + [f] + b) == DecodeAll(a) + DecodeAll(b)
  {
    var af := a + [f];
    assert forall g <- af :: IsPush(g);
    DecodeAllAppend(af, b);
    DecodeAllAppend(a, [f]);
    assert [f][..0] == [];
    assert DecodeAll([f]) == [];
  }

  /** Decoding the broker's frames for a sequence of publishes gives them back in order. */
  lemma {:induction false} DecodeAllRoundTrip(ps: seq<Publish>)
    ensures DecodeAll(MessageFrames(ps)) == ps
    decreases |ps|
  {
    if ps != [] {
      var fs := MessageFrames(ps);
      assert fs[..|fs| - 1] == MessageFrames(ps[..|ps| - 1]);
      DecodeAllRoundTrip(ps[..|ps| - 1]);
      DecodePushRoundTrip(ps[|ps| - 1]);
    }
  }

  /** The delivery channel: the records sent on it so far and whether it is closed. */
  class PublishCh {
    var sent: seq<Publish>
    var closed: bool

    constructor ()
      ensures sent == [] && !closed
    {
      sent := [];
      closed := false;
    }

    /** `pubCh <- p`. Sending on a closed channel panics. */
    method Send(p: Publish)
      requires !closed
      modifies this
      ensures sent == old(sent) + [p] && !closed
    {
      sent := sent + [p];
    }

    /** `close(pubCh)`. Closing a closed channel panics. */
    method Close()
      requires !closed
      modifies this
      ensures closed && sent == old(sent)
    {
      closed := true;
    }
  }

  /** The decoding loop: every push frame the connection delivers is decoded and sent,
      in order; when the push frames run out the delivery channel is closed, once. */
  method RunDecoder(pushCh: seq<Frame>, pubCh: PublishCh)
    requires forall f <- pushCh :: IsPush(f)
    requires !pubCh.closed
    modifies pubCh
    ensures pubCh.closed && pubCh.sent == old(pubCh.sent) + DecodeAll(pushCh)
  {
    for i := 0 to |pushCh|
      invariant !pubCh.closed
      invariant pubCh.sent == old(pubCh.sent) + DecodeAll(pushCh[..i])
    {
      assert pushCh[..i + 1][..i] == pushCh[..i];
      assert pushCh[i] in pushCh;
      IsPushShape(pushCh[i]);
      var arr := pushCh[i].elems;
      var ch := AsStr(arr[1]);
      if ch.Failure? {
        continue;
      }
      var msg := AsStr(arr[2]);
      if msg.Failure? {
        continue;
      }
      pubCh.Send(Publish(msg.value, ch.value));
    }
    assert pushCh[..|pushCh|] == pushCh;
    pubCh.Close();
  }

  /** What a command call leaves behind: its reply, where the reader stands, what the
      count slot holds and the push frames read on the way, in order. */
  datatype CmdStep = CmdStep(reply: ReadReply, pos: nat, slot: Option<int>, pushed: seq<Frame>)

  /** The connection driver's side of a command, after the write: reads go on until one
      yields a frame that is not a push (the command's reply) or fails; push frames read
      on the way go to the push side. */
  function Route(frames: seq<Frame>, p: nat, slot: Option<int>): (c: CmdStep)
    requires p <= |frames|
    ensures p <= c.pos <= |frames|
    decreases |frames| - p
  {
    var s := ReadSpec(frames, p, slot);
    if s.reply.Reply? && IsPush(s.reply.m) then
      var c := Route(frames, s.pos, s.slot);
      CmdStep(c.reply, c.pos, c.slot, [s.reply.m] + c.pushed)
    else
      CmdStep(s.reply, s.pos, s.slot, [])
  }

  /** The two paths never mix: a command's reply is never a push frame, everything sent
      to the push side is one, and a command that got its reply has emptied the slot. */
  lemma {:induction false} RouteSeparates(frames: seq<Frame>, p: nat, slot: Option<int>)
    requires p <= |frames|
    ensures var c := Route(frames, p, slot);
            && (c.reply.Reply? ==> !IsPush(c.reply.m) && c.slot == None)
            && forall f <- c.pushed :: IsPush(f)
    decreases |frames| - p
  {
    var s := ReadSpec(frames, p, slot);
    if s.reply.Reply? && IsPush(s.reply.m) {
      RouteSeparates(frames, s.pos, s.slot);
    }
  }

  /** The count a subscribe-family reply reports: element 2 of an array reply of at
      least three elements. */
  function ExtractCount(m: Frame): (r: Result<int64, Error>)
    ensures r.Success? <==> m.Array? && |m.elems| >= 3 && m.elems[2].Int?
    ensures r.Success? ==> r.value == m.elems[2].n
    ensures m.Array? && |m.elems| < 3 ==> r == Failure(UnknownReturn(m.elems))
    ensures !m.Array? && ErrorOf(m).None? ==> r == Failure(BadType("array"))
  {
    match AsArray(m)
    case Failure(e) => Failure(e)
    case Success(arr) =>
      if |arr| < 3 then Failure(UnknownReturn(arr)) else AsInt64(arr[2])
  }

  /** The count a command call reports: a failed call reports its error. */
  function ReplyCount(r: ReadReply): Result<int64, Error> {
    match r
    case Fatal(e) => Failure(e)
    case Reply(m) => ExtractCount(m)
  }

  /** Go's `(int64, error)` return for a result: 0 with the error on failure. */
  function AsPair(r: Result<int64, Error>): (int64, Option<Error>) {
    match r
    case Success(n) => (n, None)
    case Failure(e) => (0, Some(e))
  }

  /** A reply to a subscribe-family command: the command's kind, the name, the count. */
  function SubReply(kind: string, name: string, count: int64): Frame {
    Array([Str(kind), Str(name), Int(count)])
  }

  /** Subscribing to N names, when the broker answers with one reply per name, consumes
      exactly those N frames, routes nothing to the push side and reports the count
      carried by the N-th reply, whatever the earlier counts were. */
  lemma SubscribeReportsLastCount(frames: seq<Frame>, p: nat, kind: string,
                                  names: seq<string>, counts: seq<int64>)
    requires kind != "message"
    requires |names| == |counts| >= 1 && p + |names| <= |frames|
    requires forall j :: 0 <= j < |names| ==> frames[p + j] == SubReply(kind, names[j], counts[j])
    ensures var n := |names|;
            var c := Route(frames, p, Some(n));
            && c == CmdStep(Reply(frames[p + n - 1]), p + n, None, [])
            && ReplyCount(c.reply) == Success(counts[n - 1])
  {
    var n := |names|;
    forall j | p <= j < p + n
      ensures ErrorOf(frames[j]).None?
    {
      assert frames[p + (j - p)] == SubReply(kind, names[j - p], counts[j - p]);
    }
    ReadConsumesExactly(frames, p, n);
    assert frames[p + (n - 1)] == SubReply(kind, names[n - 1], counts[n - 1]);
  }

  /** Subscribing to "foo" and "bar", with the broker answering 1 then 2 and then
      pushing "hi" on "foo": the call reports 2, and the next frame the driver reads goes
      to the push side, where it decodes to the publish of "hi" on "foo". */
  lemma SubscribeThenPublish()
    ensures var frames := [SubReply("subscribe", "foo", 1), SubReply("subscribe", "bar", 2),
                           MessageFrame(Publish("hi", "foo"))];
            var call := Route(frames, 0, Some(2));
            var next := Route(frames, call.pos, call.slot);
            && ReplyCount(call.reply) == Success(2) && call.pushed == []
            && (forall f <- next.pushed :: IsPush(f))
            && DecodeAll(next.pushed) == [Publish("hi", "foo")]
  {
    var frames := [SubReply("subscribe", "foo", 1), SubReply("subscribe", "bar", 2),
                   MessageFrame(Publish("hi", "foo"))];
    SubscribeReportsLastCount(frames, 0, "subscribe", ["foo", "bar"], [1, 2]);
    ReadConsumesOne(frames, 2, None);
    DecodePushRoundTrip(Publish("hi", "foo"));
    var next := Route(frames, 2, None);
    assert next.pushed == [frames[2]] + Route(frames, 3, None).pushed;
    assert Route(frames, 3, None).pushed == [];
    assert next.pushed == [frames[2]];
    assert next.pushed[..0] == [];
  }

  /** As written, a push frame that reaches the reader before the replies of a command
      for two names takes the count: the drain swallows the first reply, the call reports
      that reply's count (1, not 2), the push never reaches the push side, and the second
      reply is left to be read as if it answered the next command. */
  lemma LeadingPushTakesCount(pub: Publish)
    ensures var frames := [MessageFrame(pub), SubReply("subscribe", "a", 1),
                           SubReply("subscribe", "b", 2)];
            var c := Route(frames, 0, Some(2));
            && c == CmdStep(Reply(frames[1]), 2, None, [])
            && ReplyCount(c.reply) == Success(1)
  {
    var frames := [MessageFrame(pub), SubReply("subscribe", "a", 1), SubReply("subscribe", "b", 2)];
    assert SkipTimeouts(frames, 0) == 0;
    DrainOutcome(frames, 1, 1, frames[0]);
    assert FirstFault(frames, 1, 1) == 2 by {
      assert FirstFault(frames, 1, 1) == FirstFault(frames, 2, 0);
    }
  }

  /** `Route` with the corrected read. */
  function RouteFixed(frames: seq<Frame>, p: nat, slot: Option<int>): (c: CmdStep)
    requires p <= |frames|
    ensures p <= c.pos <= |frames|
    decreases |frames| - p
  {
    var s := ReadSpecFixed(frames, p, slot);
    if s.reply.Reply? && IsPush(s.reply.m) then
      var c := RouteFixed(frames, s.pos, s.slot);
      CmdStep(c.reply, c.pos, c.slot, [s.reply.m] + c.pushed)
    else
      CmdStep(s.reply, s.pos, s.slot, [])
  }

  /** With the corrected read, push frames that arrive ahead of the n replies of a
      command all go to the push side, in order, and the call still consumes exactly the
      n replies and returns the last. */
  lemma {:induction false} RouteFixedDeliversPushes(frames: seq<Frame>, p: nat, np: nat, n: nat)
    requires n >= 1 && p + np + n <= |frames|
    requires forall j :: p <= j < p + np ==> IsPush(frames[j])
    requires forall j :: p + np <= j < p + np + n ==> ErrorOf(frames[j]).None? && !IsPush(frames[j])
    ensures RouteFixed(frames, p, Some(n))
              == CmdStep(Reply(frames[p + np + n - 1]), p + np + n, None, frames[p..p + np])
    decreases np
  {
    if np == 0 {
      assert SkipTimeouts(frames, p) == p;
      ReadConsumesExactly(frames, p, n);
    } else {
      IsPushShape(frames[p]);
      assert SkipTimeouts(frames, p) == p;
      RouteFixedDeliversPushes(frames, p + 1, np - 1, n);
      assert frames[p..p + np] == [frames[p]] + frames[p + 1..p + np];
    }
  }

  /** The connection as a subscribe-family caller sees it: the client with its count
      slot, the connection, the push frames the driver has routed to the push side so
      far, and the delivery channel the decoding loop sends publishes on. */
  class PubSubCh {
    const i: MClient
    const conn: Socket
    var pushCh: seq<Frame>
    const publishCh: PublishCh

    /** Only frames classified as pushes reach the push side. */
    ghost predicate Valid()
      reads this, conn
    {
      conn.Valid() && forall f <- pushCh :: IsPush(f)
    }

    /** `DialTimeout`, past the dial: a client whose slot is empty, over `frames`, and an
        open delivery channel. */
    constructor (frames: seq<Frame>)
      ensures fresh(i) && fresh(conn) && fresh(publishCh) && Valid()
      ensures i.readCount == None && conn.frames == frames && conn.pos == 0
      ensures conn.sent == [] && pushCh == []
      ensures publishCh.sent == [] && !publishCh.closed
    {
      i := new MClient();
      conn := new Socket(frames);
      pushCh := [];
      publishCh := new PublishCh();
    }

    /** `conn.Cmd(args)`: write the command, then read until its reply arrives, passing
        push frames to the push side. A failed write or read is returned as the error. */
    method Cmd(args: seq<string>, encodeErr: Option<string>) returns (r: ReadReply)
      requires Valid()
      modifies this, i, conn
      ensures Valid()
      ensures conn.sent == if encodeErr.Some? then old(conn.sent) else old(conn.sent) + [args]
      ensures encodeErr.Some? ==>
                r == Fatal(Fault(encodeErr.value)) && conn.pos == old(conn.pos)
                && i.readCount == old(i.readCount) && pushCh == old(pushCh)
      ensures encodeErr.None? ==>
                var c := Route(conn.frames, old(conn.pos), old(i.readCount));
                r == c.reply && conn.pos == c.pos && i.readCount == c.slot
                && pushCh == old(pushCh) + c.pushed
    {
      var err, close := i.Write(conn, args, encodeErr);
      if close {
        return Fatal(err.value);
      }
      ghost var frames, p0, slot0 := conn.frames, conn.pos, i.readCount;
      ghost var diverted: seq<Frame> := [];
      r := i.Read(conn);
      while r.Reply? && IsPush(r.m)
        invariant conn.Valid() && conn.frames == frames
        invariant conn.sent == old(conn.sent) + [args]
        invariant pushCh == old(pushCh) + diverted
        invariant forall f <- pushCh :: IsPush(f)
        invariant var rest := if r.Reply? && IsPush(r.m)
                              then var c := Route(frames, conn.pos, i.readCount);
                                   CmdStep(c.reply, c.pos, c.slot, [r.m] + c.pushed)
                              else CmdStep(r, conn.pos, i.readCount, []);
                  Route(frames, p0, slot0) == rest.(pushed := diverted + rest.pushed)
        decreases |frames| - conn.pos + (if r.Reply? then 1 else 0)
      {
        pushCh := pushCh + [r.m];
        diverted := diverted + [r.m];
        r := i.Read(conn);
      }
    }

    /** `subUnsubGen`: prime the slot with the number of names, send the command
        followed by the names, and report the count from element 2 of its reply. */
    method SubUnsubGen(cmd: string, args: seq<string>, encodeErr: Option<string>)
      returns (count: int64, err: Option<Error>)
      requires Valid() && i.readCount.None?
      modifies this, i, conn
      ensures Valid()
      ensures encodeErr.None? ==>
                |conn.sent| == |old(conn.sent)| + 1 && conn.sent[..|old(conn.sent)|] == old(conn.sent)
                && var full := conn.sent[|conn.sent| - 1];
                   |full| == |args| + 1 && full[0] == cmd && full[1..] == args
      ensures encodeErr.Some? ==>
                count == 0 && err == Some(Fault(encodeErr.value)) && conn.sent == old(conn.sent)
                && conn.pos == old(conn.pos) && i.readCount == Some(|args|) && pushCh == old(pushCh)
      ensures encodeErr.None? ==>
                var c := Route(conn.frames, old(conn.pos), Some(|args|));
                (count, err) == AsPair(ReplyCount(c.reply))
                && conn.pos == c.pos && i.readCount == c.slot && pushCh == old(pushCh) + c.pushed
    {
      var fullArgs := [cmd] + args;
      i.SendReadCount(|args|);
      var r := Cmd(fullArgs, encodeErr);
      if r.Fatal? {
        return 0, Some(r.err);
      }
      var arr := AsArray(r.m);
      if arr.Failure? {
        return 0, Some(arr.error);
      }
      if |arr.value| < 3 {
        return 0, Some(UnknownReturn(arr.value));
      }
      var n := AsInt64(arr.value[2]);
      count, err := AsPair(n).0, AsPair(n).1;
    }

    /** `Subscribe`: SUBSCRIBE followed by the channels, as given. */
    method Subscribe(channels: seq<string>, encodeErr: Option<string>)
      returns (count: int64, err: Option<Error>)
      requires Valid() && i.readCount.None?
      modifies this, i, conn
      ensures Valid()
      ensures encodeErr.Some? ==>
                count == 0 && err == Some(Fault(encodeErr.value)) && conn.sent == old(conn.sent)
                && conn.pos == old(conn.pos) && i.readCount == Some(|channels|) && pushCh == old(pushCh)
      ensures encodeErr.None? ==>
                var c := Route(conn.frames, old(conn.pos), Some(|channels|));
                conn.sent == old(conn.sent) + [["SUBSCRIBE"] + channels]
                && (count, err) == AsPair(ReplyCount(c.reply))
                && conn.pos == c.pos && i.readCount == c.slot && pushCh == old(pushCh) + c.pushed
    {
      count, err := SubUnsubGen("SUBSCRIBE", channels, encodeErr);
      assert encodeErr.None? ==> conn.sent[|conn.sent| - 1] == ["SUBSCRIBE"] + channels;
    }

    /** `Unsubscribe`: UNSUBSCRIBE followed by the channels, at least one of them. */
    method Unsubscribe(channels: seq<string>, encodeErr: Option<string>)
      returns (count: int64, err: Option<Error>)
      requires |channels| >= 1
      requires Valid() && i.readCount.None?
      modifies this, i, conn
      ensures Valid()
      ensures encodeErr.Some? ==>
                count == 0 && err == Some(Fault(encodeErr.value)) && conn.sent == old(conn.sent)
                && conn.pos == old(conn.pos) && i.readCount == Some(|channels|) && pushCh == old(pushCh)
      ensures encodeErr.None? ==>
                var c := Route(conn.frames, old(conn.pos), Some(|channels|));
                conn.sent == old(conn.sent) + [["UNSUBSCRIBE"] + channels]
                && (count, err) == AsPair(ReplyCount(c.reply))
                && conn.pos == c.pos && i.readCount == c.slot && pushCh == old(pushCh) + c.pushed
    {
      count, err := SubUnsubGen("UNSUBSCRIBE", channels, encodeErr);
      assert encodeErr.None? ==> conn.sent[|conn.sent| - 1] == ["UNSUBSCRIBE"] + channels;
    }

    /** `PSubscribe`: PSUBSCRIBE followed by the patterns, as given. */
    method PSubscribe(patterns: seq<string>, encodeErr: Option<string>)
      returns (count: int64, err: Option<Error>)
      requires Valid() && i.readCount.None?
      modifies this, i, conn
      ensures Valid()
      ensures encodeErr.Some? ==>
                count == 0 && err == Some(Fault(encodeErr.value)) && conn.sent == old(conn.sent)
                && conn.pos == old(conn.pos) && i.readCount == Some(|patterns|) && pushCh == old(pushCh)
      ensures encodeErr.None? ==>
                var c := Route(conn.frames, old(conn.pos), Some(|patterns|));
                conn.sent == old(conn.sent) + [["PSUBSCRIBE"] + patterns]
                && (count, err) == AsPair(ReplyCount(c.reply))
                && conn.pos == c.pos && i.readCount == c.slot && pushCh == old(pushCh) + c.pushed
    {
      count, err := SubUnsubGen("PSUBSCRIBE", patterns, encodeErr);
      assert encodeErr.None? ==> conn.sent[|conn.sent| - 1] == ["PSUBSCRIBE"] + patterns;
    }

    /** `PUnsubscribe`: PUNSUBSCRIBE followed by the patterns, at least one of them. */
    method PUnsubscribe(patterns: seq<string>, encodeErr: Option<string>)
      returns (count: int64, err: Option<Error>)
      requires |patterns| >= 1
      requires Valid() && i.readCount.None?
      modifies this, i, conn
      ensures Valid()
      ensures encodeErr.Some? ==>
                count == 0 && err == Some(Fault(encodeErr.value)) && conn.sent == old(conn.sent)
                && conn.pos == old(conn.pos) && i.readCount == Some(|patterns|) && pushCh == old(pushCh)
      ensures encodeErr.None? ==>
                var c := Route(conn.frames, old(conn.pos), Some(|patterns|));
                conn.sent == old(conn.sent) + [["PUNSUBSCRIBE"] + patterns]
                && (count, err) == AsPair(ReplyCount(c.reply))
                && conn.pos == c.pos && i.readCount == c.slot && pushCh == old(pushCh) + c.pushed
    {
      count, err := SubUnsubGen("PUNSUBSCRIBE", patterns, encodeErr);
      assert encodeErr.None? ==> conn.sent[|conn.sent| - 1] == ["PUNSUBSCRIBE"] + patterns;
    }

    /** `Close`: closing the connection ends the push frames, so the decoding loop sends
        the publishes of every push frame routed so far, in order, and then closes the
        delivery channel. */
    method Close()
      requires Valid() && !publishCh.closed
      modifies publishCh
      ensures publishCh.closed && publishCh.sent == old(publishCh.sent) + DecodeAll(pushCh)
    {
      RunDecoder(pushCh, publishCh);
    }
  }

  /** Calls are made one after another: a subscribe that got its count leaves the slot
      empty, so a second subscribe can follow it, and one that also gets its count
      leaves the slot empty again. */
  method SubscribeTwice(ps: PubSubCh, first: seq<string>, second: seq<string>)
    returns (e1: Option<Error>, e2: Option<Error>)
    requires ps.Valid() && ps.i.readCount.None?
    modifies ps, ps.i, ps.conn
    ensures ps.Valid()
    ensures e1.None? && e2.None? ==> ps.i.readCount.None?
  {
    var c1, c2;
    c1, e1 := ps.Subscribe(first, None);
    RouteSeparates(ps.conn.frames, old(ps.conn.pos), Some(|first|));
    if e1.None? {
      ghost var p1 := ps.conn.pos;
      c2, e2 := ps.Subscribe(second, None);
      RouteSeparates(ps.conn.frames, p1, Some(|second|));
    } else {
      e2 := e1;
    }
  }
}
