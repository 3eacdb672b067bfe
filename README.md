# pubsubch in Dafny

A model of the Go client `pubsubch`, which runs Redis publish/subscribe over one
connection. Replies to SUBSCRIBE, UNSUBSCRIBE, PSUBSCRIBE and PUNSUBSCRIBE share that
connection with the messages the broker pushes on subscribed channels. The client keeps
the two apart with two mechanisms:

- **Reply counting.** A one-item channel, `ReadCountCh`, holds the number of reply frames
  a command is owed. `Read` skips read timeouts before the first frame. It then takes the
  count and reads the rest of the owed frames, returning the last one. Any other failure
  closes the connection.
- **Push classification.** `IsPush` marks frames tagged `"message"`. The connection driver
  sends those frames to a decoding loop, which turns them into `Publish` records on
  `PublishCh`.

Modules:

- `Wrappers`: `Option` and `Result`.
- `Resp`: the decoded frames (`Array`, `Str`, `Int`, `Err`, `Nil`, `Timeout`), the errors,
  the radix.v2 coercions `Array()`, `Str()` and `Int64()`, and the connection.
  - The connection is the class `Socket`: the frames the broker will send (`seq<Frame>`),
    the read position, and the commands written so far.
  - A read past the last frame yields an end-of-stream error frame.
- `Inner` (inner/inner.go):
  - the class `MClient`. Its count slot is an `Option<int>` field. Its methods are
    `SendReadCount`, `GetReadCount`, `Read` and `Write`.
  - `Read` is proved against the specification function `ReadSpec`, built from
    `SkipTimeouts` and `Drain`.
  - the lemmas that say exactly how many frames a read consumes.
  - `IsPush`.
- `PubSub` (pubsubch.go):
  - the `Publish` record.
  - the decoding loop `RunDecoder`, proved against `DecodeAll`, over the delivery channel
    `PublishCh`.
  - the session class `PubSubCh`, with `SubUnsubGen` and the four public commands.
  - `Route`. It stands for the connection driver's `Cmd`: write, then read until a frame
    that is not a push arrives, while the push frames go to the push side.

A later variant of this client also treats `"pmessage"` frames as pushes, taking channel
and message from elements 2 and 3. This model follows the code modelled here instead.
- It recognises only `"message"` (inner/inner.go:69).
- It always takes the channel from element 1 and the message from element 2
  (pubsubch.go:59-63).
- `PatternMessageIsNotPush` records this.
- This code has no ping operation.

`Err` frames are fatal. radix.v2 sets a frame's error both for an error reply from the
broker and for an I/O failure, and `Read` treats either as fatal.

## Model

| member | source | states |
|---|---|---|
| `Resp.Socket.Next` | inner/inner.go:32-35 | a read yields the frame at the reader's position and advances past it; past the last frame it yields an end-of-stream error and stays put |
| `Inner.IsPushShape` | inner/inner.go:57-70 | `IsPush` never fails and holds exactly for an array of at least three elements whose element 0 is the string "message" |
| `Inner.PatternMessageIsNotPush` | inner/inner.go:69 | a "pmessage" frame is not classified as a push |
| `Inner.MClient.constructor` | pubsubch.go:46-48 | a new client starts with an empty count slot |
| `Inner.MClient.SendReadCount` | pubsubch.go:88 | the send puts the count into the empty slot |
| `Inner.MClient.GetReadCount` | inner/inner.go:20-27 | returns the slot's value and leaves it empty; with an empty slot it returns 0 and the slot stays empty |
| `Inner.MClient.Read` | inner/inner.go:30-54 | the reply, the new read position and the new slot are exactly those `ReadSpec` gives for the old position and slot |
| `Inner.MClient.Write` | inner/inner.go:73-78 | close is true exactly when the encoder reports an error, which is returned; otherwise no error, no close, and the command is sent |
| `Inner.SkipTimeouts` | inner/inner.go:34-37 | the first position from the start that holds no timeout: everything skipped is a timeout |
| `Inner.FirstFault` | inner/inner.go:44-50 | the first read in a window that fails, or the end of the window; every read before it succeeds |
| `Inner.Drain` | inner/inner.go:44-50 | the drain never moves the reader backwards or past the end of the frames |
| `Inner.DrainOutcome` | inner/inner.go:44-50 | draining i frames returns the i-th when none of them fails; otherwise the first failure is fatal and the reader stops just past it |
| `Inner.ReadSpec` | inner/inner.go:30-54 | a read never moves the reader backwards; a successful read consumes at least one frame and returns a frame without an error |
| `Inner.ReadOutcome` | inner/inner.go:30-54 | after the timeouts, a read consumes the slot's count of frames and returns the last, exactly when all of them read without error. Otherwise the first failure is fatal. The slot is emptied unless the very first frame fails |
| `Inner.ReadSkipsTimeout` | inner/inner.go:34-37 | a timeout before the first frame changes nothing: the read equals the one starting after it |
| `Inner.ReadConsumesExactly` | inner/inner.go:42-53 | with n >= 1 in the slot and n frames that read cleanly, the read consumes exactly n frames, returns the n-th and empties the slot |
| `Inner.ReadConsumesOne` | inner/inner.go:42-53 | with an empty slot or a count of at most 1, the read consumes exactly one frame, returns it and leaves the slot empty |
| `Inner.ReadFirstFrameFatal` | inner/inner.go:38-39 | an error on the first frame is returned as fatal, and the slot is unchanged |
| `Inner.ReadDrainFailureFatal` | inner/inner.go:44-49 | a failing read during the drain, a timeout included, is fatal: the read stops just past it and the slot is empty |
| `Inner.ReadSpecFixed` | inner/inner.go:34-53 | the corrected read never moves backwards and consumes a frame whenever it succeeds |
| `PubSub.DecodePushFields` | pubsubch.go:57-67 | a push frame decodes exactly when elements 1 and 2 are strings, into a record whose channel is element 1 and whose message is element 2 |
| `PubSub.DecodePushRoundTrip` | pubsubch.go:21-24 | decoding the broker's frame for a publish gives the publish back |
| `PubSub.DecodeAllLength` | pubsubch.go:56-68 | the loop sends at most as many records as it receives frames |
| `PubSub.DecodeAllAppend` | pubsubch.go:56-68 | decoding goes frame by frame, so the output for two stretches of input is the concatenation of their outputs |
| `PubSub.DecodeAllDropsMalformed` | pubsubch.go:59-66 | a frame with a non-string channel or message is dropped, and later frames are still decoded |
| `PubSub.DecodeAllRoundTrip` | pubsubch.go:56-68 | decoding the broker's frames for a sequence of publishes gives that sequence back, in order |
| `PubSub.PublishCh.constructor` | pubsubch.go:54 | the delivery channel starts open and empty |
| `PubSub.PublishCh.Send` | pubsubch.go:67 | a send on the open channel appends one record |
| `PubSub.PublishCh.Close` | pubsubch.go:69 | closing an open channel keeps what was sent; a second close is excluded |
| `PubSub.RunDecoder` | pubsubch.go:55-70 | every push frame is decoded in order and the records are sent; then the delivery channel is closed, once, after all of them |
| `PubSub.Route` | pubsubch.go:89 | a command call never moves the reader backwards or past the end of the frames |
| `PubSub.RouteSeparates` | inner/inner.go:56-70 | a command's reply is never a push frame, everything routed to the push side is one, and a call that got its reply leaves the slot empty |
| `PubSub.ExtractCount` | pubsubch.go:93-100 | success exactly for an array of at least three elements whose element 2 is an integer, giving that integer; a shorter array gives an unknown-return error; a non-array gives a type error |
| `PubSub.SubscribeReportsLastCount` | pubsubch.go:84-101 | for N names answered by N replies, the call consumes exactly those N frames, routes nothing to the push side, and reports the N-th reply's count |
| `PubSub.SubscribeThenPublish` | pubsubch.go:55-104 | subscribing to foo and bar with replies 1 and 2 reports 2; the push that follows decodes to the publish of "hi" on foo |
| `PubSub.LeadingPushTakesCount` | inner/inner.go:42-53 | as written, a push that arrives before the two replies of a command takes the count. The call reports the first reply's count, and the push is lost |
| `PubSub.RouteFixed` | inner/inner.go:42-53 | the corrected command call never moves the reader backwards or past the end |
| `PubSub.RouteFixedDeliversPushes` | inner/inner.go:42-53 | with the corrected read, pushes ahead of the n replies all reach the push side in order. The call still consumes exactly the n replies and returns the last |
| `PubSub.PubSubCh.constructor` | pubsubch.go:46-76 | a new connection has an empty slot, an unread connection, nothing sent, no push frames and an open, empty delivery channel |
| `PubSub.PubSubCh.Cmd` | pubsubch.go:89 | a failed write returns its error and reads nothing. Otherwise the reply, reader position, slot and pushed frames are those `Route` gives. Only push frames ever reach the push side |
| `PubSub.PubSubCh.SubUnsubGen` | pubsubch.go:84-101 | sends the command followed by the arguments in order (length len(args)+1, the command at index 0). The slot receives len(args) first. The count, or (0, error), is taken from element 2 of the reply |
| `PubSub.PubSubCh.Subscribe` | pubsubch.go:103-105 | sends SUBSCRIBE followed by the channels unchanged, with the slot primed to their number. It reports the count of the last reply, or (0, error). The new reader position, slot and push frames are those of the call. After an encoder error nothing is sent or read, and the count stays in the slot |
| `PubSub.PubSubCh.Unsubscribe` | pubsubch.go:107-111 | requires at least one channel; sends UNSUBSCRIBE followed by the channels unchanged, with the slot primed to their number. It reports the count of the last reply, or (0, error). The new reader position, slot and push frames are those of the call. After an encoder error nothing is sent or read, and the count stays in the slot |
| `PubSub.PubSubCh.PSubscribe` | pubsubch.go:113-115 | sends PSUBSCRIBE followed by the patterns unchanged, with the slot primed to their number. It reports the count of the last reply, or (0, error). The new reader position, slot and push frames are those of the call. After an encoder error nothing is sent or read, and the count stays in the slot |
| `PubSub.PubSubCh.PUnsubscribe` | pubsubch.go:117-121 | requires at least one pattern; sends PUNSUBSCRIBE followed by the patterns unchanged, with the slot primed to their number. It reports the count of the last reply, or (0, error). The new reader position, slot and push frames are those of the call. After an encoder error nothing is sent or read, and the count stays in the slot |
| `PubSub.PubSubCh.Close` | pubsubch.go:123-125 | closing the connection ends the push frames. The delivery channel then receives the publishes of every push frame routed so far, in order, and is closed once |
| `PubSub.SubscribeTwice` | pubsubch.go:26-28 | calls follow one another: a subscribe that got its count leaves the slot empty, so the next call can prime it |

## Left out

- The dial in `DialTimeout`, `Dial` and `DefaultTimeout` (pubsubch.go:41-53, 79-82). They are connection set-up and configuration. `PubSubCh.constructor` models only the state they create.
- `PubSub.PubSubCh.Close`: the decoding loop runs at close over every push frame routed so far. It does not interleave with the commands as the goroutine does. How manatcp closes its socket and push channel is not modelled.
- manatcp's `Conn.Cmd` and `PushCh` are modelled only as `Route`: write, then read until a frame that is not a push. Their goroutines, their queueing and how they close are not modelled.
- The decoding goroutine and the blocking sends on `PublishCh` are not modelled. The loop runs sequentially over a finite sequence of push frames.
- The RESP encoder and decoder (`redis.NewRespReader`, `redis.NewResp(...).WriteTo`) and `bufio` are foreign code. Frames are already-decoded values. An encoder failure is a parameter (`encodeErr`).
- `Resp.AsStr` and `Resp.AsInt64`: radix.v2's `Str()` and `Int64()` are not part of this model. `AsStr` succeeds only on string frames. `AsInt64` succeeds only on integer frames, and does not parse integers out of strings.
- `PubSub.ExtractCount`: the "Unknown return" error carries the array as a value, not its formatted text.
- `Inner.MClient.Write`: after an encoder error the model records nothing as sent, although part of the command may have reached the connection.
- `Inner.MClient.SendReadCount` and `PubSub.PubSubCh.SubUnsubGen` require an empty slot. In Go, a send to the full slot blocks forever. The slot stays full after a failed write or a fatal first frame, and the next call would then block.
- example/example.go is a demonstration program with no logic of its own.

## Findings

| source | as written | input that shows it | evidently intended | confidence | as-written member | corrected member |
|---|---|---|---|---|---|---|
| inner/inner.go:42-53 | `Read` takes the count for the first frame it reads, even a push | the slot holds 2 and the frames are: a "message" push, a subscribe reply with count 1, a subscribe reply with count 2 | a push frame that arrives ahead of a command's replies is returned on its own and leaves the count for those replies | medium, not executed; it relies on the driver reading push frames through `Read`, which it must, since it routes by `IsPush` | `PubSub.LeadingPushTakesCount` | `PubSub.RouteFixedDeliversPushes` |

In the as-written trace, the drain swallows the first reply, and the call reports count 1.
The push never reaches `PublishCh`. The second reply stays on the connection, where it
would be taken as the answer to the next command. `Inner.ReadSpecFixed` and
`PubSub.RouteFixed` are the corrected read and command call. They cover only pushes
that arrive ahead of the first reply. A push between two replies of the same command would
still be swallowed by the drain. Redis writes all the replies to one command back to back,
so this cannot happen with that broker. `Inner.MClient.Read` keeps the code's behaviour.
