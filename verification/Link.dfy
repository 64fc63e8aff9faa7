/** One connection of the dial-home link as a nondeterministic state machine.

    Every goroutine of a connection (the read loop, the writer, the heartbeat and one
    goroutine per request) is a program counter; a `Step` names which of them moves and
    what the outside world answers. The panel may send any frame at any time. Requests
    are numbered by arrival, so the model does not assume that the panel picks fresh ids:
    that is the separate hypothesis `DistinctIds`. */
module Link {
  import opened Common
  import opened Envelope

  /** Capacity of the outbound queue. */
  const QUEUE_CAP := 64

  /** `streamOps` maps each streaming op to whether its handler is known to stop emitting
      before it returns; the console's handler, which leaves its pumps running, is not.
      `encodable` says which frames the writer manages to marshal. */
  datatype Config = Config(
    streamOps: map<string, bool>,
    maxConcurrent: nat,
    maxStreams: nat,
    encodable: Frame -> bool)

  /** Defaulting leaves both pools non-empty. */
  predicate ValidConfig(c: Config) { c.maxConcurrent > 0 && c.maxStreams > 0 }

  /** Where a request goroutine stands. A carried `panic` is the error frame it still owes. */
  datatype Pc =
    | Waiting                          // for a slot of its pool
    | Running                          // slot held, inside Dispatch or the stream handler
    | Emitting(chunk: Frame)           // blocked in emit
    | Replying(reply: Frame)           // blocked sending its terminal frame
    | Releasing(panic: Option<Frame>)  // deferred: give the slot back
    | Leaving(panic: Option<Frame>)    // deferred: drop the inflight entry
    | Cancelling(panic: Option<Frame>) // deferred: cancel the request context
    | PanicReply(reply: Frame)         // blocked sending the frame of a recovered panic
    | Finished

  /** How the request ended, recorded for the specification only. */
  datatype Outcome = Open | Replied | GaveUp | Dropped

  datatype Req = Req(
    id: string,
    stream: bool,
    joins: bool,
    pc: Pc,
    asked: bool,      // a cancel frame reached its context
    closed: bool,     // its own deferred cancel ran
    outcome: Outcome)

  /** A queued frame and the request goroutine that queued it. */
  datatype Entry = Entry(owner: Option<nat>, frame: Frame)

  datatype Reader = Reading | Handling(frame: Frame) | ReaderGone

  datatype Writer = Taking | Writing(entry: Entry) | WriterGone

  /** `log`, `taken` and `cancelIds` are history variables: everything ever queued,
      everything ever dequeued, and the ids named by handled cancel frames. */
  datatype State = State(
    reqs: seq<Req>,
    inflight: map<string, nat>,
    unarySlots: nat,
    streamSlots: nat,
    out: seq<Entry>,
    wire: seq<Entry>,
    reader: Reader,
    writer: Writer,
    done: bool,
    log: seq<Entry>,
    taken: seq<Entry>,
    cancelIds: set<string>)

  function Init(): State {
    State([], map[], 0, 0, [], [], Reading, Taking, false, [], [], {})
  }

  /** What a unary dispatch produces. */
  datatype UnaryOutcome =
    | BadPayload(detail: string)
    | EncodeFailed(detail: string)
    | Answered(payload: Option<string>)

  /** The moves of one request goroutine. `StartEmit` and `LateEmit` are inputs: the
      handler, or a goroutine it leaked, decides to emit. */
  datatype Action =
    | Acquire
    | GiveUp
    | Answer(result: UnaryOutcome)
    | StartEmit(payload: Option<string>)
    | PushChunk
    | DropChunk
    | Return(failure: Option<string>)
    | Panic(detail: string)
    | PushReply
    | DropReply
    | Release
    | Unregister
    | CancelCtx
    | PushPanic
    | DropPanic
    | LateEmit(payload: Option<string>)

  /** `Read`, `CancelParent` and `Heartbeat` are inputs too. */
  datatype Step =
    | Read(frame: Frame)              // a decoded text frame arrives
    | Handle                          // the read loop acts on it
    | ReadFail                        // the socket read fails
    | CancelParent                    // the daemon shuts the link down
    | CancelConn                      // serveOnce cancels after the read loop
    | Heartbeat(beat: Option<string>)
    | Act(g: nat, action: Action)
    | Take
    | WriteOk
    | WriteFail
    | WriterExit

  /** The request context is done: the panel cancelled it, its own cleanup ran, or the
      connection context it derives from is done. */
  predicate CtxDone(s: State, g: nat)
    requires g < |s.reqs|
  {
    s.reqs[g].asked || s.reqs[g].closed || s.done
  }

  predicate HasRoom(s: State) { |s.out| < QUEUE_CAP }

  /** The goroutine has left its handler after having entered it. */
  predicate Returned(r: Req) {
    r.outcome != GaveUp &&
    (r.pc.Replying? || r.pc.Releasing? || r.pc.Leaving? || r.pc.Cancelling? || r.pc.PanicReply? || r.pc.Finished?)
  }

  /** What the goroutine of `r` may do next, given whether its own context and the
      connection's context are done. Room in the queue and free slots are checked apart. */
  predicate CanAct(r: Req, a: Action, ctxDone: bool, connDone: bool) {
    match a
    case Acquire => r.pc.Waiting?
    case GiveUp => r.pc.Waiting? && ctxDone
    case Answer(_) => r.pc.Running? && !r.stream
    case StartEmit(_) => r.pc.Running? && r.stream
    case PushChunk => r.pc.Emitting?
    case DropChunk => r.pc.Emitting? && ctxDone
    case Return(_) => r.pc.Running? && r.stream
    case Panic(_) => r.pc.Running?
    case PushReply => r.pc.Replying?
    case DropReply => r.pc.Replying? && connDone
    case Release => r.pc.Releasing?
    case Unregister => r.pc.Leaving?
    case CancelCtx => r.pc.Cancelling?
    case PushPanic => r.pc.PanicReply?
    case DropPanic => r.pc.PanicReply? && connDone
    case LateEmit(_) => r.stream && !r.joins && Returned(r)
  }

  /** The frame a move queues, if any. */
  function Queues(r: Req, a: Action): Option<Frame> {
    match a
    case PushChunk => if r.pc.Emitting? then Some(r.pc.chunk) else None
    case PushReply => if r.pc.Replying? then Some(r.pc.reply) else None
    case PushPanic => if r.pc.PanicReply? then Some(r.pc.reply) else None
    case LateEmit(p) => Some(ChunkFrame(r.id, p))
    case _ => None
  }

  function UnaryReply(id: string, outcome: UnaryOutcome): Frame {
    match outcome
    case BadPayload(d) => ErrorFrame(id, BadRequest, "bad control request: " + d)
    case EncodeFailed(d) => ErrorFrame(id, Internal, "encode response: " + d)
    case Answered(p) => ResultFrame(id, p)
  }

  /** A handler whose context is done is closed with a plain result, whatever it returned. */
  function StreamReply(id: string, ctxDone: bool, failure: Option<string>): Frame {
    if ctxDone || failure.None? then ResultFrame(id, None) else ErrorFrame(id, Internal, failure.value)
  }

  function PanicFrame(r: Req, detail: string): Frame {
    ErrorFrame(r.id, Internal, (if r.stream then "stream panic: " else "dispatch panic: ") + detail)
  }

  /** The goroutine after its move. The deferred functions run last-in first-out: the slot
      is released, then the table entry dropped, then the context cancelled, and only then
      is a recovered panic reported. */
  function Moved(r: Req, a: Action, ctxDone: bool, connDone: bool): Req
    requires CanAct(r, a, ctxDone, connDone)
  {
    match a
    case Acquire => r.(pc := Running)
    case GiveUp => r.(pc := Leaving(None), outcome := GaveUp)
    case Answer(result) => r.(pc := Replying(UnaryReply(r.id, result)))
    case StartEmit(p) => r.(pc := Emitting(ChunkFrame(r.id, p)))
    case PushChunk => r.(pc := Running)
    case DropChunk => r.(pc := Running)
    case Return(failure) => r.(pc := Replying(StreamReply(r.id, ctxDone, failure)))
    case Panic(d) => r.(pc := Releasing(Some(PanicFrame(r, d))))
    case PushReply => r.(pc := Releasing(None), outcome := Replied)
    case DropReply => r.(pc := Releasing(None), outcome := Dropped)
    case Release => r.(pc := Leaving(r.pc.panic))
    case Unregister => r.(pc := Cancelling(r.pc.panic))
    case CancelCtx =>
      r.(pc := if r.pc.panic.Some? then PanicReply(r.pc.panic.value) else Finished, closed := true)
    case PushPanic => r.(pc := Finished, outcome := Replied)
    case DropPanic => r.(pc := Finished, outcome := Dropped)
    case LateEmit(_) => r
  }

  /** Tokens taken from the pool of `r`'s kind. */
  function Taken(s: State, r: Req): nat { if r.stream then s.streamSlots else s.unarySlots }

  function Capacity(c: Config, r: Req): nat { if r.stream then c.maxStreams else c.maxConcurrent }

  predicate Enabled(c: Config, s: State, step: Step) {
    match step
    case Read(_) => s.reader.Reading?
    case Handle => s.reader.Handling?
    case ReadFail => s.reader.Reading?
    case CancelParent => !s.done
    case CancelConn => !s.done && s.reader.ReaderGone?
    case Heartbeat(_) => HasRoom(s)
    case Act(g, a) =>
      && g < |s.reqs|
      && var r := s.reqs[g];
      && CanAct(r, a, CtxDone(s, g), s.done)
      && (Queues(r, a).Some? ==> HasRoom(s))
      && (a.Acquire? ==> Taken(s, r) < Capacity(c, r))
      && (a.Release? ==> Taken(s, r) > 0)
    case Take => s.writer.Taking? && |s.out| > 0
    case WriteOk => s.writer.Writing?
    case WriteFail => s.writer.Writing?
    case WriterExit => s.writer.Taking? && s.done
  }

  function Push(s: State, owner: Option<nat>, frame: Frame): State {
    s.(out := s.out + [Entry(owner, frame)], log := s.log + [Entry(owner, frame)])
  }

  function Slots(s: State, r: Req, a: Action): (nat, nat)
    requires a.Release? ==> Taken(s, r) > 0
  {
    var d := if a.Acquire? then 1 else if a.Release? then -1 else 0;
    if r.stream then (s.unarySlots, s.streamSlots + d) else (s.unarySlots + d, s.streamSlots)
  }

  /** One move of request `g`: its goroutine, its pool, the table and the queue. */
  function OnAct(s: State, g: nat, a: Action): State
    requires g < |s.reqs| && CanAct(s.reqs[g], a, CtxDone(s, g), s.done)
    requires a.Release? ==> Taken(s, s.reqs[g]) > 0
  {
    var r := s.reqs[g];
    var slots := Slots(s, r, a);
    var t := s.(
      reqs := s.reqs[g := Moved(r, a, CtxDone(s, g), s.done)],
      unarySlots := slots.0,
      streamSlots := slots.1,
      inflight := if a.Unregister? then s.inflight - {r.id} else s.inflight);
    match Queues(r, a)
    case Some(f) => Push(t, Some(g), f)
    case None => t
  }

  function NewReq(c: Config, f: Frame): Req {
    var stream := f.op in c.streamOps;
    Req(f.id, stream, stream && c.streamOps[f.op], Waiting, false, false, Open)
  }

  /** The read loop on one decoded frame: a frame that fails validation is dropped, a
      request is registered and spawned, a cancel fires the registered context, and any
      other kind is ignored. */
  function OnFrame(c: Config, s: State, f: Frame): State
    requires forall id <- s.inflight :: s.inflight[id] < |s.reqs|
  {
    if !Validate(f) then s
    else if f.kind.Request? then
      s.(reqs := s.reqs + [NewReq(c, f)], inflight := s.inflight[f.id := |s.reqs|])
    else if f.kind.Cancel? then
      var t := s.(cancelIds := s.cancelIds + {f.id});
      if f.id in s.inflight then
        var g := s.inflight[f.id];
        t.(reqs := s.reqs[g := s.reqs[g].(asked := true)])
      else t
    else s
  }

  /** Entries of the table always name a spawned request. */
  predicate TableBounded(s: State) {
    forall id <- s.inflight :: s.inflight[id] < |s.reqs|
  }

  function Apply(c: Config, s: State, step: Step): State
    requires TableBounded(s) && Enabled(c, s, step)
  {
    match step
    case Read(f) => s.(reader := Handling(f))
    case Handle => OnFrame(c, s, s.reader.frame).(reader := Reading)
    case ReadFail => s.(reader := ReaderGone)
    case CancelParent => s.(done := true)
    case CancelConn => s.(done := true)
    case Heartbeat(p) => Push(s, None, EventFrame("heartbeat", p))
    case Act(g, a) => OnAct(s, g, a)
    case Take =>
      var t := s.(out := s.out[1..], taken := s.taken + [s.out[0]]);
      if c.encodable(s.out[0].frame) then t.(writer := Writing(s.out[0])) else t
    case WriteOk => s.(wire := s.wire + [s.writer.entry], writer := Taking)
    case WriteFail => s.(writer := WriterGone)
    case WriterExit => s.(writer := WriterGone)
  }

  // ---------------------------------------------------------------- runs

  ghost predicate CanRun(c: Config, s: State, steps: seq<Step>)
    decreases |steps|
  {
    TableBounded(s) &&
    (steps != [] ==> Enabled(c, s, steps[0]) && CanRun(c, Apply(c, s, steps[0]), steps[1..]))
  }

  ghost function Run(c: Config, s: State, steps: seq<Step>): State
    requires CanRun(c, s, steps)
    decreases |steps|
  {
    if steps == [] then s else Run(c, Apply(c, s, steps[0]), steps[1..])
  }

  /** The panel never reuses a request id on this connection. */
  ghost predicate DistinctIds(s: State) {
    forall g, h :: 0 <= g < h < |s.reqs| ==> s.reqs[g].id != s.reqs[h].id
  }
}
