/** What every reachable state of a connection satisfies: slot and table accounting, the
    order of the outbound queue, and the life of each request goroutine. */
module LinkInvariants {
  import opened Common
  import opened Envelope
  import opened Link

  // ---------------------------------------------------------------- slots

  ghost function Sum(reqs: seq<Req>, f: Req -> nat): nat {
    if reqs == [] then 0 else Sum(reqs[..|reqs| - 1], f) + f(reqs[|reqs| - 1])
  }

  lemma SumPush(reqs: seq<Req>, r: Req, f: Req -> nat)
    ensures Sum(reqs + [r], f) == Sum(reqs, f) + f(r)
  {
    assert (reqs + [r])[..|reqs|] == reqs;
  }

  lemma {:induction false} SumUpdate(reqs: seq<Req>, g: nat, r: Req, f: Req -> nat)
    requires g < |reqs|
    ensures Sum(reqs[g := r], f) + f(reqs[g]) == Sum(reqs, f) + f(r)
    decreases |reqs|
  {
    var n := |reqs| - 1;
    if g == n {
      assert reqs[g := r][..n] == reqs[..n];
    } else {
      assert reqs[g := r][..n] == reqs[..n][g := r];
      SumUpdate(reqs[..n], g, r, f);
    }
  }

  lemma {:induction false} SumBound(reqs: seq<Req>, g: nat, f: Req -> nat)
    requires g < |reqs|
    ensures f(reqs[g]) <= Sum(reqs, f)
    decreases |reqs|
  {
    if g < |reqs| - 1 {
      SumBound(reqs[..|reqs| - 1], g, f);
    }
  }

  lemma {:induction false} SumZero(reqs: seq<Req>, f: Req -> nat)
    requires forall r <- reqs :: f(r) == 0
    ensures Sum(reqs, f) == 0
    decreases |reqs|
  {
    if reqs != [] {
      SumZero(reqs[..|reqs| - 1], f);
    }
  }

  /** Between acquiring a slot and giving it back. */
  predicate Holding(r: Req) {
    r.pc.Running? || r.pc.Emitting? || r.pc.Replying? || r.pc.Releasing?
  }

  function HoldsUnary(r: Req): nat { if Holding(r) && !r.stream then 1 else 0 }

  function HoldsStream(r: Req): nat { if Holding(r) && r.stream then 1 else 0 }

  /** Tokens in each pool are exactly its goroutines between acquire and release. */
  ghost predicate SlotInv(c: Config, s: State) {
    && s.unarySlots == Sum(s.reqs, HoldsUnary) <= c.maxConcurrent
    && s.streamSlots == Sum(s.reqs, HoldsStream) <= c.maxStreams
  }

  // ---------------------------------------------------------------- table

  /** Not yet past the deferred removal from the table. */
  predicate Registered(r: Req) {
    !(r.pc.Cancelling? || r.pc.PanicReply? || r.pc.Finished?)
  }

  ghost predicate TableInv(s: State) {
    forall id <- s.inflight ::
      var g := s.inflight[id];
      g < |s.reqs| && s.reqs[g].id == id && Registered(s.reqs[g])
  }

  /** With distinct ids the table is exactly the set of requests not yet in cleanup. */
  ghost predicate TableExact(s: State) {
    forall g :: 0 <= g < |s.reqs| ==>
      (Registered(s.reqs[g]) <==> s.reqs[g].id in s.inflight && s.inflight[s.reqs[g].id] == g)
  }

  // ---------------------------------------------------------------- queue

  /** The frames the writer manages to marshal, in order. */
  function Marshalled(c: Config, es: seq<Entry>): seq<Entry> {
    if es == [] then []
    else Marshalled(c, es[..|es| - 1]) + (if c.encodable(es[|es| - 1].frame) then [es[|es| - 1]] else [])
  }

  /** The queue is a FIFO window of everything ever queued; the socket has carried what was
      taken from it, minus unencodable frames and at most the one frame being written. */
  ghost predicate QueueInv(c: Config, s: State) {
    && s.log == s.taken + s.out
    && |s.out| <= QUEUE_CAP
    && match s.writer
       case Taking => s.wire == Marshalled(c, s.taken)
       case Writing(e) => s.wire + [e] == Marshalled(c, s.taken)
       case WriterGone => s.wire <= Marshalled(c, s.taken) && |Marshalled(c, s.taken)| <= |s.wire| + 1
  }

  // ---------------------------------------------------------------- requests

  /** The frames one goroutine has queued, in order. */
  function Owned(log: seq<Entry>, g: nat): seq<Frame> {
    if log == [] then []
    else
      var e := log[|log| - 1];
      Owned(log[..|log| - 1], g) + (if e.owner == Some(g) then [e.frame] else [])
  }

  function Terminals(fs: seq<Frame>): nat {
    if fs == [] then 0
    else Terminals(fs[..|fs| - 1]) + (if IsTerminal(fs[|fs| - 1]) then 1 else 0)
  }

  /** `chunk*` followed by at most one terminal frame and nothing after it. */
  ghost predicate Grammar(fs: seq<Frame>) {
    && (forall i :: 0 <= i < |fs| - 1 ==> fs[i].kind.Chunk?)
    && (fs != [] ==> fs[|fs| - 1].kind.Chunk? || IsTerminal(fs[|fs| - 1]))
  }

  /** A frame the goroutine of `r` may queue. */
  predicate OwnFrame(r: Req, f: Frame) {
    && f.id == r.id && Validate(f)
    && (IsTerminal(f) || (f.kind.Chunk? && r.stream))
    && (f.err.Some? ==> f.err.value.code.BadRequest? || f.err.value.code.Internal?)
  }

  predicate OwnReply(r: Req, f: Frame) { OwnFrame(r, f) && IsTerminal(f) }

  predicate CarriedOk(r: Req) {
    match r.pc
    case Emitting(f) => r.stream && OwnFrame(r, f) && f.kind.Chunk?
    case Replying(f) => OwnReply(r, f)
    case PanicReply(f) => OwnReply(r, f)
    case Releasing(p) => p.Some? ==> OwnReply(r, p.value)
    case Leaving(p) => p.Some? ==> OwnReply(r, p.value)
    case Cancelling(p) => p.Some? ==> OwnReply(r, p.value)
    case _ => true
  }

  /** The reply is still owed exactly while the outcome is open. */
  predicate PhaseOk(r: Req) {
    match r.pc
    case Waiting => r.outcome.Open?
    case Running => r.outcome.Open?
    case Emitting(_) => r.outcome.Open?
    case Replying(_) => r.outcome.Open?
    case PanicReply(_) => r.outcome.Open?
    case Releasing(p) => (p.Some? <==> r.outcome.Open?) && !r.outcome.GaveUp?
    case Leaving(p) => p.Some? <==> r.outcome.Open?
    case Cancelling(p) => p.Some? <==> r.outcome.Open?
    case Finished => !r.outcome.Open?
  }

  /** The life of one request against the frames it has queued. */
  ghost predicate LifeOk(r: Req, fs: seq<Frame>, done: bool, cancelIds: set<string>) {
    && r.id != "" && CarriedOk(r) && PhaseOk(r)
    && (forall f <- fs :: OwnFrame(r, f))
    && Terminals(fs) == (if r.outcome.Replied? then 1 else 0)
    && (r.joins || !r.stream ==> Grammar(fs))
    && (r.pc.Waiting? || r.outcome.GaveUp? ==> fs == [])
    && (r.outcome.GaveUp? ==> r.asked || done)
    && (r.outcome.Dropped? ==> done)
    && (r.asked ==> r.id in cancelIds)
    && (r.closed ==> r.pc.PanicReply? || r.pc.Finished?)
  }

  ghost predicate LivesOk(s: State) {
    forall g :: 0 <= g < |s.reqs| ==> LifeOk(s.reqs[g], Owned(s.log, g), s.done, s.cancelIds)
  }

  /** Frames are queued by spawned requests, except heartbeat events. */
  ghost predicate LogOk(s: State) {
    forall e <- s.log ::
      match e.owner
      case Some(g) => g < |s.reqs|
      case None => e.frame.kind.Event? && e.frame.id == "" && e.frame.err.None? && Validate(e.frame)
  }

  ghost predicate Inv(c: Config, s: State) {
    SlotInv(c, s) && TableInv(s) && QueueInv(c, s) && LogOk(s) && LivesOk(s)
  }

  // ---------------------------------------------------------------- one move of a request

  lemma MoveKeeps(r: Req, a: Action, ctxDone: bool, connDone: bool)
    requires CanAct(r, a, ctxDone, connDone)
    ensures var m := Moved(r, a, ctxDone, connDone);
      m.stream == r.stream && m.joins == r.joins && m.id == r.id && m.asked == r.asked
  {
    hide UnaryReply, StreamReply, PanicFrame;
  }

  /** A move changes what its goroutine holds exactly as it changes its pool. */
  lemma MoveHolds(r: Req, a: Action, ctxDone: bool, connDone: bool)
    requires CanAct(r, a, ctxDone, connDone)
    ensures var m := Moved(r, a, ctxDone, connDone);
      && (a.Acquire? ==> !Holding(r) && Holding(m))
      && (a.Release? ==> Holding(r) && !Holding(m))
      && (!a.Acquire? && !a.Release? ==> (Holding(r) <==> Holding(m)))
  {
  }

  lemma MoveRegisters(r: Req, a: Action, ctxDone: bool, connDone: bool)
    requires CanAct(r, a, ctxDone, connDone)
    ensures var m := Moved(r, a, ctxDone, connDone);
      if a.Unregister? then Registered(r) && !Registered(m) else Registered(r) <==> Registered(m)
  {
  }

  lemma TerminalsAppend(fs: seq<Frame>, f: Frame)
    ensures Terminals(fs + [f]) == Terminals(fs) + (if IsTerminal(f) then 1 else 0)
  {
    assert (fs + [f])[..|fs|] == fs;
  }

  lemma {:induction false} NoTerminals(fs: seq<Frame>, i: nat)
    requires Terminals(fs) == 0 && i < |fs|
    ensures !IsTerminal(fs[i])
    decreases |fs|
  {
    if i < |fs| - 1 {
      NoTerminals(fs[..|fs| - 1], i);
    }
  }

  /** While the reply is owed only chunks have been queued, so one more frame fits. */
  lemma GrammarExtends(r: Req, fs: seq<Frame>, f: Frame)
    requires Terminals(fs) == 0 && forall x <- fs + [f] :: OwnFrame(r, x)
    ensures Grammar(fs + [f])
  {
    forall i | 0 <= i < |fs|
      ensures fs[i].kind.Chunk?
    {
      NoTerminals(fs, i);
      assert OwnFrame(r, (fs + [f])[i]);
    }
    assert OwnFrame(r, (fs + [f])[|fs|]);
  }

  function Queued(r: Req, a: Action): seq<Frame> {
    match Queues(r, a)
    case Some(f) => [f]
    case None => []
  }

  lemma MoveCarries(r: Req, a: Action, ctxDone: bool, connDone: bool)
    requires CarriedOk(r) && PhaseOk(r) && r.id != "" && CanAct(r, a, ctxDone, connDone)
    ensures CarriedOk(Moved(r, a, ctxDone, connDone)) && PhaseOk(Moved(r, a, ctxDone, connDone))
  {
  }

  /** A move that queues nothing never completes a reply, and abandons one only when the
      context it waits on is done. */
  lemma MoveSilently(r: Req, a: Action, ctxDone: bool, connDone: bool)
    requires PhaseOk(r) && CanAct(r, a, ctxDone, connDone) && Queues(r, a).None?
    ensures var m := Moved(r, a, ctxDone, connDone);
      && (m.outcome.Replied? <==> r.outcome.Replied?)
      && (m.pc.Waiting? || m.outcome.GaveUp? ==> r.pc.Waiting? || r.outcome.GaveUp?)
      && (m.outcome.GaveUp? && !r.outcome.GaveUp? ==> ctxDone && r.pc.Waiting?)
      && (m.outcome.Dropped? && !r.outcome.Dropped? ==> connDone)
      && ((r.closed ==> r.pc.PanicReply? || r.pc.Finished?) ==> m.closed ==> m.pc.PanicReply? || m.pc.Finished?)
  {
    hide UnaryReply, StreamReply, PanicFrame;
  }

  /** Moves that queue nothing keep the life of the request consistent. */
  lemma LifeSilent(r: Req, fs: seq<Frame>, a: Action, done: bool, cancelIds: set<string>)
    requires LifeOk(r, fs, done, cancelIds) && Queues(r, a).None?
    requires CanAct(r, a, r.asked || r.closed || done, done)
    ensures LifeOk(Moved(r, a, r.asked || r.closed || done, done), fs, done, cancelIds)
  {
    var ctxDone := r.asked || r.closed || done;
    var m := Moved(r, a, ctxDone, done);
    MoveKeeps(r, a, ctxDone, done);
    MoveCarries(r, a, ctxDone, done);
    MoveSilently(r, a, ctxDone, done);
    assert r.closed ==> !r.pc.Waiting?;
    hide Moved, CanAct, CarriedOk, PhaseOk;
    assert forall f :: OwnFrame(r, f) ==> OwnFrame(m, f);
  }

  /** A move that queues a frame queues one of its own; only a leaked emitter queues after the
      reply, and only a chunk. */
  lemma MoveQueues(r: Req, a: Action, ctxDone: bool, connDone: bool)
    requires CarriedOk(r) && PhaseOk(r) && r.id != "" && CanAct(r, a, ctxDone, connDone) && Queues(r, a).Some?
    ensures var m, f := Moved(r, a, ctxDone, connDone), Queues(r, a).value;
      && OwnFrame(r, f)
      && (m.outcome.Replied? <==> r.outcome.Replied? || IsTerminal(f)) && (IsTerminal(f) ==> !r.outcome.Replied?)
      && (a.LateEmit? || r.outcome.Open?) && (a.LateEmit? ==> r.stream && !r.joins)
      && !m.pc.Waiting? && !m.outcome.GaveUp?
      && (m.outcome.Dropped? ==> r.outcome.Dropped?)
      && m.closed == r.closed && (r.pc.PanicReply? || r.pc.Finished? ==> m.pc.PanicReply? || m.pc.Finished?)
  {
  }

  lemma LifeQueues(r: Req, fs: seq<Frame>, a: Action, done: bool, cancelIds: set<string>)
    requires LifeOk(r, fs, done, cancelIds) && Queues(r, a).Some?
    requires CanAct(r, a, r.asked || r.closed || done, done)
    ensures LifeOk(Moved(r, a, r.asked || r.closed || done, done), fs + Queued(r, a), done, cancelIds)
  {
    hide Moved, CanAct, Queues, CarriedOk, PhaseOk, Terminals, Grammar;
    var ctxDone, f := r.asked || r.closed || done, Queues(r, a).value;
    var m := Moved(r, a, ctxDone, done);
    MoveKeeps(r, a, ctxDone, done);
    MoveCarries(r, a, ctxDone, done);
    MoveQueues(r, a, ctxDone, done);
    TerminalsAppend(fs, f);
    assert forall x :: OwnFrame(r, x) ==> OwnFrame(m, x);
    if r.joins || !r.stream {
      GrammarExtends(r, fs, f);
    }
  }

  // ---------------------------------------------------------------- preservation

  lemma SlotAct(c: Config, s: State, g: nat, a: Action)
    requires SlotInv(c, s) && Enabled(c, s, Act(g, a))
    ensures SlotInv(c, OnAct(s, g, a))
  {
    hide Moved, CanAct;
    var r := s.reqs[g];
    var m := Moved(r, a, CtxDone(s, g), s.done);
    MoveHolds(r, a, CtxDone(s, g), s.done);
    MoveKeeps(r, a, CtxDone(s, g), s.done);
    SumUpdate(s.reqs, g, m, HoldsUnary);
    SumUpdate(s.reqs, g, m, HoldsStream);
  }

  lemma SlotFrame(c: Config, s: State, f: Frame)
    requires SlotInv(c, s) && TableInv(s)
    ensures SlotInv(c, OnFrame(c, s, f))
  {
    hide Sum, Validate;
    var t := OnFrame(c, s, f);
    if |t.reqs| > |s.reqs| {
      SumPush(s.reqs, NewReq(c, f), HoldsUnary);
      SumPush(s.reqs, NewReq(c, f), HoldsStream);
    } else if t.reqs != s.reqs {
      var g := s.inflight[f.id];
      SumUpdate(s.reqs, g, t.reqs[g], HoldsUnary);
      SumUpdate(s.reqs, g, t.reqs[g], HoldsStream);
    }
  }

  lemma TableAct(c: Config, s: State, g: nat, a: Action)
    requires TableInv(s) && Enabled(c, s, Act(g, a))
    ensures TableInv(OnAct(s, g, a))
  {
    hide Moved, CanAct, Registered;
    MoveKeeps(s.reqs[g], a, CtxDone(s, g), s.done);
    MoveRegisters(s.reqs[g], a, CtxDone(s, g), s.done);
  }

  lemma TableExactAct(c: Config, s: State, g: nat, a: Action)
    requires TableInv(s) && TableExact(s) && DistinctIds(s) && Enabled(c, s, Act(g, a))
    ensures TableExact(OnAct(s, g, a))
  {
    hide Moved, CanAct, Registered;
    MoveKeeps(s.reqs[g], a, CtxDone(s, g), s.done);
    MoveRegisters(s.reqs[g], a, CtxDone(s, g), s.done);
  }

  lemma TableFrame(c: Config, s: State, f: Frame)
    requires TableInv(s)
    ensures TableInv(OnFrame(c, s, f))
  {
    hide Validate;
  }

  /** Needs fresh ids: a reused id would take over the entry of the earlier request. */
  lemma TableExactFrame(c: Config, s: State, f: Frame)
    requires TableInv(s) && TableExact(s) && DistinctIds(OnFrame(c, s, f))
    ensures TableExact(OnFrame(c, s, f))
  {
    hide Validate;
    var t := OnFrame(c, s, f);
    assert forall h :: 0 <= h < |s.reqs| ==> t.reqs[h].id == s.reqs[h].id && t.reqs[h].pc == s.reqs[h].pc;
    if |t.reqs| > |s.reqs| {
      forall h | 0 <= h < |s.reqs|
        ensures s.reqs[h].id != f.id
      {
        assert t.reqs[h].id != t.reqs[|s.reqs|].id;
      }
    }
  }

  lemma QueuePush(c: Config, s: State, owner: Option<nat>, f: Frame)
    requires QueueInv(c, s) && HasRoom(s)
    ensures QueueInv(c, Push(s, owner, f))
  {
    hide Marshalled;
  }

  lemma QueueTake(c: Config, s: State)
    requires QueueInv(c, s) && s.writer.Taking? && |s.out| > 0 && TableBounded(s)
    ensures QueueInv(c, Apply(c, s, Take))
  {
    hide Marshalled;
    MarshalledPush(c, s.taken, s.out[0]);
    assert s.taken + s.out == s.taken + [s.out[0]] + s.out[1..];
    assert Marshalled(c, s.taken) + [] == Marshalled(c, s.taken);
  }

  lemma MarshalledPush(c: Config, es: seq<Entry>, e: Entry)
    ensures Marshalled(c, es + [e]) == Marshalled(c, es) + (if c.encodable(e.frame) then [e] else [])
  {
    assert (es + [e])[..|es|] == es;
  }

  lemma QueueAct(c: Config, s: State, g: nat, a: Action)
    requires QueueInv(c, s) && g < |s.reqs| && CanAct(s.reqs[g], a, CtxDone(s, g), s.done)
    requires (a.Release? ==> Taken(s, s.reqs[g]) > 0) && (Queues(s.reqs[g], a).Some? ==> HasRoom(s))
    ensures QueueInv(c, OnAct(s, g, a))
  {
    hide Marshalled, Moved, CanAct, Queues;
  }

  lemma QueueStep(c: Config, s: State, step: Step)
    requires QueueInv(c, s) && TableInv(s) && Enabled(c, s, step)
    ensures QueueInv(c, Apply(c, s, step))
  {
    hide Moved, CanAct, Marshalled, Queues, OnAct;
    match step {
      case Take => QueueTake(c, s);
      case Act(g, a) => QueueAct(c, s, g, a);
      case Heartbeat(p) => QueuePush(c, s, None, EventFrame("heartbeat", p));
      case _ =>
    }
  }

  lemma OwnedPush(log: seq<Entry>, e: Entry, g: nat)
    ensures Owned(log + [e], g) == Owned(log, g) + (if e.owner == Some(g) then [e.frame] else [])
  {
    assert (log + [e])[..|log|] == log;
  }

  lemma LivesAct(c: Config, s: State, g: nat, a: Action)
    requires LivesOk(s) && LogOk(s) && Enabled(c, s, Act(g, a))
    ensures LivesOk(OnAct(s, g, a)) && LogOk(OnAct(s, g, a))
  {
    hide Moved, CanAct, LifeOk, Owned, Queues;
    var t, r := OnAct(s, g, a), s.reqs[g];
    if Queues(r, a).Some? {
      LifeQueues(r, Owned(s.log, g), a, s.done, s.cancelIds);
    } else {
      LifeSilent(r, Owned(s.log, g), a, s.done, s.cancelIds);
      assert Owned(s.log, g) + Queued(r, a) == Owned(s.log, g);
    }
    forall h | 0 <= h < |t.reqs|
      ensures LifeOk(t.reqs[h], Owned(t.log, h), t.done, t.cancelIds)
    {
      OwnedAct(s, g, a, h);
      assert Owned(s.log, h) + [] == Owned(s.log, h);
    }
  }

  /** A move queues frames for its own request only. */
  lemma OwnedAct(s: State, g: nat, a: Action, h: nat)
    requires g < |s.reqs| && CanAct(s.reqs[g], a, CtxDone(s, g), s.done) && (a.Release? ==> Taken(s, s.reqs[g]) > 0)
    ensures Owned(OnAct(s, g, a).log, h) == Owned(s.log, h) + (if h == g then Queued(s.reqs[g], a) else [])
  {
    hide Moved, CanAct, Owned, Queues;
    if Queues(s.reqs[g], a).Some? {
      OwnedPush(s.log, Entry(Some(g), Queues(s.reqs[g], a).value), h);
    } else {
      assert Owned(s.log, h) + [] == Owned(s.log, h);
    }
  }

  lemma {:induction false} OwnedNone(log: seq<Entry>, g: nat)
    requires forall e <- log :: e.owner != Some(g)
    ensures Owned(log, g) == []
    decreases |log|
  {
    if log != [] {
      OwnedNone(log[..|log| - 1], g);
    }
  }

  lemma LivesFrame(c: Config, s: State, f: Frame)
    requires TableInv(s) && LivesOk(s) && LogOk(s)
    ensures LivesOk(OnFrame(c, s, f)) && LogOk(OnFrame(c, s, f))
  {
    var t := OnFrame(c, s, f);
    forall h | 0 <= h < |t.reqs|
      ensures LifeOk(t.reqs[h], Owned(t.log, h), t.done, t.cancelIds)
    {
      if h == |s.reqs| {
        OwnedNone(s.log, h);
      } else if t.reqs[h] != s.reqs[h] {
        assert forall x :: OwnFrame(s.reqs[h], x) ==> OwnFrame(t.reqs[h], x);
      }
    }
  }

  lemma LifeDone(r: Req, fs: seq<Frame>, done: bool, cancelIds: set<string>)
    requires LifeOk(r, fs, done, cancelIds)
    ensures LifeOk(r, fs, true, cancelIds)
  {
  }

  lemma LivesOther(c: Config, s: State, step: Step)
    requires TableInv(s) && LivesOk(s) && LogOk(s) && Enabled(c, s, step) && !step.Act? && !step.Handle?
    ensures LivesOk(Apply(c, s, step)) && LogOk(Apply(c, s, step))
  {
    hide LifeOk, Moved, CanAct, OnFrame, OnAct, Owned, Marshalled;
    var t := Apply(c, s, step);
    assert t.reqs == s.reqs && t.cancelIds == s.cancelIds && (t.done == s.done || t.done);
    forall h | 0 <= h < |t.reqs|
      ensures LifeOk(t.reqs[h], Owned(t.log, h), t.done, t.cancelIds)
    {
      if step.Heartbeat? {
        OwnedPush(s.log, Entry(None, EventFrame("heartbeat", step.beat)), h);
        assert Owned(t.log, h) == Owned(s.log, h);
      }
      LifeDone(s.reqs[h], Owned(s.log, h), s.done, s.cancelIds);
    }
  }

  /** Every step keeps every invariant, with no assumption on the panel or the handlers. */
  lemma InvStep(c: Config, s: State, step: Step)
    requires Inv(c, s) && Enabled(c, s, step)
    ensures Inv(c, Apply(c, s, step))
  {
    QueueStep(c, s, step);
    match step {
      case Act(g, a) =>
        SlotAct(c, s, g, a);
        TableAct(c, s, g, a);
        LivesAct(c, s, g, a);
      case Handle =>
        SlotFrame(c, s, s.reader.frame);
        TableFrame(c, s, s.reader.frame);
        LivesFrame(c, s, s.reader.frame);
      case _ =>
        LivesOther(c, s, step);
    }
  }

  lemma IdsOnlyGrow(c: Config, s: State, step: Step)
    requires TableInv(s) && Enabled(c, s, step) && DistinctIds(Apply(c, s, step))
    ensures DistinctIds(s)
  {
    hide Moved, CanAct, Validate;
    var t := Apply(c, s, step);
    match step {
      case Act(g, a) => MoveKeeps(s.reqs[g], a, CtxDone(s, g), s.done);
      case _ =>
    }
    assert |s.reqs| <= |t.reqs| && forall h :: 0 <= h < |s.reqs| ==> t.reqs[h].id == s.reqs[h].id;
  }

  lemma TableExactStep(c: Config, s: State, step: Step)
    requires TableInv(s) && TableExact(s) && Enabled(c, s, step) && DistinctIds(Apply(c, s, step))
    ensures TableExact(Apply(c, s, step))
  {
    IdsOnlyGrow(c, s, step);
    match step {
      case Act(g, a) => TableExactAct(c, s, g, a);
      case Handle => TableExactFrame(c, s, s.reader.frame);
      case _ =>
    }
  }

  lemma InitInv(c: Config)
    ensures Inv(c, Init()) && TableExact(Init())
  {
  }

  // ---------------------------------------------------------------- runs

  lemma {:induction false} InvRun(c: Config, s: State, steps: seq<Step>)
    requires Inv(c, s) && CanRun(c, s, steps)
    ensures Inv(c, Run(c, s, steps))
    decreases |steps|
  {
    if steps != [] {
      InvStep(c, s, steps[0]);
      InvRun(c, Apply(c, s, steps[0]), steps[1..]);
    }
  }

  lemma {:induction false} TableExactRun(c: Config, s: State, steps: seq<Step>)
    requires Inv(c, s) && TableExact(s) && CanRun(c, s, steps) && DistinctIds(Run(c, s, steps))
    ensures TableExact(Run(c, s, steps)) && DistinctIds(s)
    decreases |steps|
  {
    if steps != [] {
      var t := Apply(c, s, steps[0]);
      InvStep(c, s, steps[0]);
      IdsDistinctBefore(c, t, steps[1..]);
      TableExactStep(c, s, steps[0]);
      IdsOnlyGrow(c, s, steps[0]);
      TableExactRun(c, t, steps[1..]);
    }
  }

  lemma {:induction false} IdsDistinctBefore(c: Config, s: State, steps: seq<Step>)
    requires Inv(c, s) && CanRun(c, s, steps) && DistinctIds(Run(c, s, steps))
    ensures DistinctIds(s)
    decreases |steps|
  {
    if steps != [] {
      InvStep(c, s, steps[0]);
      IdsDistinctBefore(c, Apply(c, s, steps[0]), steps[1..]);
      IdsOnlyGrow(c, s, steps[0]);
    }
  }
}
