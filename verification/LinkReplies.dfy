/** What the panel can rely on: the reply grammar per request id, exactly one terminal
    frame per finished request, and cancellation that always lands. */
module LinkReplies {
  import opened Common
  import opened Envelope
  import opened Link
  import opened LinkInvariants

  /** The frames addressed to one request id, in order. */
  function Addressed(es: seq<Entry>, id: string): seq<Frame> {
    if es == [] then []
    else
      var f := es[|es| - 1].frame;
      Addressed(es[..|es| - 1], id) + (if f.id == id then [f] else [])
  }

  /** The reply grammar holds for every id, and every frame is structurally valid. */
  ghost predicate RepliesOk(es: seq<Entry>) {
    && (forall id: string :: id != "" ==> Grammar(Addressed(es, id)))
    && (forall e <- es :: Validate(e.frame))
  }

  /** Every streaming handler stops emitting before it returns. A request frame cannot
      carry an empty op, so an entry under the empty op is unreachable. */
  ghost predicate HandlersJoin(c: Config) {
    forall op <- c.streamOps :: op != "" ==> c.streamOps[op]
  }

  ghost predicate StreamsJoin(s: State) {
    forall r <- s.reqs :: r.stream ==> r.joins
  }

  // ---------------------------------------------------------------- ids and owners

  lemma {:induction false} OwnedMember(log: seq<Entry>, i: nat, g: nat)
    requires i < |log| && log[i].owner == Some(g)
    ensures log[i].frame in Owned(log, g)
    decreases |log|
  {
    if i < |log| - 1 {
      OwnedMember(log[..|log| - 1], i, g);
    }
  }

  /** Each queued frame carries the id of the request that queued it. */
  ghost predicate SignedBy(reqs: seq<Req>, log: seq<Entry>) {
    forall e <- log ::
      match e.owner
      case Some(g) => g < |reqs| && e.frame.id == reqs[g].id
      case None => e.frame.id == ""
  }

  lemma Signed(s: State)
    requires LogOk(s) && LivesOk(s)
    ensures SignedBy(s.reqs, s.log) && forall e <- s.log :: Validate(e.frame)
  {
    forall i | 0 <= i < |s.log|
      ensures Validate(s.log[i].frame)
      ensures match s.log[i].owner
        case Some(g) => g < |s.reqs| && s.log[i].frame.id == s.reqs[g].id
        case None => s.log[i].frame.id == ""
    {
      if s.log[i].owner.Some? {
        OwnedMember(s.log, i, s.log[i].owner.value);
      }
    }
  }

  lemma {:induction false} AddressedIsOwned(reqs: seq<Req>, log: seq<Entry>, g: nat)
    requires SignedBy(reqs, log) && g < |reqs| && reqs[g].id != ""
    requires forall h :: 0 <= h < |reqs| && h != g ==> reqs[h].id != reqs[g].id
    ensures Addressed(log, reqs[g].id) == Owned(log, g)
    decreases |log|
  {
    if log != [] {
      AddressedIsOwned(reqs, log[..|log| - 1], g);
      assert log[|log| - 1] in log;
    }
  }

  lemma {:induction false} AddressedToNobody(reqs: seq<Req>, log: seq<Entry>, id: string)
    requires SignedBy(reqs, log) && id != "" && forall r <- reqs :: r.id != id
    ensures Addressed(log, id) == []
    decreases |log|
  {
    if log != [] {
      AddressedToNobody(reqs, log[..|log| - 1], id);
      assert log[|log| - 1] in log;
    }
  }

  // ---------------------------------------------------------------- the grammar on the socket

  lemma {:induction false} AddressedPrefix(es: seq<Entry>, n: nat, id: string)
    requires n <= |es|
    ensures Addressed(es[..n], id) <= Addressed(es, id)
    decreases |es|
  {
    if n == |es| {
      assert es[..n] == es;
    } else {
      AddressedPrefix(es[..|es| - 1], n, id);
      assert es[..|es| - 1][..n] == es[..n];
    }
  }

  ghost predicate AllChunks(fs: seq<Frame>) { forall f <- fs :: f.kind.Chunk? }

  /** Dropping unencodable frames keeps the grammar. */
  lemma {:induction false} MarshalledGrammar(c: Config, es: seq<Entry>, id: string)
    requires Grammar(Addressed(es, id))
    ensures Grammar(Addressed(Marshalled(c, es), id))
    ensures AllChunks(Addressed(es, id)) ==> AllChunks(Addressed(Marshalled(c, es), id))
    decreases |es|
  {
    if es != [] {
      var init, e := es[..|es| - 1], es[|es| - 1];
      var fs := Addressed(init, id);
      if e.frame.id == id {
        assert Addressed(es, id) == fs + [e.frame];
        forall i | 0 <= i < |fs|
          ensures fs[i].kind.Chunk?
        {
          assert fs[i] == Addressed(es, id)[i];
        }
        assert Addressed(es, id)[|fs|] == e.frame;
      } else {
        assert Addressed(es, id) == fs;
      }
      MarshalledGrammar(c, init, id);
      if c.encodable(e.frame) {
        assert Marshalled(c, es)[..|Marshalled(c, init)|] == Marshalled(c, init);
      } else {
        assert Marshalled(c, es) == Marshalled(c, init);
      }
    }
  }

  lemma GrammarPrefix(fs: seq<Frame>, gs: seq<Frame>)
    requires fs <= gs && Grammar(gs)
    ensures Grammar(fs)
  {
    if fs != [] {
      assert fs[|fs| - 1] == gs[|fs| - 1];
    }
  }

  lemma {:induction false} MarshalledMember(c: Config, es: seq<Entry>)
    ensures forall e <- Marshalled(c, es) :: e in es
    decreases |es|
  {
    if es != [] {
      MarshalledMember(c, es[..|es| - 1]);
    }
  }

  /** What went over the socket is a prefix of what was queued, unencodable frames aside. */
  lemma WireFollowsQueue(c: Config, s: State)
    requires QueueInv(c, s)
    ensures exists n :: 0 <= n <= |s.log| && s.wire <= Marshalled(c, s.log[..n])
  {
    assert s.log[..|s.taken|] == s.taken;
    match s.writer {
      case Writing(e) => assert s.wire <= s.wire + [e];
      case _ =>
    }
  }

  lemma WireRepliesOk(c: Config, s: State)
    requires QueueInv(c, s) && RepliesOk(s.log)
    ensures RepliesOk(s.wire)
  {
    WireFollowsQueue(c, s);
    var n :| 0 <= n <= |s.log| && s.wire <= Marshalled(c, s.log[..n]);
    var sent := Marshalled(c, s.log[..n]);
    assert s.wire == sent[..|s.wire|];
    forall id: string | id != ""
      ensures Grammar(Addressed(s.wire, id))
    {
      AddressedPrefix(s.log, n, id);
      GrammarPrefix(Addressed(s.log[..n], id), Addressed(s.log, id));
      MarshalledGrammar(c, s.log[..n], id);
      AddressedPrefix(sent, |s.wire|, id);
      GrammarPrefix(Addressed(s.wire, id), Addressed(sent, id));
    }
    MarshalledMember(c, s.log[..n]);
    assert forall e <- s.wire :: e in sent;
  }

  // ---------------------------------------------------------------- the main results

  lemma StreamsJoinStep(c: Config, s: State, step: Step)
    requires TableInv(s) && StreamsJoin(s) && HandlersJoin(c) && Enabled(c, s, step)
    ensures StreamsJoin(Apply(c, s, step))
  {
    var t := Apply(c, s, step);
    match step {
      case Act(g, a) => MoveKeeps(s.reqs[g], a, CtxDone(s, g), s.done);
      case _ =>
    }
    hide Moved, CanAct;
    assert forall h :: 0 <= h < |s.reqs| ==> s.reqs[h] in s.reqs;
    assert forall h :: 0 <= h < |t.reqs| ==> t.reqs[h].stream ==> t.reqs[h].joins;
  }

  lemma {:induction false} StreamsJoinRun(c: Config, s: State, steps: seq<Step>)
    requires Inv(c, s) && StreamsJoin(s) && HandlersJoin(c) && CanRun(c, s, steps)
    ensures StreamsJoin(Run(c, s, steps))
    decreases |steps|
  {
    if steps != [] {
      InvStep(c, s, steps[0]);
      StreamsJoinStep(c, s, steps[0]);
      StreamsJoinRun(c, Apply(c, s, steps[0]), steps[1..]);
    }
  }

  /** In every reachable state, if no id was reused and every handler joins its emitters,
      each id has seen `chunk*` and at most one terminal frame after them, in the queue and
      on the socket alike; ids of unary requests have seen no chunk at all. */
  lemma RepliesAreWellFormed(c: Config, steps: seq<Step>)
    requires CanRun(c, Init(), steps) && DistinctIds(Run(c, Init(), steps)) && HandlersJoin(c)
    ensures var s := Run(c, Init(), steps);
      && RepliesOk(s.log) && RepliesOk(s.wire)
      && forall g, f :: 0 <= g < |s.reqs| && !s.reqs[g].stream && f in Addressed(s.log, s.reqs[g].id) ==> IsTerminal(f)
  {
    var s := Run(c, Init(), steps);
    InitInv(c);
    InvRun(c, Init(), steps);
    StreamsJoinRun(c, Init(), steps);
    Signed(s);
    forall g | 0 <= g < |s.reqs|
      ensures Addressed(s.log, s.reqs[g].id) == Owned(s.log, g)
    {
      AddressedIsOwned(s.reqs, s.log, g);
    }
    forall id: string | id != ""
      ensures Grammar(Addressed(s.log, id))
    {
      if g :| 0 <= g < |s.reqs| && s.reqs[g].id == id {
        assert s.reqs[g] in s.reqs;
      } else {
        AddressedToNobody(s.reqs, s.log, id);
      }
    }
    WireRepliesOk(c, s);
  }

  lemma Precede(c: Config, s: State, step: Step, steps: seq<Step>) returns (all: seq<Step>)
    requires TableBounded(s) && Enabled(c, s, step) && CanRun(c, Apply(c, s, step), steps)
    ensures CanRun(c, s, all) && Run(c, s, all) == Run(c, Apply(c, s, step), steps)
  {
    all := [step] + steps;
    assert all[1..] == steps;
  }

  /** A connection that serves one request and has queued `log`. */
  function OneRequest(r: Req, streamSlots: nat, log: seq<Entry>): State {
    State([r], map[r.id := 0], 0, streamSlots, log, [], Reading, Taking, false, log, [], {})
  }

  lemma ActAlone(c: Config, r: Req, log: seq<Entry>, a: Action)
    requires r.id != "" && |log| < QUEUE_CAP && !a.Acquire? && !a.Release? && !a.Unregister?
    requires CanAct(r, a, r.asked || r.closed, false)
    ensures var s := OneRequest(r, 1, log);
      && TableBounded(s) && Enabled(c, s, Act(0, a))
      && Apply(c, s, Act(0, a)) == OneRequest(Moved(r, a, r.asked || r.closed, false), 1,
           match Queues(r, a) case Some(f) => log + [Entry(Some(0), f)] case None => log)
  {
    MoveKeeps(r, a, r.asked || r.closed, false);
    hide Moved, CanAct, Queues;
  }

  lemma Stopped(c: Config, r: Req, log: seq<Entry>)
    ensures var s := OneRequest(r, 1, log);
      CanRun(c, s, []) && Run(c, s, []) == s
  {
  }

  lemma LeakAfterReturn(c: Config, r: Req) returns (steps: seq<Step>)
    requires r.id != "" && r.stream && !r.joins && r.pc.Running? && r.outcome.Open? && !r.asked && !r.closed
    ensures CanRun(c, OneRequest(r, 1, []), steps)
    ensures Run(c, OneRequest(r, 1, []), steps)
         == OneRequest(r.(pc := Releasing(None), outcome := Replied), 1,
              [Entry(Some(0), ResultFrame(r.id, None)), Entry(Some(0), ChunkFrame(r.id, None))])
  {
    hide Apply, Enabled, CanRun, Run, TableBounded;
    var res, chunk := Entry(Some(0), ResultFrame(r.id, None)), Entry(Some(0), ChunkFrame(r.id, None));
    var r1 := r.(pc := Replying(res.frame));
    var r2 := r.(pc := Releasing(None), outcome := Replied);
    Stopped(c, r2, [res, chunk]);
    assert Moved(r, Return(None), false, false) == r1 && Queues(r, Return(None)).None?;
    assert Moved(r1, PushReply, false, false) == r2 && Queues(r1, PushReply) == Some(res.frame);
    assert Moved(r2, LateEmit(None), false, false) == r2 && Queues(r2, LateEmit(None)) == Some(chunk.frame);
    ActAlone(c, r, [], Return(None));
    ActAlone(c, r1, [], PushReply);
    ActAlone(c, r2, [res], LateEmit(None));
    hide Moved, CanAct, Queues;
    assert [] + [res] == [res] && [res] + [chunk] == [res, chunk];
    steps := Precede(c, OneRequest(r2, 1, [res]), Act(0, LateEmit(None)), []);
    steps := Precede(c, OneRequest(r1, 1, []), Act(0, PushReply), steps);
    steps := Precede(c, OneRequest(r, 1, []), Act(0, Return(None)), steps);
  }

  lemma RequestArrives(c: Config, op: string)
    requires op in c.streamOps && op != ""
    ensures var req := Frame(Request, "a", op, None, None);
      var s1 := Init().(reader := Handling(req));
      && TableBounded(Init()) && Enabled(c, Init(), Read(req)) && Apply(c, Init(), Read(req)) == s1
      && TableBounded(s1) && Enabled(c, s1, Handle)
      && Apply(c, s1, Handle) == OneRequest(Req("a", true, c.streamOps[op], Waiting, false, false, Open), 0, [])
  {
    hide Moved, CanAct;
  }

  lemma SlotTaken(c: Config, r: Req)
    requires ValidConfig(c) && r.stream && r.pc.Waiting?
    ensures var s := OneRequest(r, 0, []);
      && TableBounded(s) && Enabled(c, s, Act(0, Acquire))
      && Apply(c, s, Act(0, Acquire)) == OneRequest(r.(pc := Running), 1, [])
  {
  }

  lemma StartStream(c: Config, op: string, steps: seq<Step>) returns (all: seq<Step>)
    requires ValidConfig(c) && op in c.streamOps && op != ""
    requires CanRun(c, OneRequest(Req("a", true, c.streamOps[op], Running, false, false, Open), 1, []), steps)
    ensures CanRun(c, Init(), all)
    ensures Run(c, Init(), all)
         == Run(c, OneRequest(Req("a", true, c.streamOps[op], Running, false, false, Open), 1, []), steps)
  {
    hide Enabled, Apply, CanRun, Run;
    var req := Frame(Request, "a", op, None, None);
    var s1 := Init().(reader := Handling(req));
    var r := Req("a", true, c.streamOps[op], Waiting, false, false, Open);
    var s2 := OneRequest(r, 0, []);
    RequestArrives(c, op);
    SlotTaken(c, r);
    all := Precede(c, s2, Act(0, Acquire), steps);
    all := Precede(c, s1, Handle, all);
    all := Precede(c, Init(), Read(req), all);
  }

  /** A stream whose handler leaves an emitter running can see a chunk after its result. */
  lemma LeakedEmitterBreaksGrammar(c: Config, op: string) returns (steps: seq<Step>)
    requires ValidConfig(c) && op in c.streamOps && op != "" && !c.streamOps[op]
    ensures CanRun(c, Init(), steps) && DistinctIds(Run(c, Init(), steps))
    ensures !Grammar(Addressed(Run(c, Init(), steps).log, "a"))
  {
    hide Enabled, Apply, CanRun, Run;
    var late := LeakAfterReturn(c, Req("a", true, false, Running, false, false, Open));
    steps := StartStream(c, op, late);
    var log := Run(c, Init(), steps).log;
    assert log[..1][..0] == [] && Addressed(log[..1][..0], "a") == [];
    assert Addressed(log[..1], "a") == [ResultFrame("a", None)];
    assert Addressed(log, "a") == [ResultFrame("a", None)] + [ChunkFrame("a", None)];
    assert Addressed(log, "a")[0].kind.Result?;
  }

  /** The exact condition for the reply grammar: the handlers join their emitters. */
  lemma GrammarIffHandlersJoin(c: Config)
    requires ValidConfig(c)
    ensures HandlersJoin(c) <==>
      forall steps: seq<Step> :: CanRun(c, Init(), steps) && DistinctIds(Run(c, Init(), steps)) ==>
        RepliesOk(Run(c, Init(), steps).log)
  {
    if HandlersJoin(c) {
      forall steps: seq<Step> | CanRun(c, Init(), steps) && DistinctIds(Run(c, Init(), steps))
        ensures RepliesOk(Run(c, Init(), steps).log)
      {
        RepliesAreWellFormed(c, steps);
      }
    } else {
      var op :| op in c.streamOps && op != "" && !c.streamOps[op];
      var steps := LeakedEmitterBreaksGrammar(c, op);
      assert !RepliesOk(Run(c, Init(), steps).log);
    }
  }

  /** Every finished request, panicking ones included, has queued exactly one terminal frame,
      unless it gave up in line (then it queued nothing, and a cancel frame had reached it or the
      connection was done) or the connection was done when it tried to send. */
  lemma FinishedRepliesOnce(c: Config, steps: seq<Step>, g: nat)
    requires CanRun(c, Init(), steps) && g < |Run(c, Init(), steps).reqs|
    requires Run(c, Init(), steps).reqs[g].pc.Finished?
    ensures var s := Run(c, Init(), steps);
      match s.reqs[g].outcome
      case Replied => Terminals(Owned(s.log, g)) == 1
      case GaveUp => Owned(s.log, g) == [] && (s.done || (s.reqs[g].asked && s.reqs[g].id in s.cancelIds))
      case Dropped => Terminals(Owned(s.log, g)) == 0 && s.done
      case Open => false
  {
    InitInv(c);
    InvRun(c, Init(), steps);
    assert LifeOk(Run(c, Init(), steps).reqs[g], Owned(Run(c, Init(), steps).log, g),
                  Run(c, Init(), steps).done, Run(c, Init(), steps).cancelIds);
  }

  /** Slots never exceed their pool, and without id reuse the table is exactly the requests
      not yet in cleanup. */
  lemma Accounting(c: Config, steps: seq<Step>)
    requires CanRun(c, Init(), steps)
    ensures var s := Run(c, Init(), steps);
      && s.unarySlots == Sum(s.reqs, HoldsUnary) <= c.maxConcurrent
      && s.streamSlots == Sum(s.reqs, HoldsStream) <= c.maxStreams
      && (DistinctIds(s) ==> TableExact(s) && TableInv(s))
  {
    InitInv(c);
    InvRun(c, Init(), steps);
    if DistinctIds(Run(c, Init(), steps)) {
      TableExactRun(c, Init(), steps);
    }
  }

  /** A cancel frame reaches its own request whatever the pools and the queue hold, touches
      nothing else, and lets a queued request leave at once without a frame. */
  lemma CancelAlwaysLands(c: Config, s: State, g: nat)
    requires Inv(c, s) && TableExact(s) && g < |s.reqs| && Registered(s.reqs[g]) && s.reader.Reading?
    ensures var id := s.reqs[g].id;
      var steps := [Read(CancelFrame(id)), Handle];
      && CanRun(c, s, steps)
      && var t := Run(c, s, steps);
      && t == s.(reqs := s.reqs[g := s.reqs[g].(asked := true)], cancelIds := s.cancelIds + {id})
      && (s.reqs[g].pc.Waiting? ==> Enabled(c, t, Act(g, GiveUp)) && Apply(c, t, Act(g, GiveUp)).out == s.out)
  {
    var id := s.reqs[g].id;
    assert LifeOk(s.reqs[g], Owned(s.log, g), s.done, s.cancelIds);
    hide LifeOk, LivesOk, SlotInv, QueueInv, LogOk;
    var s1 := s.(reader := Handling(CancelFrame(id)));
    var s2 := s.(reqs := s.reqs[g := s.reqs[g].(asked := true)], cancelIds := s.cancelIds + {id});
    assert Apply(c, s1, Handle) == s2;
    assert CanRun(c, s2, []) && Run(c, s2, []) == s2;
    var steps := [Read(CancelFrame(id)), Handle];
    assert steps[1..] == [Handle] && [Handle][1..] == [];
    assert CanRun(c, s1, [Handle]) && Run(c, s1, [Handle]) == s2;
  }

  /** The envelope documents that a cancelled request finishes with an error of code
      "canceled". The daemon never queues that code: a cancelled stream is closed with a
      plain result, and only these two codes ever leave it. */
  lemma NeverAnswersCanceled(c: Config, steps: seq<Step>, e: Entry)
    requires CanRun(c, Init(), steps) && e in Run(c, Init(), steps).log
    ensures e.frame.err.Some? ==> e.frame.err.value.code in {BadRequest, Internal}
    ensures e.frame.kind.Error? ==> e.frame.err.Some?
  {
    hide Run, CanRun, SlotInv, TableInv, QueueInv, Owned, CarriedOk, PhaseOk, Terminals, Grammar;
    var s := Run(c, Init(), steps);
    InitInv(c);
    InvRun(c, Init(), steps);
    var i :| 0 <= i < |s.log| && s.log[i] == e;
    if e.owner.Some? {
      OwnedMember(s.log, i, e.owner.value);
      assert LifeOk(s.reqs[e.owner.value], Owned(s.log, e.owner.value), s.done, s.cancelIds);
    }
  }

  /** A cancelled stream that has not panicked: still running, or on its way out with a plain
      result. */
  predicate Closing(r: Req) {
    && r.stream && r.asked && !r.outcome.GaveUp?
    && match r.pc
       case Running => true
       case Emitting(f) => f.kind.Chunk?
       case Replying(f) => f == ResultFrame(r.id, None)
       case Releasing(p) => p.None?
       case Leaving(p) => p.None?
       case Cancelling(p) => p.None?
       case Finished => true
       case _ => false
  }

  /** The only terminal frame among `fs` is the plain result of `id`. */
  ghost predicate EndsPlainly(fs: seq<Frame>, id: string) {
    forall f <- fs :: IsTerminal(f) ==> f == ResultFrame(id, None)
  }

  lemma ClosingAsked(r: Req)
    requires Closing(r)
    ensures r.asked && r.(asked := true) == r
  {
  }

  lemma ClosingMove(r: Req, a: Action, ctxDone: bool, connDone: bool)
    requires Closing(r) && CanAct(r, a, ctxDone, connDone) && !a.Panic? && ctxDone
    ensures Closing(Moved(r, a, ctxDone, connDone)) && Moved(r, a, ctxDone, connDone).id == r.id
    ensures EndsPlainly(Queued(r, a), r.id)
  {
    hide UnaryReply, PanicFrame;
  }

  lemma ClosingStep(c: Config, s: State, g: nat, step: Step)
    requires TableInv(s) && g < |s.reqs| && Enabled(c, s, step) && !(step.Act? && step.g == g && step.action.Panic?)
    requires Closing(s.reqs[g]) && EndsPlainly(Owned(s.log, g), s.reqs[g].id)
    ensures var t := Apply(c, s, step);
      && g < |t.reqs| && t.reqs[g].id == s.reqs[g].id
      && Closing(t.reqs[g]) && EndsPlainly(Owned(t.log, g), s.reqs[g].id)
  {
    hide Moved, CanAct, Owned, Queued, Queues, Validate, Closing;
    ClosingAsked(s.reqs[g]);
    match step {
      case Act(h, a) =>
        OwnedAct(s, h, a, g);
        if h == g {
          ClosingMove(s.reqs[g], a, CtxDone(s, g), s.done);
        } else {
          assert Owned(s.log, g) + [] == Owned(s.log, g);
        }
      case Heartbeat(p) => OwnedPush(s.log, Entry(None, EventFrame("heartbeat", p)), g);
      case Handle => assert s.reqs[g].(asked := true) == s.reqs[g];
      case _ =>
    }
  }

  lemma {:induction false} ClosingRun(c: Config, s: State, g: nat, steps: seq<Step>)
    requires Inv(c, s) && g < |s.reqs| && Closing(s.reqs[g]) && EndsPlainly(Owned(s.log, g), s.reqs[g].id)
    requires CanRun(c, s, steps) && forall step <- steps :: !(step.Act? && step.g == g && step.action.Panic?)
    ensures var t := Run(c, s, steps);
      && Inv(c, t) && g < |t.reqs| && t.reqs[g].id == s.reqs[g].id
      && Closing(t.reqs[g]) && EndsPlainly(Owned(t.log, g), s.reqs[g].id)
    decreases |steps|
  {
    hide SlotInv, TableInv, QueueInv, LogOk, LivesOk, Enabled, Apply, Closing, Owned, EndsPlainly;
    if steps != [] {
      assert steps[0] in steps;
      InvStep(c, s, steps[0]);
      ClosingStep(c, s, g, steps[0]);
      ClosingRun(c, Apply(c, s, steps[0]), g, steps[1..]);
    }
  }

  /** A stream the panel cancels is closed with a plain result, whatever its handler returns and
      however the run goes on, unless it panics: it never queues another terminal frame, and once
      it has finished it has queued exactly that one, or the connection was done. */
  lemma CancelledStreamEndsPlainly(c: Config, s: State, g: nat, steps: seq<Step>)
    requires Inv(c, s) && g < |s.reqs| && Closing(s.reqs[g]) && EndsPlainly(Owned(s.log, g), s.reqs[g].id)
    requires CanRun(c, s, steps) && forall step <- steps :: !(step.Act? && step.g == g && step.action.Panic?)
    ensures var t := Run(c, s, steps); var fs := Owned(t.log, g);
      && g < |t.reqs| && EndsPlainly(fs, s.reqs[g].id)
      && (t.reqs[g].pc.Finished? ==>
            || (Terminals(fs) == 1 && ResultFrame(s.reqs[g].id, None) in fs)
            || (Terminals(fs) == 0 && t.done))
  {
    hide Run, CanRun, SlotInv, TableInv, QueueInv, Owned, Grammar, CarriedOk;
    ClosingRun(c, s, g, steps);
    var t := Run(c, s, steps);
    var fs := Owned(t.log, g);
    assert LifeOk(t.reqs[g], fs, t.done, t.cancelIds);
    if Terminals(fs) > 0 {
      var i := SomeTerminal(fs);
      assert fs[i] == ResultFrame(s.reqs[g].id, None);
    }
  }

  lemma {:induction false} SomeTerminal(fs: seq<Frame>) returns (i: nat)
    requires Terminals(fs) > 0
    ensures i < |fs| && IsTerminal(fs[i])
    decreases |fs|
  {
    i := |fs| - 1;
    if !IsTerminal(fs[i]) {
      i := SomeTerminal(fs[..i]);
    }
  }

  /** In particular one that is cancelled while its handler is at work. */
  lemma CancelledWhileRunning(c: Config, s: State, g: nat, steps: seq<Step>)
    requires Inv(c, s) && g < |s.reqs| && s.reqs[g].stream && s.reqs[g].asked
    requires s.reqs[g].pc.Running? || s.reqs[g].pc.Emitting?
    requires CanRun(c, s, steps) && forall step <- steps :: !(step.Act? && step.g == g && step.action.Panic?)
    ensures var t := Run(c, s, steps); var fs := Owned(t.log, g);
      && g < |t.reqs| && EndsPlainly(fs, s.reqs[g].id)
      && (t.reqs[g].pc.Finished? ==>
            || (Terminals(fs) == 1 && ResultFrame(s.reqs[g].id, None) in fs)
            || (Terminals(fs) == 0 && t.done))
  {
    hide Run, CanRun, SlotInv, TableInv, QueueInv, Owned, Grammar;
    var fs := Owned(s.log, g);
    assert LifeOk(s.reqs[g], fs, s.done, s.cancelIds);
    forall i | 0 <= i < |fs|
      ensures !IsTerminal(fs[i])
    {
      NoTerminals(fs, i);
    }
    CancelledStreamEndsPlainly(c, s, g, steps);
  }
}
