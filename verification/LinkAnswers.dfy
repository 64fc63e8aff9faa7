/** What the frames a request queues say: the terminal frame tells how its handler ended, and
    the chunks carry what the handler emitted, in order. Everything is stated over whole runs,
    by the step the handler took. */
module LinkAnswers {
  import opened Common
  import opened Envelope
  import opened Link
  import opened LinkInvariants
  import LinkReplies

  // ---------------------------------------------------------------- runs, cut at a step

  /** A run is its first `k` steps followed by the others. */
  lemma {:induction false} RunSplit(c: Config, s: State, steps: seq<Step>, k: nat)
    requires CanRun(c, s, steps) && k <= |steps|
    ensures CanRun(c, s, steps[..k])
    ensures CanRun(c, Run(c, s, steps[..k]), steps[k..])
    ensures Run(c, s, steps) == Run(c, Run(c, s, steps[..k]), steps[k..])
    decreases k
  {
    hide Enabled, Apply, TableBounded;
    if k == 0 {
      assert steps[..k] == [] && steps[k..] == steps;
    } else {
      var rest := steps[1..];
      RunSplit(c, Apply(c, s, steps[0]), rest, k - 1);
      assert steps[..k][1..] == rest[..k - 1] && steps[k..] == rest[k - 1..];
    }
  }

  /** The state before step `k` of a run from the start, and the rest of the run after it. */
  lemma RunAt(c: Config, steps: seq<Step>, k: nat)
    requires CanRun(c, Init(), steps) && k < |steps|
    ensures CanRun(c, Init(), steps[..k])
    ensures var s := Run(c, Init(), steps[..k]);
      && Inv(c, s) && TableBounded(s) && Enabled(c, s, steps[k]) && CanRun(c, Apply(c, s, steps[k]), steps[k + 1..])
      && Inv(c, Apply(c, s, steps[k]))
      && Run(c, Init(), steps) == Run(c, Apply(c, s, steps[k]), steps[k + 1..])
  {
    hide Enabled, Apply, Inv;
    RunSplit(c, Init(), steps, k);
    var s := Run(c, Init(), steps[..k]);
    assert steps[k..][1..] == steps[k + 1..] && steps[k..][0] == steps[k];
    InitInv(c);
    InvRun(c, Init(), steps[..k]);
    InvStep(c, s, steps[k]);
  }

  // ---------------------------------------------------------------- one step, seen from one request

  predicate Moves(step: Step, g: nat) { step.Act? && step.g == g }

  lemma ActMoves(s: State, g: nat, a: Action)
    requires g < |s.reqs| && CanAct(s.reqs[g], a, CtxDone(s, g), s.done) && (a.Release? ==> Taken(s, s.reqs[g]) > 0)
    ensures OnAct(s, g, a).reqs == s.reqs[g := Moved(s.reqs[g], a, CtxDone(s, g), s.done)]
  {
    hide CanAct, Moved, Queues;
  }

  lemma OtherAct(c: Config, s: State, g: nat, h: nat, a: Action)
    requires g < |s.reqs| && h != g && Enabled(c, s, Act(h, a))
    ensures OnAct(s, h, a).reqs[g] == s.reqs[g] && Owned(OnAct(s, h, a).log, g) == Owned(s.log, g)
  {
    hide CanAct, Moved, Queues, OnAct, Owned;
    ActMoves(s, h, a);
    OwnedAct(s, h, a, g);
    assert Owned(s.log, g) + [] == Owned(s.log, g);
  }

  /** A step of anyone else leaves the goroutine of `g` where it is and queues nothing for it. */
  lemma OthersStep(c: Config, s: State, g: nat, step: Step)
    requires TableInv(s) && g < |s.reqs| && Enabled(c, s, step) && !Moves(step, g)
    ensures var t := Apply(c, s, step);
      && g < |t.reqs| && t.reqs[g].id == s.reqs[g].id && t.reqs[g].stream == s.reqs[g].stream
      && t.reqs[g].pc == s.reqs[g].pc && Owned(t.log, g) == Owned(s.log, g)
  {
    hide CanAct, Moved, Queues, OnAct, Owned, Validate;
    match step {
      case Act(h, a) =>
        OtherAct(c, s, g, h, a);
        ActMoves(s, h, a);
      case Heartbeat(p) =>
        OwnedPush(s.log, Entry(None, EventFrame("heartbeat", p)), g);
        assert Owned(s.log, g) + [] == Owned(s.log, g);
      case _ =>
    }
  }

  // ---------------------------------------------------------------- the terminal frame

  /** The handler is over and `f` is the frame its request ends with: still to be sent, or
      sent or dropped already. */
  predicate Owes(r: Req, f: Frame) {
    match r.pc
    case Replying(x) => x == f
    case PanicReply(x) => x == f
    case Releasing(p) => p in {None, Some(f)}
    case Leaving(p) => p in {None, Some(f)}
    case Cancelling(p) => p in {None, Some(f)}
    case Finished => true
    case _ => false
  }

  ghost predicate OnlyTerminal(fs: seq<Frame>, f: Frame) {
    forall x <- fs :: IsTerminal(x) ==> x == f
  }

  lemma OwesMove(r: Req, a: Action, ctxDone: bool, connDone: bool, f: Frame)
    requires Owes(r, f) && CanAct(r, a, ctxDone, connDone)
    ensures Owes(Moved(r, a, ctxDone, connDone), f) && OnlyTerminal(Queued(r, a), f)
  {
    hide UnaryReply, StreamReply, PanicFrame;
  }

  lemma OwesAct(s: State, g: nat, a: Action, f: Frame)
    requires g < |s.reqs| && CanAct(s.reqs[g], a, CtxDone(s, g), s.done) && (a.Release? ==> Taken(s, s.reqs[g]) > 0)
    requires Owes(s.reqs[g], f) && OnlyTerminal(Owned(s.log, g), f)
    ensures var t := OnAct(s, g, a);
      && g < |t.reqs| && t.reqs[g].id == s.reqs[g].id && t.reqs[g].stream == s.reqs[g].stream
      && Owes(t.reqs[g], f) && OnlyTerminal(Owned(t.log, g), f)
  {
    hide Moved, CanAct, Owned, Queued, Queues, Owes, OnAct;
    ActMoves(s, g, a);
    OwnedAct(s, g, a, g);
    MoveKeeps(s.reqs[g], a, CtxDone(s, g), s.done);
    OwesMove(s.reqs[g], a, CtxDone(s, g), s.done, f);
  }

  lemma OwesStep(c: Config, s: State, g: nat, step: Step, f: Frame)
    requires TableInv(s) && g < |s.reqs| && Enabled(c, s, step)
    requires Owes(s.reqs[g], f) && OnlyTerminal(Owned(s.log, g), f)
    ensures var t := Apply(c, s, step);
      && g < |t.reqs| && t.reqs[g].id == s.reqs[g].id && t.reqs[g].stream == s.reqs[g].stream
      && Owes(t.reqs[g], f) && OnlyTerminal(Owned(t.log, g), f)
  {
    if Moves(step, g) {
      hide CanAct, OnAct, Owned, Owes;
      OwesAct(s, g, step.action, f);
    } else {
      hide Apply, Enabled, Owned, OnlyTerminal;
      OthersStep(c, s, g, step);
    }
  }

  lemma {:induction false} OwesRun(c: Config, s: State, g: nat, steps: seq<Step>, f: Frame)
    requires Inv(c, s) && g < |s.reqs| && CanRun(c, s, steps)
    requires Owes(s.reqs[g], f) && OnlyTerminal(Owned(s.log, g), f)
    ensures var t := Run(c, s, steps);
      && Inv(c, t) && g < |t.reqs| && t.reqs[g].id == s.reqs[g].id && t.reqs[g].stream == s.reqs[g].stream
      && Owes(t.reqs[g], f) && OnlyTerminal(Owned(t.log, g), f)
    decreases |steps|
  {
    hide SlotInv, TableInv, QueueInv, LogOk, LivesOk, Enabled, Apply, Owes, Owned, OnlyTerminal;
    if steps != [] {
      InvStep(c, s, steps[0]);
      OwesStep(c, s, g, steps[0], f);
      OwesRun(c, Apply(c, s, steps[0]), g, steps[1..], f);
    }
  }

  /** What has been queued for `r` ends with `f` or not at all: never another terminal frame;
      all of it is `f` when the request is not a stream; and once the request has finished as
      replied, `f` has been queued exactly once. */
  ghost predicate EndsWith(r: Req, fs: seq<Frame>, f: Frame) {
    && OnlyTerminal(fs, f) && Terminals(fs) <= 1
    && (!r.stream ==> fs == [] || fs == [f])
    && (r.pc.Finished? && r.outcome.Replied? ==> Terminals(fs) == 1 && f in fs)
  }

  lemma LifeEnds(r: Req, fs: seq<Frame>, f: Frame, done: bool, cancelIds: set<string>)
    requires LifeOk(r, fs, done, cancelIds) && OnlyTerminal(fs, f)
    ensures EndsWith(r, fs, f)
  {
    hide CarriedOk, PhaseOk;
    if Terminals(fs) > 0 {
      var i := LinkReplies.SomeTerminal(fs);
      assert fs[i] == f;
    }
    if !r.stream && fs != [] {
      assert OwnFrame(r, fs[0]);
    }
  }

  /** The steps that end a handler, and the frame each makes its request owe. */
  predicate Ending(a: Action) { a.Answer? || a.Return? || a.Panic? }

  /** If `r` can make this move, it owes `f` afterwards. */
  predicate MakesOwe(r: Req, a: Action, ctxDone: bool, connDone: bool, f: Frame) {
    CanAct(r, a, ctxDone, connDone) ==> Owes(Moved(r, a, ctxDone, connDone), f)
  }

  lemma AnswerOwes(r: Req, outcome: UnaryOutcome, ctxDone: bool, connDone: bool)
    ensures MakesOwe(r, Answer(outcome), ctxDone, connDone,
              match outcome
              case Answered(p) => Frame(Result, r.id, "", p, None)
              case BadPayload(d) =>
                Frame(Error, r.id, "", None, Some(RpcError(BadRequest, "bad control request: " + d)))
              case EncodeFailed(d) => Frame(Error, r.id, "", None, Some(RpcError(Internal, "encode response: " + d))))
  {
  }

  lemma ReturnOwes(r: Req, failure: Option<string>, ctxDone: bool, connDone: bool)
    ensures MakesOwe(r, Return(failure), ctxDone, connDone,
              if failure.Some? && !ctxDone then Frame(Error, r.id, "", None, Some(RpcError(Internal, failure.value)))
              else Frame(Result, r.id, "", None, None))
  {
  }

  lemma PanicOwes(r: Req, detail: string, ctxDone: bool, connDone: bool)
    ensures MakesOwe(r, Panic(detail), ctxDone, connDone,
              Frame(Error, r.id, "", None,
                Some(RpcError(Internal, (if r.stream then "stream panic: " else "dispatch panic: ") + detail))))
  {
  }

  /** A handler that ends has been running: its context is done only if it was cancelled or the
      connection was, and it has queued no terminal frame. */
  lemma EndsFromRunning(r: Req, fs: seq<Frame>, a: Action, done: bool, cancelIds: set<string>)
    requires LifeOk(r, fs, done, cancelIds) && Ending(a) && CanAct(r, a, r.asked || r.closed || done, done)
    ensures Queues(r, a).None? && !r.closed && Terminals(fs) == 0
  {
    hide CarriedOk, Grammar, Terminals;
  }

  /** From the step that ends the handler on, the frame it owes decides what is queued. */
  lemma EndingDecides(c: Config, steps: seq<Step>, k: nat, g: nat, a: Action, f: Frame)
    requires CanRun(c, Init(), steps) && k < |steps| && CanRun(c, Init(), steps[..k])
    requires steps[k] == Act(g, a) && Ending(a) && g < |Run(c, Init(), steps[..k]).reqs|
    requires var s := Run(c, Init(), steps[..k]); MakesOwe(s.reqs[g], a, CtxDone(s, g), s.done, f)
    ensures var s, t := Run(c, Init(), steps[..k]), Run(c, Init(), steps);
      && g < |t.reqs| && t.reqs[g].id == s.reqs[g].id && t.reqs[g].stream == s.reqs[g].stream
      && EndsWith(t.reqs[g], Owned(t.log, g), f)
  {
    hide CanRun, Run, SlotInv, TableInv, QueueInv, LogOk, LifeOk, Owned, Owes, Moved, CanAct, Queues, EndsWith, Ending,
      OnAct;
    RunAt(c, steps, k);
    var s, t := Run(c, Init(), steps[..k]), Run(c, Init(), steps);
    var r, fs := s.reqs[g], Owned(s.log, g);
    EndsFromRunning(r, fs, a, s.done, s.cancelIds);
    forall i | 0 <= i < |fs|
      ensures !IsTerminal(fs[i])
    {
      NoTerminals(fs, i);
    }
    MoveKeeps(r, a, CtxDone(s, g), s.done);
    ActMoves(s, g, a);
    OwnedAct(s, g, a, g);
    assert fs + [] == fs;
    OwesRun(c, OnAct(s, g, a), g, steps[k + 1..], f);
    LifeEnds(t.reqs[g], Owned(t.log, g), f, t.done, t.cancelIds);
  }

  /** A unary request queues one frame at most, and it says what the dispatch came to: the
      answer as the payload of a result, a payload that does not parse as a bad request, an
      answer that cannot be encoded as an internal error. */
  lemma UnaryAnswers(c: Config, steps: seq<Step>, k: nat, g: nat, outcome: UnaryOutcome)
    requires CanRun(c, Init(), steps) && k < |steps| && steps[k] == Act(g, Answer(outcome))
    ensures var t := Run(c, Init(), steps);
      && g < |t.reqs| && !t.reqs[g].stream
      && var id, fs := t.reqs[g].id, Owned(t.log, g);
      && var f := match outcome
                  case Answered(p) => Frame(Result, id, "", p, None)
                  case BadPayload(d) =>
                    Frame(Error, id, "", None, Some(RpcError(BadRequest, "bad control request: " + d)))
                  case EncodeFailed(d) => Frame(Error, id, "", None, Some(RpcError(Internal, "encode response: " + d)));
      && (fs == [] || fs == [f])
      && (t.reqs[g].pc.Finished? && t.reqs[g].outcome.Replied? ==> fs == [f])
  {
    hide CanRun, Run, Inv, Owned, MakesOwe, Terminals, OnlyTerminal;
    RunAt(c, steps, k);
    var s := Run(c, Init(), steps[..k]);
    AnswerOwes(s.reqs[g], outcome, CtxDone(s, g), s.done);
    var id := s.reqs[g].id;
    EndingDecides(c, steps, k, g, Answer(outcome),
      match outcome
      case Answered(p) => Frame(Result, id, "", p, None)
      case BadPayload(d) => Frame(Error, id, "", None, Some(RpcError(BadRequest, "bad control request: " + d)))
      case EncodeFailed(d) => Frame(Error, id, "", None, Some(RpcError(Internal, "encode response: " + d))));
  }

  /** The only terminal frame of a stream says how its handler returned: with the text of its
      error, unless there was none or the request or the connection was cancelled by then. */
  lemma StreamAnswers(c: Config, steps: seq<Step>, k: nat, g: nat, failure: Option<string>)
    requires CanRun(c, Init(), steps) && k < |steps| && steps[k] == Act(g, Return(failure))
    ensures CanRun(c, Init(), steps[..k])
    ensures var s, t := Run(c, Init(), steps[..k]), Run(c, Init(), steps);
      && g < |s.reqs| && g < |t.reqs| && t.reqs[g].stream
      && var id := t.reqs[g].id;
      && EndsWith(t.reqs[g], Owned(t.log, g),
           if failure.Some? && !s.reqs[g].asked && !s.done
           then Frame(Error, id, "", None, Some(RpcError(Internal, failure.value)))
           else Frame(Result, id, "", None, None))
  {
    hide CanRun, Run, SlotInv, TableInv, QueueInv, LogOk, LifeOk, Owned, MakesOwe, EndsWith;
    RunAt(c, steps, k);
    var s := Run(c, Init(), steps[..k]);
    ReturnOwes(s.reqs[g], failure, CtxDone(s, g), s.done);
    EndsFromRunning(s.reqs[g], Owned(s.log, g), Return(failure), s.done, s.cancelIds);
    var id := s.reqs[g].id;
    EndingDecides(c, steps, k, g, Return(failure),
      if failure.Some? && !CtxDone(s, g) then Frame(Error, id, "", None, Some(RpcError(Internal, failure.value)))
      else Frame(Result, id, "", None, None));
  }

  /** A recovered panic is reported as an internal error with its text, whether the context
      was cancelled or not. */
  lemma PanicAnswers(c: Config, steps: seq<Step>, k: nat, g: nat, detail: string)
    requires CanRun(c, Init(), steps) && k < |steps| && steps[k] == Act(g, Panic(detail))
    ensures var t := Run(c, Init(), steps);
      && g < |t.reqs|
      && var text := (if t.reqs[g].stream then "stream panic: " else "dispatch panic: ") + detail;
      && EndsWith(t.reqs[g], Owned(t.log, g), Frame(Error, t.reqs[g].id, "", None, Some(RpcError(Internal, text))))
  {
    hide CanRun, Run, Inv, Owned, MakesOwe, EndsWith;
    RunAt(c, steps, k);
    var s := Run(c, Init(), steps[..k]);
    var r := s.reqs[g];
    PanicOwes(r, detail, CtxDone(s, g), s.done);
    EndingDecides(c, steps, k, g, Panic(detail),
      Frame(Error, r.id, "", None,
        Some(RpcError(Internal, (if r.stream then "stream panic: " else "dispatch panic: ") + detail))));
  }

  // ---------------------------------------------------------------- the chunks

  function ChunksOf(fs: seq<Frame>): seq<Frame> {
    if fs == [] then []
    else ChunksOf(fs[..|fs| - 1]) + (if fs[|fs| - 1].kind.Chunk? then [fs[|fs| - 1]] else [])
  }

  /** The emit calls of one handler, read off the steps alone: the call in progress, and the
      payloads of the calls that have been let through so far. */
  datatype Emits = Emits(pending: Option<string>, through: seq<Option<string>>)

  function EmitsAfter(e: Emits, a: Action): Emits {
    match a
    case StartEmit(p) => e.(pending := p)
    case PushChunk => e.(through := e.through + [e.pending])
    case LateEmit(p) => e.(through := e.through + [p])
    case _ => e
  }

  function EmitsOf(steps: seq<Step>, g: nat): Emits {
    if steps == [] then Emits(None, [])
    else
      var e, step := EmitsOf(steps[..|steps| - 1], g), steps[|steps| - 1];
      if Moves(step, g) then EmitsAfter(e, step.action) else e
  }

  /** `chunks` are chunk frames under `id` with these payloads, in order. */
  ghost predicate Carries(chunks: seq<Frame>, id: string, payloads: seq<Option<string>>) {
    && |chunks| == |payloads|
    && forall i :: 0 <= i < |chunks| ==> chunks[i] == Frame(Chunk, id, "", payloads[i], None)
  }

  lemma ChunksAppend(fs: seq<Frame>, f: Frame)
    ensures ChunksOf(fs + [f]) == ChunksOf(fs) + (if f.kind.Chunk? then [f] else [])
  {
    assert (fs + [f])[..|fs|] == fs;
  }

  predicate Offers(r: Req, e: Emits) {
    r.pc.Emitting? ==> r.pc.chunk == Frame(Chunk, r.id, "", e.pending, None)
  }

  /** The chunks queued for `g` are those let through, and the one on offer is the one pending. */
  ghost predicate EmitsInv(s: State, g: nat, e: Emits) {
    if g < |s.reqs| then Carries(ChunksOf(Owned(s.log, g)), s.reqs[g].id, e.through) && Offers(s.reqs[g], e)
    else e.through == []
  }

  /** A move queues a chunk exactly when it lets an emit call through, and that call's payload. */
  lemma OffersMove(r: Req, a: Action, ctxDone: bool, connDone: bool, e: Emits)
    requires CarriedOk(r) && CanAct(r, a, ctxDone, connDone) && Offers(r, e)
    ensures Offers(Moved(r, a, ctxDone, connDone), EmitsAfter(e, a))
    ensures match Queues(r, a)
      case Some(f) =>
        if f.kind.Chunk? then
          exists p :: f == Frame(Chunk, r.id, "", p, None) && EmitsAfter(e, a).through == e.through + [p]
        else EmitsAfter(e, a).through == e.through
      case None => EmitsAfter(e, a).through == e.through
  {
    hide UnaryReply, StreamReply, PanicFrame;
  }

  lemma CarriesAppend(chunks: seq<Frame>, id: string, payloads: seq<Option<string>>, p: Option<string>)
    requires Carries(chunks, id, payloads)
    ensures Carries(chunks + [Frame(Chunk, id, "", p, None)], id, payloads + [p])
  {
  }

  /** The same for all the frames queued so far. */
  lemma CarriesMove(r: Req, fs: seq<Frame>, a: Action, ctxDone: bool, connDone: bool, e: Emits)
    requires CarriedOk(r) && CanAct(r, a, ctxDone, connDone) && Offers(r, e)
    requires Carries(ChunksOf(fs), r.id, e.through)
    ensures Carries(ChunksOf(fs + Queued(r, a)), r.id, EmitsAfter(e, a).through)
  {
    hide Moved, CanAct, CarriedOk, Queues, EmitsAfter, ChunksOf, Offers, Carries;
    OffersMove(r, a, ctxDone, connDone, e);
    match Queues(r, a) {
      case Some(f) =>
        ChunksAppend(fs, f);
        if f.kind.Chunk? {
          var p :| f == Frame(Chunk, r.id, "", p, None) && EmitsAfter(e, a).through == e.through + [p];
          CarriesAppend(ChunksOf(fs), r.id, e.through, p);
        } else {
          assert ChunksOf(fs) + [] == ChunksOf(fs);
        }
      case None => assert fs + [] == fs;
    }
  }

  lemma EmitsMove(s: State, g: nat, a: Action, e: Emits)
    requires g < |s.reqs| && CanAct(s.reqs[g], a, CtxDone(s, g), s.done) && (a.Release? ==> Taken(s, s.reqs[g]) > 0)
    requires CarriedOk(s.reqs[g]) && EmitsInv(s, g, e)
    ensures EmitsInv(OnAct(s, g, a), g, EmitsAfter(e, a))
  {
    hide Owned, ChunksOf, Offers, Moved, CanAct, CarriedOk, Queues, Queued, EmitsAfter, Carries, OnAct;
    var r := s.reqs[g];
    ActMoves(s, g, a);
    OwnedAct(s, g, a, g);
    MoveKeeps(r, a, CtxDone(s, g), s.done);
    OffersMove(r, a, CtxDone(s, g), s.done, e);
    CarriesMove(r, Owned(s.log, g), a, CtxDone(s, g), s.done, e);
  }

  lemma EmitsStep(c: Config, s: State, g: nat, step: Step, e: Emits)
    requires Inv(c, s) && Enabled(c, s, step) && EmitsInv(s, g, e)
    ensures EmitsInv(Apply(c, s, step), g, if Moves(step, g) then EmitsAfter(e, step.action) else e)
  {
    if Moves(step, g) {
      hide Inv, CarriedOk, CanAct, OnAct, EmitsInv, EmitsAfter, Owned;
      CarriedIn(c, s, g);
      EmitsMove(s, g, step.action, e);
    } else if g < |s.reqs| {
      hide SlotInv, QueueInv, LogOk, LivesOk, Apply, Enabled, Owned, EmitsInv;
      OthersStep(c, s, g, step);
      EmitsStay(s, Apply(c, s, step), g, e);
    } else {
      hide SlotInv, QueueInv, LivesOk, EmitsInv;
      EmitsSpawn(c, s, g, step, e);
    }
  }

  lemma EmitsStay(s: State, t: State, g: nat, e: Emits)
    requires EmitsInv(s, g, e) && g < |s.reqs| && g < |t.reqs| && t.reqs[g].id == s.reqs[g].id
    requires t.reqs[g].pc == s.reqs[g].pc && Owned(t.log, g) == Owned(s.log, g)
    ensures EmitsInv(t, g, e)
  {
    hide Owned, ChunksOf, Carries;
  }

  lemma CarriedIn(c: Config, s: State, g: nat)
    requires Inv(c, s) && g < |s.reqs|
    ensures CarriedOk(s.reqs[g])
  {
    hide SlotInv, TableInv, QueueInv, LogOk, Owned;
    assert LifeOk(s.reqs[g], Owned(s.log, g), s.done, s.cancelIds);
  }

  lemma EmitsSpawn(c: Config, s: State, g: nat, step: Step, e: Emits)
    requires TableInv(s) && LogOk(s) && Enabled(c, s, step) && EmitsInv(s, g, e) && g >= |s.reqs|
    ensures EmitsInv(Apply(c, s, step), g, e)
  {
    hide Owned, ChunksOf, Carries, OnAct, CanAct;
    OwnedByNone(s, g);
    if step.Act? {
      ActMoves(s, step.g, step.action);
    }
  }

  lemma OwnedByNone(s: State, g: nat)
    requires LogOk(s) && g >= |s.reqs|
    ensures Owned(s.log, g) == [] && forall id :: Carries(ChunksOf(Owned(s.log, g)), id, [])
  {
    OwnedNone(s.log, g);
  }

  lemma {:induction false} EmitsRun(c: Config, steps: seq<Step>, g: nat)
    requires CanRun(c, Init(), steps)
    ensures EmitsInv(Run(c, Init(), steps), g, EmitsOf(steps, g))
    decreases |steps|
  {
    hide Enabled, Apply, Inv, EmitsInv;
    if steps == [] {
      EmitsStart(g);
    } else {
      var k := |steps| - 1;
      RunAt(c, steps, k);
      EmitsRun(c, steps[..k], g);
      assert steps == steps[..k] + [steps[k]] && steps[k + 1..] == [];
      EmitsStep(c, Run(c, Init(), steps[..k]), g, steps[k], EmitsOf(steps[..k], g));
    }
  }

  lemma EmitsStart(g: nat)
    ensures EmitsInv(Init(), g, EmitsOf([], g))
  {
  }

  /** The chunks of a request are the payloads its emit calls were let through with, each under
      the id of the request and in the order of the calls. */
  lemma ChunksCarryEmits(c: Config, steps: seq<Step>, g: nat)
    requires CanRun(c, Init(), steps) && g < |Run(c, Init(), steps).reqs|
    ensures var s := Run(c, Init(), steps);
      Carries(ChunksOf(Owned(s.log, g)), s.reqs[g].id, EmitsOf(steps, g).through)
  {
    EmitsRun(c, steps, g);
  }

  // ---------------------------------------------------------------- what the read loop does

  /** A request frame with an id and an op is registered under its id and spawned once, in line
      for the pool of its kind; a frame that is neither a request nor a cancel does nothing. */
  lemma FrameSpawns(c: Config, s: State, f: Frame)
    requires TableBounded(s) && s.reader == Handling(f)
    ensures var t := Apply(c, s, Handle).(reader := s.reader);
      if f.kind.Request? && f.id != "" && f.op != "" then
        && |t.reqs| == |s.reqs| + 1 && t.reqs[..|s.reqs|] == s.reqs
        && var r := t.reqs[|s.reqs|];
        && r.id == f.id && (r.stream <==> f.op in c.streamOps) && (r.stream ==> r.joins == c.streamOps[f.op])
        && r.pc.Waiting? && r.outcome.Open? && !r.asked && !r.closed
        && t == s.(reqs := t.reqs, inflight := s.inflight[f.id := |s.reqs|])
      else f.kind.Cancel? || t == s
  {
  }

  /** A request gets in exactly while its own pool has a slot free, and what it has to say into the
      queue exactly while fewer than 64 frames wait; so does a heartbeat. */
  lemma Admission(c: Config, s: State, g: nat)
    requires Inv(c, s) && g < |s.reqs|
    ensures s.reqs[g].pc.Waiting? ==> (Enabled(c, s, Act(g, Acquire)) <==>
      if s.reqs[g].stream then Sum(s.reqs, HoldsStream) < c.maxStreams else Sum(s.reqs, HoldsUnary) < c.maxConcurrent)
    ensures s.reqs[g].pc.Emitting? ==> (Enabled(c, s, Act(g, PushChunk)) <==> |s.out| < 64)
    ensures s.reqs[g].pc.Replying? ==> (Enabled(c, s, Act(g, PushReply)) <==> |s.out| < 64)
    ensures s.reqs[g].pc.PanicReply? ==> (Enabled(c, s, Act(g, PushPanic)) <==> |s.out| < 64)
    ensures forall beat :: Enabled(c, s, Heartbeat(beat)) <==> |s.out| < 64
  {
    hide TableInv, QueueInv, LogOk, LivesOk, Sum;
  }

  // ---------------------------------------------------------------- an answer can always get out

  ghost predicate Reaches(c: Config, s: State, steps: seq<Step>, t: State) {
    CanRun(c, s, steps) && Run(c, s, steps) == t
  }

  lemma ReachesItself(c: Config, s: State)
    requires Inv(c, s)
    ensures Reaches(c, s, [], s)
  {
    hide SlotInv, QueueInv, LogOk, LivesOk;
  }

  /** `step` takes the connection from `s` to `t`. */
  ghost predicate Leads(c: Config, s: State, step: Step, t: State) {
    TableBounded(s) && Enabled(c, s, step) && Apply(c, s, step) == t
  }

  lemma ReachesBy(c: Config, s: State, step: Step, t: State, steps: seq<Step>, u: State)
    requires Leads(c, s, step, t) && Reaches(c, t, steps, u)
    ensures Reaches(c, s, [step] + steps, u)
  {
    hide Enabled, Apply, TableBounded;
    assert ([step] + steps)[1..] == steps;
  }

  lemma {:induction false} ReachesAlong(c: Config, s: State, a: seq<Step>, t: State, b: seq<Step>, u: State)
    requires Reaches(c, s, a, t) && Reaches(c, t, b, u)
    ensures Reaches(c, s, a + b, u)
    decreases |a|
  {
    hide Enabled, Apply;
    if a == [] {
      assert a + b == b;
    } else {
      ReachesAlong(c, Apply(c, s, a[0]), a[1..], t, b, u);
      assert (a + b)[1..] == a[1..] + b;
    }
  }

  /** While the writer is alive it makes room in a full queue by at most two steps of its own. */
  lemma RoomIsMade(c: Config, s: State) returns (steps: seq<Step>, t: State)
    requires Inv(c, s) && !s.writer.WriterGone?
    ensures Reaches(c, s, steps, t) && |steps| <= 2 && Inv(c, t) && HasRoom(t)
    ensures t == s.(out := t.out, wire := t.wire, writer := t.writer, taken := t.taken) && !t.writer.WriterGone?
  {
    hide Reaches, SlotInv, LogOk, LivesOk, Marshalled;
    steps, t := [], s;
    ReachesItself(c, s);
    if !HasRoom(s) {
      var r := s;
      if s.writer.Writing? {
        InvStep(c, s, WriteOk);
        r := Apply(c, s, WriteOk);
      }
      InvStep(c, r, Take);
      t := Apply(c, r, Take);
      ReachesItself(c, t);
      ReachesBy(c, r, Take, t, [], t);
      steps := [Take] + [];
      if s.writer.Writing? {
        ReachesBy(c, s, WriteOk, r, steps, t);
        steps := [WriteOk] + steps;
      }
    }
  }

  /** One move of `g`, as far as `g` itself and the room in the queue go. */
  lemma OwnMove(c: Config, s: State, g: nat, a: Action) returns (t: State)
    requires Inv(c, s) && g < |s.reqs| && CanAct(s.reqs[g], a, CtxDone(s, g), s.done)
    requires (Queues(s.reqs[g], a).Some? ==> HasRoom(s)) && !a.Acquire?
    ensures Leads(c, s, Act(g, a), t) && Inv(c, t)
    ensures t.reqs == s.reqs[g := Moved(s.reqs[g], a, CtxDone(s, g), s.done)]
    ensures t.done == s.done && t.writer == s.writer && (Queues(s.reqs[g], a).None? && HasRoom(s) ==> HasRoom(t))
    ensures Owned(t.log, g) == Owned(s.log, g) + Queued(s.reqs[g], a)
  {
    if a.Release? {
      SumBound(s.reqs, g, HoldsUnary);
      SumBound(s.reqs, g, HoldsStream);
    }
    hide SlotInv, QueueInv, LogOk, LivesOk, CanAct, Moved, Queues, Queued, Owned, Sum;
    ActMoves(s, g, a);
    OwnedAct(s, g, a, g);
    InvStep(c, s, Act(g, a));
    t := Apply(c, s, Act(g, a));
  }

  /** What the moves of an ending request lead to, one after the other. */
  lemma WindsUp(r: Req, ctxDone: bool, connDone: bool)
    ensures r.pc.Replying? ==>
      && CanAct(r, PushReply, ctxDone, connDone) && Queued(r, PushReply) == [r.pc.reply]
      && Moved(r, PushReply, ctxDone, connDone) == r.(pc := Releasing(None), outcome := Replied)
    ensures r.pc.Releasing? ==>
      && CanAct(r, Release, ctxDone, connDone) && Queues(r, Release).None?
      && Moved(r, Release, ctxDone, connDone) == r.(pc := Leaving(r.pc.panic))
    ensures r.pc.Leaving? ==>
      && CanAct(r, Unregister, ctxDone, connDone) && Queues(r, Unregister).None?
      && Moved(r, Unregister, ctxDone, connDone) == r.(pc := Cancelling(r.pc.panic))
    ensures r.pc.Cancelling? ==>
      && CanAct(r, CancelCtx, ctxDone, connDone) && Queues(r, CancelCtx).None?
      && Moved(r, CancelCtx, ctxDone, connDone) ==
           r.(pc := if r.pc.panic.Some? then PanicReply(r.pc.panic.value) else Finished, closed := true)
    ensures r.pc.PanicReply? ==>
      && CanAct(r, PushPanic, ctxDone, connDone) && Queued(r, PushPanic) == [r.pc.reply]
      && Moved(r, PushPanic, ctxDone, connDone) == r.(pc := Finished, outcome := Replied)
  {
  }

  /** `g` has left its handler and cleaned up; `fs` is all it has queued since `s`. */
  ghost predicate EndedWith(s: State, t: State, g: nat, fs: seq<Frame>) {
    && g < |s.reqs| == |t.reqs| && t.reqs[g].id == s.reqs[g].id
    && t.reqs[g].pc.Finished? && t.reqs[g].outcome.Replied?
    && Owned(t.log, g) == Owned(s.log, g) + fs
  }

  /** A move that queues nothing. */
  lemma SilentMove(c: Config, s: State, g: nat, a: Action, m: Req) returns (t: State)
    requires Inv(c, s) && g < |s.reqs| && CanAct(s.reqs[g], a, CtxDone(s, g), s.done) && !a.Acquire?
    requires Queues(s.reqs[g], a).None? && Moved(s.reqs[g], a, CtxDone(s, g), s.done) == m
    ensures Leads(c, s, Act(g, a), t) && Inv(c, t) && |t.reqs| == |s.reqs| && t.reqs[g] == m
    ensures Owned(t.log, g) == Owned(s.log, g) && (HasRoom(s) ==> HasRoom(t))
  {
    hide Inv, Leads, Moved, CanAct, Queues, HasRoom, CtxDone, Owned;
    t := OwnMove(c, s, g, a);
    NothingMore(Owned(s.log, g), []);
  }

  /** The deferred moves: the slot is given back, the table entry dropped, the context cancelled. */
  lemma CleanRun(c: Config, s: State, g: nat) returns (steps: seq<Step>, t: State)
    requires Inv(c, s) && g < |s.reqs| && s.reqs[g].pc.Releasing?
    ensures |steps| == 3 && Reaches(c, s, steps, t) && Inv(c, t) && |t.reqs| == |s.reqs|
    ensures Owned(t.log, g) == Owned(s.log, g) && (HasRoom(s) ==> HasRoom(t))
    ensures var r := s.reqs[g];
      t.reqs[g] == r.(pc := if r.pc.panic.Some? then PanicReply(r.pc.panic.value) else Finished, closed := true)
  {
    hide Inv, Reaches, Leads, Moved, CanAct, Queues, HasRoom, CtxDone, Owned;
    var r := s.reqs[g];
    WindsUp(r, CtxDone(s, g), s.done);
    var s1 := SilentMove(c, s, g, Release, r.(pc := Leaving(r.pc.panic)));
    WindsUp(s1.reqs[g], CtxDone(s1, g), s1.done);
    var s2 := SilentMove(c, s1, g, Unregister, r.(pc := Cancelling(r.pc.panic)));
    WindsUp(s2.reqs[g], CtxDone(s2, g), s2.done);
    t := SilentMove(c, s2, g, CancelCtx,
      r.(pc := if r.pc.panic.Some? then PanicReply(r.pc.panic.value) else Finished, closed := true));
    ReachesItself(c, t);
    ReachesBy(c, s2, Act(g, CancelCtx), t, [], t);
    ReachesBy(c, s1, Act(g, Unregister), s2, [Act(g, CancelCtx)] + [], t);
    steps := [Act(g, Unregister)] + ([Act(g, CancelCtx)] + []);
    ReachesBy(c, s, Act(g, Release), s1, steps, t);
    steps := [Act(g, Release)] + steps;
  }

  lemma ReplyRun(c: Config, s: State, g: nat, f: Frame) returns (steps: seq<Step>, t: State)
    requires Inv(c, s) && HasRoom(s) && g < |s.reqs| && s.reqs[g].pc == Replying(f)
    ensures |steps| == 4 && Reaches(c, s, steps, t) && EndedWith(s, t, g, [f])
  {
    hide Inv, Reaches, Leads, Moved, CanAct, Queues, Queued, HasRoom, CtxDone, Owned;
    WindsUp(s.reqs[g], CtxDone(s, g), s.done);
    var s1 := OwnMove(c, s, g, PushReply);
    steps, t := CleanRun(c, s1, g);
    ReachesBy(c, s, Act(g, PushReply), s1, steps, t);
    steps := [Act(g, PushReply)] + steps;
  }

  lemma PanicRun(c: Config, s: State, g: nat, f: Frame) returns (steps: seq<Step>, t: State)
    requires Inv(c, s) && HasRoom(s) && g < |s.reqs| && s.reqs[g].pc == Releasing(Some(f))
    ensures |steps| == 4 && Reaches(c, s, steps, t) && EndedWith(s, t, g, [f])
  {
    hide Inv, Reaches, Leads, Moved, CanAct, Queues, Queued, HasRoom, CtxDone, Owned;
    var clean, s1 := CleanRun(c, s, g);
    WindsUp(s1.reqs[g], CtxDone(s1, g), s1.done);
    t := OwnMove(c, s1, g, PushPanic);
    ReachesItself(c, t);
    ReachesBy(c, s1, Act(g, PushPanic), t, [], t);
    ReachesAlong(c, s, clean, s1, [Act(g, PushPanic)] + [], t);
    steps := clean + ([Act(g, PushPanic)] + []);
  }

  lemma NothingMore(fs: seq<Frame>, more: seq<Frame>)
    ensures fs + [] == fs && fs + more + [] == fs + more
  {
  }

  lemma EndingMoves(r: Req, a: Action, ctxDone: bool, connDone: bool, f: Frame)
    requires Ending(a) && CanAct(r, a, ctxDone, connDone) && MakesOwe(r, a, ctxDone, connDone, f)
    ensures Queues(r, a).None? && Queued(r, a) == []
    ensures Moved(r, a, ctxDone, connDone).pc in {Replying(f), Releasing(Some(f))}
    ensures Moved(r, a, ctxDone, connDone).id == r.id && !a.Acquire?
  {
  }

  /** A handler that ends is cleaned up after in five moves, its last frame queued. */
  lemma EndRun(c: Config, s: State, g: nat, a: Action, f: Frame) returns (steps: seq<Step>, t: State)
    requires Inv(c, s) && HasRoom(s) && g < |s.reqs| && Ending(a) && CanAct(s.reqs[g], a, CtxDone(s, g), s.done)
    requires MakesOwe(s.reqs[g], a, CtxDone(s, g), s.done, f)
    ensures |steps| == 5 && steps[0] == Act(g, a) && Reaches(c, s, steps, t) && EndedWith(s, t, g, [f])
  {
    hide Inv, Reaches, Leads, Moved, CanAct, Queues, HasRoom, CtxDone, Owned, MakesOwe, Ending;
    EndingMoves(s.reqs[g], a, CtxDone(s, g), s.done, f);
    var s1 := OwnMove(c, s, g, a);
    if s1.reqs[g].pc.Replying? {
      steps, t := ReplyRun(c, s1, g, f);
    } else {
      steps, t := PanicRun(c, s1, g, f);
    }
    ReachesBy(c, s, Act(g, a), s1, steps, t);
    steps := [Act(g, a)] + steps;
    NothingMore(Owned(s.log, g), [f]);
  }

  lemma EmitMoves(r: Req, p: Option<string>, ctxDone: bool, connDone: bool)
    ensures r.pc.Running? && r.stream ==>
      && CanAct(r, StartEmit(p), ctxDone, connDone) && Queues(r, StartEmit(p)).None?
      && Moved(r, StartEmit(p), ctxDone, connDone) == r.(pc := Emitting(Frame(Chunk, r.id, "", p, None)))
    ensures r.pc.Emitting? ==>
      && CanAct(r, PushChunk, ctxDone, connDone) && Queued(r, PushChunk) == [r.pc.chunk]
      && Moved(r, PushChunk, ctxDone, connDone) == r.(pc := Running)
      && (ctxDone ==>
            && CanAct(r, DropChunk, ctxDone, connDone) && Queued(r, DropChunk) == []
            && Moved(r, DropChunk, ctxDone, connDone) == r.(pc := Running))
  {
  }

  /** What a handler emits gets into the queue chunk by chunk, and it runs on. */
  lemma {:induction false} EmitRun(c: Config, s: State, g: nat, payloads: seq<Option<string>>)
      returns (steps: seq<Step>, t: State)
    requires Inv(c, s) && !s.writer.WriterGone? && g < |s.reqs| && s.reqs[g].pc.Running? && s.reqs[g].stream
    ensures |steps| <= 4 * |payloads| && Reaches(c, s, steps, t) && Inv(c, t) && !t.writer.WriterGone?
    ensures t.reqs == s.reqs && t.done == s.done
    ensures Owned(t.log, g) == Owned(s.log, g) + ChunkFrames(s.reqs[g].id, payloads)
    decreases |payloads|
  {
    hide Inv, Reaches, Leads, Moved, CanAct, Queues, Queued, HasRoom, CtxDone, Owned;
    if payloads == [] {
      steps, t := [], s;
      ReachesItself(c, s);
      NothingMore(Owned(s.log, g), []);
    } else {
      var front, p := payloads[..|payloads| - 1], payloads[|payloads| - 1];
      var before, s1 := EmitRun(c, s, g, front);
      var room, s2 := RoomIsMade(c, s1);
      EmitMoves(s2.reqs[g], p, CtxDone(s2, g), s2.done);
      var s3 := OwnMove(c, s2, g, StartEmit(p));
      EmitMoves(s3.reqs[g], p, CtxDone(s3, g), s3.done);
      t := OwnMove(c, s3, g, PushChunk);
      NothingMore(Owned(s2.log, g), []);
      NoneQueued(s2.reqs[g], StartEmit(p));
      ReachesItself(c, t);
      ReachesBy(c, s3, Act(g, PushChunk), t, [], t);
      ReachesBy(c, s2, Act(g, StartEmit(p)), s3, [Act(g, PushChunk)] + [], t);
      steps := [Act(g, StartEmit(p))] + ([Act(g, PushChunk)] + []);
      ReachesAlong(c, s1, room, s2, steps, t);
      ReachesAlong(c, s, before, s1, room + steps, t);
      steps := before + (room + steps);
    }
  }

  lemma NoneQueued(r: Req, a: Action)
    requires Queues(r, a).None?
    ensures Queued(r, a) == []
  {
  }

  function ChunkFrames(id: string, payloads: seq<Option<string>>): seq<Frame> {
    if payloads == [] then []
    else ChunkFrames(id, payloads[..|payloads| - 1]) + [Frame(Chunk, id, "", payloads[|payloads| - 1], None)]
  }

  /** A slot is free in the pool that serves `op`. */
  ghost predicate SlotFree(c: Config, s: State, op: string) {
    if op in c.streamOps then Sum(s.reqs, HoldsStream) < c.maxStreams else Sum(s.reqs, HoldsUnary) < c.maxConcurrent
  }

  lemma GetsIn(c: Config, s: State, g: nat) returns (t: State)
    requires Inv(c, s) && g < |s.reqs| && s.reqs[g].pc.Waiting?
    requires if s.reqs[g].stream then s.streamSlots < c.maxStreams else s.unarySlots < c.maxConcurrent
    ensures Leads(c, s, Act(g, Acquire), t) && Inv(c, t) && t.reqs == s.reqs[g := s.reqs[g].(pc := Running)]
    ensures t.writer == s.writer && t.done == s.done && t.log == s.log
  {
    hide SlotInv, QueueInv, LogOk, LivesOk;
    InvStep(c, s, Act(g, Acquire));
    t := Apply(c, s, Act(g, Acquire));
  }

  /** A request that arrives while its pool has a slot free is running three steps later. */
  lemma Arrives(c: Config, s: State, f: Frame) returns (t: State)
    requires Inv(c, s) && s.reader.Reading? && f.kind.Request? && f.id != "" && f.op != "" && SlotFree(c, s, f.op)
    ensures Reaches(c, s, [Read(f), Handle, Act(|s.reqs|, Acquire)], t) && Inv(c, t)
    ensures |t.reqs| == |s.reqs| + 1 && t.writer == s.writer && t.done == s.done && Owned(t.log, |s.reqs|) == []
    ensures var r := t.reqs[|s.reqs|];
      r.id == f.id && r.pc.Running? && (r.stream <==> f.op in c.streamOps) && !r.asked && !r.closed
  {
    hide Reaches, QueueInv, LivesOk, Sum, CanAct, Moved, Queues, OnAct, Owned;
    var g := |s.reqs|;
    OwnedByNone(s, g);
    InvStep(c, s, Read(f));
    var s1 := Apply(c, s, Read(f));
    InvStep(c, s1, Handle);
    FrameSpawns(c, s1, f);
    var s2 := Apply(c, s1, Handle);
    t := GetsIn(c, s2, g);
    ReachesItself(c, t);
    ReachesBy(c, s2, Act(g, Acquire), t, [], t);
    ReachesBy(c, s1, Handle, s2, [Act(g, Acquire)] + [], t);
    ReachesBy(c, s, Read(f), s1, [Handle] + ([Act(g, Acquire)] + []), t);
    assert [Read(f)] + ([Handle] + ([Act(g, Acquire)] + [])) == [Read(f), Handle, Act(g, Acquire)];
  }

  /** From a running handler to the end: its chunks, then the frame its ending owes. */
  lemma ServeRun(c: Config, s: State, g: nat, payloads: seq<Option<string>>, a: Action, f: Frame)
      returns (steps: seq<Step>, t: State)
    requires Inv(c, s) && !s.writer.WriterGone? && g < |s.reqs| && s.reqs[g].pc.Running?
    requires payloads == [] || s.reqs[g].stream
    requires Ending(a) && CanAct(s.reqs[g], a, CtxDone(s, g), s.done)
    requires MakesOwe(s.reqs[g], a, CtxDone(s, g), s.done, f)
    ensures |steps| <= 4 * |payloads| + 7 && Reaches(c, s, steps, t)
    ensures EndedWith(s, t, g, ChunkFrames(s.reqs[g].id, payloads) + [f])
  {
    hide Inv, Reaches, Moved, CanAct, HasRoom, Owned, MakesOwe, Ending;
    var emits, s1 := [], s;
    ReachesItself(c, s);
    NothingMore(Owned(s.log, g), []);
    if s.reqs[g].stream {
      emits, s1 := EmitRun(c, s, g, payloads);
    }
    var room, s2 := RoomIsMade(c, s1);
    var own;
    own, t := EndRun(c, s2, g, a, f);
    ReachesAlong(c, s1, room, s2, own, t);
    ReachesAlong(c, s, emits, s1, room + own, t);
    steps := emits + (room + own);
    var chunks := ChunkFrames(s.reqs[g].id, payloads);
    assert Owned(s.log, g) + (chunks + [f]) == Owned(s.log, g) + chunks + [f];
  }

  /** Whatever else is going on, a unary request that arrives while its pool has a slot free and
      the writer is alive can be answered in ten steps, and then all it has queued is its answer. */
  lemma RequestGetsAnswered(c: Config, s: State, f: Frame, outcome: UnaryOutcome) returns (steps: seq<Step>)
    requires Inv(c, s) && s.reader.Reading? && !s.writer.WriterGone? && SlotFree(c, s, f.op)
    requires f.kind.Request? && f.id != "" && f.op != "" && f.op !in c.streamOps
    ensures CanRun(c, s, steps) && |steps| <= 10
    ensures var t, g := Run(c, s, steps), |s.reqs|;
      && |t.reqs| == g + 1 && t.reqs[g].id == f.id && t.reqs[g].pc.Finished?
      && Owned(t.log, g) ==
        [match outcome
         case Answered(p) => Frame(Result, f.id, "", p, None)
         case BadPayload(d) => Frame(Error, f.id, "", None, Some(RpcError(BadRequest, "bad control request: " + d)))
         case EncodeFailed(d) => Frame(Error, f.id, "", None, Some(RpcError(Internal, "encode response: " + d)))]
  {
    hide Inv, Owned, CanRun, Run, SlotFree, Moved, MakesOwe;
    var g := |s.reqs|;
    var s1 := Arrives(c, s, f);
    AnswerOwes(s1.reqs[g], outcome, CtxDone(s1, g), s1.done);
    var own, t := ServeRun(c, s1, g, [], Answer(outcome),
      match outcome
      case Answered(p) => Frame(Result, f.id, "", p, None)
      case BadPayload(d) => Frame(Error, f.id, "", None, Some(RpcError(BadRequest, "bad control request: " + d)))
      case EncodeFailed(d) => Frame(Error, f.id, "", None, Some(RpcError(Internal, "encode response: " + d))));
    ReachesAlong(c, s, [Read(f), Handle, Act(g, Acquire)], s1, own, t);
    steps := [Read(f), Handle, Act(g, Acquire)] + own;
  }

  /** Likewise a stream: all that its handler emits gets through in order, and then the result, or
      the error it returned. */
  lemma StreamGetsServed(c: Config, s: State, f: Frame, payloads: seq<Option<string>>, failure: Option<string>)
      returns (steps: seq<Step>)
    requires Inv(c, s) && s.reader.Reading? && !s.writer.WriterGone? && SlotFree(c, s, f.op) && !s.done
    requires f.kind.Request? && f.id != "" && f.op != "" && f.op in c.streamOps
    ensures CanRun(c, s, steps) && |steps| <= 4 * |payloads| + 10
    ensures var t, g := Run(c, s, steps), |s.reqs|;
      && |t.reqs| == g + 1 && t.reqs[g].id == f.id && t.reqs[g].pc.Finished?
      && Owned(t.log, g) == ChunkFrames(f.id, payloads) +
        [match failure
         case None => Frame(Result, f.id, "", None, None)
         case Some(x) => Frame(Error, f.id, "", None, Some(RpcError(Internal, x)))]
  {
    hide Inv, Owned, CanRun, Run, SlotFree, Moved, MakesOwe;
    var g := |s.reqs|;
    var s1 := Arrives(c, s, f);
    ReturnOwes(s1.reqs[g], failure, CtxDone(s1, g), s1.done);
    var own, t := ServeRun(c, s1, g, payloads, Return(failure),
      if failure.Some? && !CtxDone(s1, g) then Frame(Error, f.id, "", None, Some(RpcError(Internal, failure.value)))
      else Frame(Result, f.id, "", None, None));
    ReachesAlong(c, s, [Read(f), Handle, Act(g, Acquire)], s1, own, t);
    steps := [Read(f), Handle, Act(g, Acquire)] + own;
  }

  /** And a request whose handler panics, at any point: what it has emitted, then the error. */
  lemma PanicGetsReported(c: Config, s: State, f: Frame, payloads: seq<Option<string>>, detail: string)
      returns (steps: seq<Step>)
    requires Inv(c, s) && s.reader.Reading? && !s.writer.WriterGone? && SlotFree(c, s, f.op)
    requires f.kind.Request? && f.id != "" && f.op != "" && (payloads == [] || f.op in c.streamOps)
    ensures CanRun(c, s, steps) && |steps| <= 4 * |payloads| + 10
    ensures var t, g := Run(c, s, steps), |s.reqs|;
      && |t.reqs| == g + 1 && t.reqs[g].id == f.id && t.reqs[g].pc.Finished?
      && var text := (if f.op in c.streamOps then "stream panic: " else "dispatch panic: ") + detail;
      Owned(t.log, g) == ChunkFrames(f.id, payloads) + [Frame(Error, f.id, "", None, Some(RpcError(Internal, text)))]
  {
    hide Inv, Owned, CanRun, Run, SlotFree, Moved, MakesOwe;
    var g := |s.reqs|;
    var s1 := Arrives(c, s, f);
    PanicOwes(s1.reqs[g], detail, CtxDone(s1, g), s1.done);
    var text := (if f.op in c.streamOps then "stream panic: " else "dispatch panic: ") + detail;
    var own, t := ServeRun(c, s1, g, payloads, Panic(detail),
      Frame(Error, f.id, "", None, Some(RpcError(Internal, text))));
    ReachesAlong(c, s, [Read(f), Handle, Act(g, Acquire)], s1, own, t);
    steps := [Read(f), Handle, Act(g, Acquire)] + own;
  }
}
