/** A connection that has been told to stop always drains: a weight over the program
    counters bounds every run, and no goroutine can be stuck once the connection is done. */
module LinkDrain {
  import opened Common
  import opened Envelope
  import opened Link
  import opened LinkInvariants

  /** Moves the daemon makes by itself. Inputs are the panel's frames, the heartbeat ticker,
      the shutdown request, and a handler deciding to emit. */
  predicate Internal(step: Step) {
    !step.Read? && !step.CancelParent? && !step.Heartbeat? &&
    !(step.Act? && (step.action.StartEmit? || step.action.LateEmit?))
  }

  /** Nothing of the connection is left. */
  ghost predicate Drained(s: State) {
    && s.reader.ReaderGone? && s.writer.WriterGone?
    && (forall r <- s.reqs :: r.pc.Finished?)
    && s.inflight == map[] && s.unarySlots == 0 && s.streamSlots == 0
  }

  // A queued frame costs 3: it is taken, written and leaves its sender behind.
  const FRAME := 3

  function Weight(r: Req): nat {
    match r.pc
    case Waiting => 13
    case Running => 12
    case Emitting(_) => 16
    case Replying(_) => 11
    case Releasing(_) => 7
    case Leaving(_) => 6
    case Cancelling(_) => 5
    case PanicReply(_) => 4
    case Finished => 0
  }

  function ReaderWeight(r: Reader): nat {
    match r
    case Reading => 1
    case Handling(_) => 15
    case ReaderGone => 0
  }

  function WriterWeight(w: Writer): nat {
    match w
    case Taking => 1
    case Writing(_) => 2
    case WriterGone => 0
  }

  ghost function Measure(s: State): nat {
    Sum(s.reqs, Weight) + FRAME * |s.out| + ReaderWeight(s.reader) + WriterWeight(s.writer) + (if s.done then 0 else 1)
  }

  lemma MoveWeight(r: Req, a: Action, ctxDone: bool, connDone: bool)
    requires CanAct(r, a, ctxDone, connDone)
    ensures var after := Weight(Moved(r, a, ctxDone, connDone)) + FRAME * |Queued(r, a)|;
      if a.StartEmit? || a.LateEmit? then after <= Weight(r) + 4 else after < Weight(r)
  {
  }

  lemma ActMeasure(c: Config, s: State, g: nat, a: Action)
    requires Enabled(c, s, Act(g, a))
    ensures var t := OnAct(s, g, a);
      if a.StartEmit? || a.LateEmit? then Measure(t) <= Measure(s) + 4 else Measure(t) < Measure(s)
  {
    MoveWeight(s.reqs[g], a, CtxDone(s, g), s.done);
    hide Moved, CanAct, Weight;
    SumUpdate(s.reqs, g, Moved(s.reqs[g], a, CtxDone(s, g), s.done), Weight);
  }

  lemma FrameMeasure(c: Config, s: State, f: Frame)
    requires TableInv(s)
    ensures var t := OnFrame(c, s, f);
      Sum(t.reqs, Weight) <= Sum(s.reqs, Weight) + 13 && t.out == s.out && t.writer == s.writer && t.done == s.done
  {
    var t := OnFrame(c, s, f);
    if |t.reqs| > |s.reqs| {
      assert t.reqs[..|t.reqs| - 1] == s.reqs;
    } else if t.reqs != s.reqs {
      SumUpdate(s.reqs, s.inflight[f.id], t.reqs[s.inflight[f.id]], Weight);
    }
  }

  /** Every internal step lowers the measure; an input raises it by at most 14. */
  lemma StepMeasure(c: Config, s: State, step: Step)
    requires TableInv(s) && Enabled(c, s, step)
    ensures var t := Apply(c, s, step);
      if Internal(step) then Measure(t) < Measure(s) else Measure(t) <= Measure(s) + 14
  {
    match step {
      case Act(g, a) => ActMeasure(c, s, g, a);
      case Handle => FrameMeasure(c, s, s.reader.frame);
      case _ =>
    }
  }

  function Inputs(steps: seq<Step>): nat {
    if steps == [] then 0 else (if Internal(steps[0]) then 0 else 1) + Inputs(steps[1..])
  }

  /** From any state, a run can only be as long as its inputs keep it going: each buys at
      most 15 steps. In particular, once inputs stop every run ends. */
  lemma {:induction false} RunsAreBounded(c: Config, s: State, steps: seq<Step>)
    requires Inv(c, s) && CanRun(c, s, steps)
    ensures |steps| + Measure(Run(c, s, steps)) <= Measure(s) + 15 * Inputs(steps)
    decreases |steps|
  {
    if steps != [] {
      StepMeasure(c, s, steps[0]);
      InvStep(c, s, steps[0]);
      RunsAreBounded(c, Apply(c, s, steps[0]), steps[1..]);
    }
  }

  /** The move that gets a goroutine one step out, whatever the queue and the pools hold. */
  function WayOut(r: Req): Action
    requires !r.pc.Finished?
  {
    match r.pc
    case Waiting => GiveUp
    case Running => if r.stream then Return(None) else Answer(Answered(None))
    case Emitting(_) => DropChunk
    case Replying(_) => DropReply
    case Releasing(_) => Release
    case Leaving(_) => Unregister
    case Cancelling(_) => CancelCtx
    case PanicReply(_) => DropPanic
  }

  lemma WayOutIsOpen(c: Config, s: State, g: nat)
    requires Inv(c, s) && s.done && g < |s.reqs| && !s.reqs[g].pc.Finished?
    ensures Enabled(c, s, Act(g, WayOut(s.reqs[g]))) && Internal(Act(g, WayOut(s.reqs[g])))
  {
    hide Sum, TableInv, QueueInv, LogOk, LivesOk;
    SumBound(s.reqs, g, HoldsUnary);
    SumBound(s.reqs, g, HoldsStream);
  }

  /** No wait is left unguarded: a done connection is drained, or the daemon can move. */
  lemma StuckOnlyIfDrained(c: Config, s: State) returns (step: Step)
    requires Inv(c, s) && s.done && !Drained(s)
    ensures Internal(step) && Enabled(c, s, step)
  {
    if s.reader.Handling? {
      step := Handle;
    } else if s.reader.Reading? {
      step := ReadFail;
    } else if s.writer.Taking? {
      step := WriterExit;
    } else if s.writer.Writing? {
      step := WriteFail;
    } else if g :| 0 <= g < |s.reqs| && !s.reqs[g].pc.Finished? {
      step := Act(g, WayOut(s.reqs[g]));
      WayOutIsOpen(c, s, g);
    } else {
      AllFinished(c, s);
      step := Handle;
    }
  }

  lemma AllFinished(c: Config, s: State)
    requires Inv(c, s) && forall g :: 0 <= g < |s.reqs| ==> s.reqs[g].pc.Finished?
    ensures s.inflight == map[] && s.unarySlots == 0 && s.streamSlots == 0
  {
    SumZero(s.reqs, HoldsUnary);
    SumZero(s.reqs, HoldsStream);
    assert forall id <- s.inflight :: false;
  }

  /** From any state of a done connection the daemon reaches, by itself and within the
      measure, a state with no goroutine, no table entry and no slot taken. */
  lemma {:induction false} DrainsByItself(c: Config, s: State) returns (steps: seq<Step>)
    requires Inv(c, s) && s.done
    ensures CanRun(c, s, steps) && Drained(Run(c, s, steps))
    ensures |steps| <= Measure(s) && forall step <- steps :: Internal(step)
    decreases Measure(s)
  {
    if Drained(s) {
      steps := [];
    } else {
      var step := StuckOnlyIfDrained(c, s);
      InvStep(c, s, step);
      StepMeasure(c, s, step);
      DoneStays(c, s, step);
      var rest := DrainsByItself(c, Apply(c, s, step));
      steps := [step] + rest;
      assert steps[1..] == rest;
    }
  }

  lemma DoneStays(c: Config, s: State, step: Step)
    requires TableInv(s) && Enabled(c, s, step) && s.done
    ensures Apply(c, s, step).done
  {
    hide Moved, CanAct;
  }
}
