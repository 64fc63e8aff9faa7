/** Any number of writers at once, one access to the volume at a time. The volume always reads as if the
    writes that returned had run one after the other, whole, in the order they returned. */
module AtomicWrites {
  import opened Common
  import opened Paths
  import opened Volume
  import opened FileManager
  import opened VolumeLaws
  import opened TempFiles

  datatype Writer = Writer(target: Path, suffix: string, content: string)

  /** Where a write stands: not started, its parent opened, `k` characters into its temporary
      file, about to unlink that file because it failed, or returned. */
  datatype Pc =
    | Idle
    | Opened
    | Filling(k: nat)
    | Unlinking(k: nat, failure: Failure)
    | Done(outcome: Outcome<()>)

  /** The return of a write, and whether its source delivered everything. */
  datatype Return = Return(who: nat, filled: bool)

  datatype State = State(tree: Tree, pcs: seq<Pc>, log: seq<Return>)

  /** One access to the volume each: opening the parent, creating the temporary file, writing more
      of it, renaming it, unlinking it. `FillFails` is the source giving out, which touches nothing. */
  datatype Action =
    | Open(i: nat)
    | Create(i: nat)
    | Fill(i: nat, k: nat)
    | FillFails(i: nat)
    | Commit(i: nat)
    | Unlink(i: nat)

  /** The temporary file exists. */
  predicate Live(pc: Pc) { pc.Filling? || pc.Unlinking? }

  function Tmp(w: Writer): Path {
    (if w.target == [] then [] else Parent(w.target)) + [TMP_PREFIX + w.suffix]
  }

  function Part(w: Writer, k: nat): Node { File(Bytes(if k <= |w.content| then w.content[..k] else w.content)) }

  // ---------------------------------------------------------------- steps

  predicate Enabled(ws: seq<Writer>, s: State, a: Action) {
    && a.i < |ws| == |s.pcs|
    && match a
       case Open(i) => s.pcs[i].Idle?
       case Create(i) => s.pcs[i].Opened?
       case Fill(i, k) => s.pcs[i].Filling? && s.pcs[i].k < k <= |ws[i].content|
       case FillFails(i) => s.pcs[i].Filling?
       case Commit(i) => s.pcs[i] == Filling(|ws[i].content|) && ws[i].target != []
       case Unlink(i) => s.pcs[i].Unlinking?
  }

  function Returned(s: State, tree: Tree, i: nat, outcome: Outcome<()>, filled: bool): State
    requires i < |s.pcs|
  {
    State(tree, s.pcs[i := Done(outcome)], s.log + [Return(i, filled)])
  }

  function Next(ws: seq<Writer>, s: State, a: Action): State
    requires Enabled(ws, s, a)
  {
    var w := ws[a.i];
    match a
    case Open(i) =>
      if Target(w.target).Err? then Returned(s, s.tree, i, Target(w.target), true)
      else
        (match Lstat(s.tree, Parent(w.target))
         case Err(e) => Returned(s, s.tree, i, Err(if e == ENOENT then NoParent else System(e)), true)
         case Ok(File(_)) => Returned(s, s.tree, i, Err(System(ENOTDIR)), true)
         case Ok(Dir) => s.(pcs := s.pcs[i := Opened]))
    case Create(i) =>
      if Tmp(w) in s.tree then Returned(s, s.tree, i, Err(System(EEXIST)), true)
      else State(s.tree[Tmp(w) := Part(w, 0)], s.pcs[i := Filling(0)], s.log)
    case Fill(i, k) => State(s.tree[Tmp(w) := Part(w, k)], s.pcs[i := Filling(k)], s.log)
    case FillFails(i) => s.(pcs := s.pcs[i := Unlinking(s.pcs[i].k, FillFailed)])
    case Commit(i) =>
      (match Renameat(s.tree, Tmp(w), w.target, false)
       case Ok(u) => Returned(s, u, i, Ok(()), true)
       case Err(e) => s.(pcs := s.pcs[i := Unlinking(s.pcs[i].k, System(e))]))
    case Unlink(i) =>
      var failure := s.pcs[i].failure;
      Returned(s, RemoveAll(s.tree, Tmp(w)), i, Err(failure), failure != FillFailed)
  }

  predicate CanRun(ws: seq<Writer>, s: State, run: seq<Action>)
    decreases |run|
  {
    run == [] || (Enabled(ws, s, run[0]) && CanRun(ws, Next(ws, s, run[0]), run[1..]))
  }

  function Run(ws: seq<Writer>, s: State, run: seq<Action>): State
    requires CanRun(ws, s, run)
    decreases |run|
  {
    if run == [] then s else Run(ws, Next(ws, s, run[0]), run[1..])
  }

  function Begin(t: Tree, ws: seq<Writer>): State { State(t, seq(|ws|, _ => Idle), []) }

  // ---------------------------------------------------------------- the sequential reading

  /** One write on its own. */
  function Whole(t: Tree, w: Writer, filled: bool): (Tree, Outcome<()>) {
    Written(t, w.target, TMP_PREFIX + w.suffix, FileManager.Fill(w.content, filled))
  }

  /** The returned writes run one after the other. */
  function Sequential(t: Tree, ws: seq<Writer>, log: seq<Return>): Tree
    decreases |log|
  {
    if log == [] then t
    else
      var last := log[|log| - 1];
      var before := Sequential(t, ws, log[..|log| - 1]);
      if last.who < |ws| then Whole(before, ws[last.who], last.filled).0 else before
  }

  /** Random names: fresh, pairwise distinct, and no caller's path leads through one. */
  ghost predicate Setup(t: Tree, ws: seq<Writer>) {
    && Inv(t)
    && (forall i :: 0 <= i < |ws| ==> Clean(ws[i].target) && '/' !in ws[i].suffix && Tmp(ws[i]) !in t)
    && (forall i, j :: 0 <= i < j < |ws| ==> Tmp(ws[i]) != Tmp(ws[j]))
    && (forall i, j :: 0 <= i < |ws| && 0 <= j < |ws| ==> !(Tmp(ws[i]) <= ws[j].target))
  }

  ghost predicate IsTmp(ws: seq<Writer>, q: Path) { exists i :: 0 <= i < |ws| && Tmp(ws[i]) == q }

  /** `tree` is `base` with the temporary files of the writes in progress. */
  ghost predicate Overlaid(ws: seq<Writer>, tree: Tree, base: Tree, pcs: seq<Pc>) {
    && |pcs| == |ws|
    && (forall q: Path :: !IsTmp(ws, q) ==> (q in tree <==> q in base) && (q in tree ==> tree[q] == base[q]))
    && (forall i :: 0 <= i < |ws| ==>
          (Tmp(ws[i]) in tree <==> Live(pcs[i])) &&
          (Live(pcs[i]) ==> tree[Tmp(ws[i])] == Part(ws[i], pcs[i].k)))
  }

  ghost predicate Answered(t: Tree, ws: seq<Writer>, pcs: seq<Pc>, log: seq<Return>, n: nat) {
    && |pcs| == |ws| && n < |log| && log[n].who < |ws|
    && pcs[log[n].who] == Done(Whole(Sequential(t, ws, log[..n]), ws[log[n].who], log[n].filled).1)
  }

  /** Every write returned what the same write alone would have returned at that point. */
  ghost predicate Linear(t: Tree, ws: seq<Writer>, pcs: seq<Pc>, log: seq<Return>) {
    && |pcs| == |ws|
    && (forall n :: 0 <= n < |log| ==> Answered(t, ws, pcs, log, n))
    && OncePerWriter(log)
    && Complete(pcs, log)
  }

  ghost predicate OncePerWriter(log: seq<Return>) {
    forall m, n :: 0 <= m < n < |log| ==> log[m].who != log[n].who
  }

  ghost predicate Complete(pcs: seq<Pc>, log: seq<Return>) {
    forall i :: 0 <= i < |pcs| && pcs[i].Done? ==> Returns(log, i)
  }

  ghost predicate Returns(log: seq<Return>, i: nat) { exists n :: 0 <= n < |log| && log[n].who == i }

  /** A write in progress has a directory to finish in, and one that failed has a reason to. */
  ghost predicate Placed(t: Tree, w: Writer, pc: Pc) {
    && (pc.Opened? || Live(pc) ==> Target(w.target).Ok? && Parent(w.target) in t && t[Parent(w.target)].Dir?)
    && (Live(pc) ==> pc.k <= |w.content|)
    && (pc.Unlinking? ==>
          pc.failure == FillFailed || (pc.failure == System(EISDIR) && w.target in t && t[w.target].Dir?))
  }

  ghost predicate Good(t: Tree, ws: seq<Writer>, s: State) {
    && Overlaid(ws, s.tree, Sequential(t, ws, s.log), s.pcs)
    && Linear(t, ws, s.pcs, s.log)
    && forall i :: 0 <= i < |ws| ==> Placed(t, ws[i], s.pcs[i])
  }

  // ---------------------------------------------------------------- facts about whole writes

  ghost predicate SameDirs(t: Tree, u: Tree) {
    forall q: Path :: (q in t && t[q].Dir?) <==> (q in u && u[q].Dir?)
  }

  lemma WholeShape(t: Tree, w: Writer, filled: bool)
    requires Inv(t) && Clean(w.target)
    ensures var (u, r) := Whole(t, w, filled);
      && Inv(u) && SameDirs(t, u)
      && u == (if r.Ok? then t[w.target := File(Bytes(w.content))] else t)
      && (r.Ok? ==> filled && w.target != [] && !(w.target in t && t[w.target].Dir?))
  {
    hide Lstat, Clean, WellFormed, BinSane;
    WrittenKeeps(t, w.target, TMP_PREFIX + w.suffix, FileManager.Fill(w.content, filled));
  }

  lemma {:induction false} SequentialShape(t: Tree, ws: seq<Writer>, log: seq<Return>)
    requires Setup(t, ws)
    ensures var u := Sequential(t, ws, log);
      Inv(u) && SameDirs(t, u) && forall i :: 0 <= i < |ws| ==> Tmp(ws[i]) !in u
    decreases |log|
  {
    hide Whole, Inv, Clean, Tmp;
    if log != [] {
      var last := log[|log| - 1];
      SequentialShape(t, ws, log[..|log| - 1]);
      if last.who < |ws| {
        WholeShape(Sequential(t, ws, log[..|log| - 1]), ws[last.who], last.filled);
      }
    }
  }

  /** A path holds what it held at first, or all of what one successful write brought. */
  lemma {:induction false} SequentialReads(t: Tree, ws: seq<Writer>, log: seq<Return>, p: Path)
    requires Setup(t, ws)
    ensures var u := Sequential(t, ws, log);
      || ((p in u <==> p in t) && (p in u ==> u[p] == t[p]))
      || (exists n: nat :: WroteAt(t, ws, log, n, p) &&
            p in u && u[p] == File(Bytes(ws[log[n].who].content)))
    decreases |log|
  {
    hide Whole, Inv, Clean, Tmp;
    if log != [] {
      var front := log[..|log| - 1];
      var last := log[|log| - 1];
      SequentialReads(t, ws, front, p);
      SequentialShape(t, ws, front);
      forall n | 0 <= n < |front| && WroteAt(t, ws, front, n, p)
        ensures WroteAt(t, ws, log, n, p)
      {
        assert front[..n] == log[..n];
      }
      if last.who < |ws| {
        WholeShape(Sequential(t, ws, front), ws[last.who], last.filled);
        if ws[last.who].target == p && Whole(Sequential(t, ws, front), ws[last.who], last.filled).1.Ok? {
          assert log[|front|] == last && log[..|front|] == front;
          assert WroteAt(t, ws, log, |front|, p);
        }
      }
    }
  }

  /** The `n`th return is that of a successful write to `p`. */
  ghost predicate WroteAt(t: Tree, ws: seq<Writer>, log: seq<Return>, n: nat, p: Path) {
    n < |log| && log[n].who < |ws| && ws[log[n].who].target == p
    && Whole(Sequential(t, ws, log[..n]), ws[log[n].who], log[n].filled).1.Ok?
  }

  // ---------------------------------------------------------------- one step keeps the reading

  lemma {:induction false} LstatOverlaid(ws: seq<Writer>, tree: Tree, base: Tree, pcs: seq<Pc>, q: Path)
    requires Overlaid(ws, tree, base, pcs) && forall i :: 0 <= i < |ws| ==> !(Tmp(ws[i]) <= q)
    ensures Lstat(tree, q) == Lstat(base, q)
    decreases |q|
  {
    hide Tmp;
    assert !IsTmp(ws, q);
    if q != [] {
      forall i | 0 <= i < |ws|
        ensures !(Tmp(ws[i]) <= Parent(q))
      {
        assert Parent(q) <= q;
        PrefixTrans(Tmp(ws[i]), Parent(q), q);
      }
      LstatOverlaid(ws, tree, base, pcs, Parent(q));
    }
  }

  lemma PrefixTrans(a: Path, b: Path, c: Path)
    requires b <= c
    ensures a <= b ==> a <= c
  {
  }

  lemma OverlaidEntry(ws: seq<Writer>, tree: Tree, base: Tree, pcs: seq<Pc>, q: Path)
    requires Overlaid(ws, tree, base, pcs) && WellFormed(base) && forall i :: 0 <= i < |ws| ==> Tmp(ws[i]) !in base
    requires forall i :: 0 <= i < |ws| && Live(pcs[i]) ==>
      Clean(Tmp(ws[i])) && Parent(Tmp(ws[i])) in base && base[Parent(Tmp(ws[i]))].Dir?
    requires q in tree
    ensures Clean(q) && (q != [] ==> Parent(q) in tree && tree[Parent(q)].Dir?)
  {
    hide Tmp, Clean;
    assert forall x <- base :: !IsTmp(ws, x);
  }

  lemma OverlaidLength(ws: seq<Writer>, tree: Tree, base: Tree, pcs: seq<Pc>)
    requires Overlaid(ws, tree, base, pcs)
    ensures |pcs| == |ws|
  {
  }

  lemma TmpClean(w: Writer)
    requires w.target != [] && Clean(w.target) && '/' !in w.suffix
    ensures Clean(Tmp(w)) && Parent(Tmp(w)) == Parent(w.target)
  {
    assert (TMP_PREFIX + w.suffix)[1] == 'w';
  }

  lemma OverlaidKeeps(t: Tree, ws: seq<Writer>, s: State)
    requires Setup(t, ws) && Good(t, ws, s)
    ensures WellFormed(s.tree)
  {
    hide Sequential, Linear, Overlaid, WellFormed, BinSane, Clean, Tmp;
    var base := Sequential(t, ws, s.log);
    SequentialShape(t, ws, s.log);
    OverlaidLength(ws, s.tree, base, s.pcs);
    forall i | 0 <= i < |ws| && Live(s.pcs[i])
      ensures Clean(Tmp(ws[i])) && Parent(Tmp(ws[i])) in base && base[Parent(Tmp(ws[i]))].Dir?
    {
      assert Placed(t, ws[i], s.pcs[i]);
      TmpClean(ws[i]);
    }
    TreeKeeps(ws, s.tree, base, s.pcs);
  }

  lemma TreeKeeps(ws: seq<Writer>, tree: Tree, base: Tree, pcs: seq<Pc>)
    requires Overlaid(ws, tree, base, pcs) && WellFormed(base) && forall i :: 0 <= i < |ws| ==> Tmp(ws[i]) !in base
    requires forall i :: 0 <= i < |ws| && Live(pcs[i]) ==>
      Clean(Tmp(ws[i])) && Parent(Tmp(ws[i])) in base && base[Parent(Tmp(ws[i]))].Dir?
    ensures WellFormed(tree)
  {
    hide Tmp, Clean;
    assert !IsTmp(ws, []);
    hide IsTmp;
    forall q | q in tree
      ensures Clean(q) && (q != [] ==> Parent(q) in tree && tree[Parent(q)].Dir?)
    {
      OverlaidEntry(ws, tree, base, pcs, q);
    }
  }

  lemma AnsweredStill(t: Tree, ws: seq<Writer>, pcs: seq<Pc>, log: seq<Return>, i: nat, pc: Pc,
                      more: seq<Return>, n: nat)
    requires Answered(t, ws, pcs, log, n) && i < |ws| && !pcs[i].Done? && log <= more
    ensures Answered(t, ws, pcs[i := pc], more, n) && log[n].who != i && more[n] == log[n]
  {
    hide Whole, Sequential;
    assert more[..n] == log[..n];
  }

  lemma LastAnswered(t: Tree, ws: seq<Writer>, pcs: seq<Pc>, log: seq<Return>, i: nat,
                     outcome: Outcome<()>, filled: bool)
    requires |pcs| == |ws| && i < |ws| && Whole(Sequential(t, ws, log), ws[i], filled).1 == outcome
    ensures var more := log + [Return(i, filled)];
      && Answered(t, ws, pcs[i := Done(outcome)], more, |log|)
      && Sequential(t, ws, more) == Whole(Sequential(t, ws, log), ws[i], filled).0
  {
    hide Whole;
    var more := log + [Return(i, filled)];
    assert more[..|log|] == log && more[|log|] == Return(i, filled);
  }

  lemma Appended(t: Tree, ws: seq<Writer>, s: State, i: nat, outcome: Outcome<()>, filled: bool)
    requires Linear(t, ws, s.pcs, s.log) && i < |ws| && !s.pcs[i].Done?
    requires Whole(Sequential(t, ws, s.log), ws[i], filled).1 == outcome
    ensures var more := s.log + [Return(i, filled)];
      && Linear(t, ws, s.pcs[i := Done(outcome)], more)
      && Sequential(t, ws, more) == Whole(Sequential(t, ws, s.log), ws[i], filled).0
  {
    hide Whole, Sequential, Answered, OncePerWriter, Complete;
    var log, more := s.log, s.log + [Return(i, filled)];
    var pcs := s.pcs[i := Done(outcome)];
    LastAnswered(t, ws, s.pcs, log, i, outcome, filled);
    forall n | 0 <= n < |log|
      ensures Answered(t, ws, pcs, more, n) && log[n].who != i
    {
      AnsweredStill(t, ws, s.pcs, log, i, Done(outcome), more, n);
    }
    LogGrows(s.pcs, log, i, outcome, filled);
  }

  lemma LogGrows(pcs: seq<Pc>, log: seq<Return>, i: nat, outcome: Outcome<()>, filled: bool)
    requires OncePerWriter(log) && Complete(pcs, log) && i < |pcs| && forall n :: 0 <= n < |log| ==> log[n].who != i
    ensures OncePerWriter(log + [Return(i, filled)]) && Complete(pcs[i := Done(outcome)], log + [Return(i, filled)])
  {
    var more, after := log + [Return(i, filled)], pcs[i := Done(outcome)];
    forall j | 0 <= j < |after| && after[j].Done?
      ensures Returns(more, j)
    {
      if j == i {
        assert more[|log|].who == i;
      } else {
        var n :| 0 <= n < |log| && log[n].who == j;
        assert more[n].who == j;
      }
    }
  }

  /** Moving one writer on within its temporary file. */
  lemma OverlayTmp(ws: seq<Writer>, tree: Tree, base: Tree, pcs: seq<Pc>, i: nat, pc: Pc)
    requires Overlaid(ws, tree, base, pcs) && i < |ws| && Live(pc)
    requires forall a, b :: 0 <= a < b < |ws| ==> Tmp(ws[a]) != Tmp(ws[b])
    ensures Overlaid(ws, tree[Tmp(ws[i]) := Part(ws[i], pc.k)], base, pcs[i := pc])
  {
    hide Tmp, Part;
    assert IsTmp(ws, Tmp(ws[i]));
  }

  /** Moving one writer on without touching the volume. */
  lemma OverlayStill(ws: seq<Writer>, tree: Tree, base: Tree, pcs: seq<Pc>, i: nat, pc: Pc)
    requires Overlaid(ws, tree, base, pcs) && i < |ws|
    requires Live(pcs[i]) == Live(pc) && (Live(pc) ==> pc.k == pcs[i].k)
    ensures Overlaid(ws, tree, base, pcs[i := pc])
  {
    hide Tmp, Part, IsTmp, Live;
  }

  /** The temporary file gone, and the base as it was. */
  lemma OverlayDone(ws: seq<Writer>, tree: Tree, base: Tree, pcs: seq<Pc>, i: nat, outcome: Outcome<()>)
    requires Overlaid(ws, tree, base, pcs) && i < |ws|
    requires forall a, b :: 0 <= a < b < |ws| ==> Tmp(ws[a]) != Tmp(ws[b])
    ensures Overlaid(ws, tree - {Tmp(ws[i])}, base, pcs[i := Done(outcome)])
  {
    hide Tmp, Part;
    assert IsTmp(ws, Tmp(ws[i]));
  }

  lemma OverlaySet(ws: seq<Writer>, tree: Tree, base: Tree, pcs: seq<Pc>, p: Path, n: Node)
    requires Overlaid(ws, tree, base, pcs) && !IsTmp(ws, p)
    ensures Overlaid(ws, tree[p := n], base[p := n], pcs)
  {
    hide Tmp, Part;
  }

  /** What an opening writer finds is what the base holds. */
  lemma OpenLookup(t: Tree, ws: seq<Writer>, s: State, i: nat)
    requires Setup(t, ws) && Good(t, ws, s) && Enabled(ws, s, Action.Open(i)) && ws[i].target != []
    ensures var base, dir := Sequential(t, ws, s.log), Parent(ws[i].target);
      && Tmp(ws[i]) !in base
      && Lstat(s.tree, dir) == Lstat(base, dir)
      && (Lstat(base, dir) == Ok(Dir) ==> dir in t && t[dir].Dir?)
  {
    hide Lstat, Linear, Sequential, WellFormed, BinSane, Clean, Tmp;
    var w, base := ws[i], Sequential(t, ws, s.log);
    SequentialShape(t, ws, s.log);
    forall j | 0 <= j < |ws|
      ensures !(Tmp(ws[j]) <= Parent(w.target))
    {
      PrefixTrans(Tmp(ws[j]), Parent(w.target), w.target);
    }
    LstatOverlaid(ws, s.tree, base, s.pcs, Parent(w.target));
    LstatFinds(base, Parent(w.target));
  }

  lemma OpenOutcome(t: Tree, ws: seq<Writer>, s: State, i: nat)
    requires Setup(t, ws) && Good(t, ws, s) && Enabled(ws, s, Action.Open(i))
    ensures var u, w, base := Next(ws, s, Action.Open(i)), ws[i], Sequential(t, ws, s.log);
      if u.pcs[i].Done?
      then u == Returned(s, s.tree, i, u.pcs[i].outcome, true) && Whole(base, w, true) == (base, u.pcs[i].outcome)
      else u == s.(pcs := s.pcs[i := Opened]) && Placed(t, w, Opened)
  {
    hide Lstat, Overlaid, Linear, Sequential, Inv, Clean, InTrash, Part, Good, Setup;
    if ws[i].target != [] {
      OpenLookup(t, ws, s, i);
    }
  }

  lemma OpenStep(t: Tree, ws: seq<Writer>, s: State, i: nat)
    requires Setup(t, ws) && Good(t, ws, s) && Enabled(ws, s, Action.Open(i))
    ensures Good(t, ws, Next(ws, s, Action.Open(i)))
  {
    hide Lstat, Linear, Overlaid, Sequential, Inv, Clean, InTrash, Part, Next, Whole, Tmp;
    OpenOutcome(t, ws, s, i);
    var w, base := ws[i], Sequential(t, ws, s.log);
    var u := Next(ws, s, Action.Open(i));
    OverlayStill(ws, s.tree, base, s.pcs, i, u.pcs[i]);
    if u.pcs[i].Done? {
      Appended(t, ws, s, i, u.pcs[i].outcome, true);
    } else {
      StillLinear(t, ws, s.pcs, s.log, i, Opened);
    }
  }

  lemma CreateStep(t: Tree, ws: seq<Writer>, s: State, i: nat)
    requires Setup(t, ws) && Good(t, ws, s) && Enabled(ws, s, Create(i))
    ensures Good(t, ws, Next(ws, s, Create(i)))
  {
    hide Linear, Overlaid, Sequential, Inv, Clean, InTrash, Part, Tmp;
    TmpNotYet(ws, s.tree, Sequential(t, ws, s.log), s.pcs, i);
    OverlayTmp(ws, s.tree, Sequential(t, ws, s.log), s.pcs, i, Filling(0));
    StillLinear(t, ws, s.pcs, s.log, i, Filling(0));
  }

  lemma TmpNotYet(ws: seq<Writer>, tree: Tree, base: Tree, pcs: seq<Pc>, i: nat)
    requires Overlaid(ws, tree, base, pcs) && i < |ws|
    ensures |pcs| == |ws| && (Tmp(ws[i]) in tree <==> Live(pcs[i]))
  {
    hide Tmp, Part, IsTmp;
  }

  /** Progress inside a write changes no answer. */
  lemma StillLinear(t: Tree, ws: seq<Writer>, pcs: seq<Pc>, log: seq<Return>, i: nat, pc: Pc)
    requires Linear(t, ws, pcs, log) && i < |ws| && !pcs[i].Done? && !pc.Done?
    ensures Linear(t, ws, pcs[i := pc], log)
  {
    hide Answered, Sequential;
    var after := pcs[i := pc];
    forall n: nat | n < |log|
      ensures Answered(t, ws, after, log, n)
    {
      AnsweredStill(t, ws, pcs, log, i, pc, log, n);
    }
  }

  lemma FillStep(t: Tree, ws: seq<Writer>, s: State, i: nat, k: nat)
    requires Setup(t, ws) && Good(t, ws, s) && Enabled(ws, s, Action.Fill(i, k))
    ensures Good(t, ws, Next(ws, s, Action.Fill(i, k)))
  {
    hide Sequential, Inv, Clean, Overlaid, Linear, Tmp, Part;
    OverlayTmp(ws, s.tree, Sequential(t, ws, s.log), s.pcs, i, Filling(k));
    StillLinear(t, ws, s.pcs, s.log, i, Filling(k));
  }

  lemma TmpAlone(t: Tree, ws: seq<Writer>, s: State, i: nat)
    requires Setup(t, ws) && Good(t, ws, s) && i < |ws| && Live(s.pcs[i])
    ensures RemoveAll(s.tree, Tmp(ws[i])) == s.tree - {Tmp(ws[i])} && WellFormed(s.tree - {Tmp(ws[i])})
    ensures Tmp(ws[i]) in s.tree && s.tree[Tmp(ws[i])] == Part(ws[i], s.pcs[i].k)
  {
    hide Sequential, Inv, Linear, Clean, Setup, Tmp, WellFormed, RemoveAll;
    OverlaidKeeps(t, ws, s);
    FileAlone(s.tree, Tmp(ws[i]));
  }

  lemma FillFailsStep(t: Tree, ws: seq<Writer>, s: State, i: nat)
    requires Setup(t, ws) && Good(t, ws, s) && Enabled(ws, s, FillFails(i))
    ensures Good(t, ws, Next(ws, s, FillFails(i)))
  {
    hide Sequential, Inv, Clean, Overlaid, Linear, Tmp, Part;
    OverlayStill(ws, s.tree, Sequential(t, ws, s.log), s.pcs, i, Unlinking(s.pcs[i].k, FillFailed));
    StillLinear(t, ws, s.pcs, s.log, i, Unlinking(s.pcs[i].k, FillFailed));
  }

  /** The unlink is where a failed write takes effect: the answer is that of the write alone. */
  lemma UnlinkStep(t: Tree, ws: seq<Writer>, s: State, i: nat)
    requires Setup(t, ws) && Good(t, ws, s) && Enabled(ws, s, Unlink(i))
    ensures Good(t, ws, Next(ws, s, Unlink(i)))
  {
    hide Lstat, Linear, Overlaid, Sequential, WellFormed, BinSane, Clean, InTrash, RemoveAll;
    var w, base := ws[i], Sequential(t, ws, s.log);
    var failure := s.pcs[i].failure;
    SequentialShape(t, ws, s.log);
    LstatFinds(base, Parent(w.target));
    TmpAlone(t, ws, s, i);
    Appended(t, ws, s, i, Err(failure), failure != FillFailed);
    OverlayDone(ws, s.tree, base, s.pcs, i, Err(failure));
  }

  /** The rename puts all of the content at the target, or a directory is there and stays. */
  lemma CommitOutcome(t: Tree, ws: seq<Writer>, s: State, i: nat)
    requires Setup(t, ws) && Good(t, ws, s) && Enabled(ws, s, Commit(i))
    ensures var u, w, base := Next(ws, s, Commit(i)), ws[i], Sequential(t, ws, s.log);
      && (w.target in base && base[w.target].Dir? <==> w.target in t && t[w.target].Dir?)
      && if w.target in base && base[w.target].Dir?
         then u == s.(pcs := s.pcs[i := Unlinking(s.pcs[i].k, System(EISDIR))])
         else
           && u == Returned(s, (s.tree - {Tmp(w)})[w.target := Part(w, |w.content|)], i, Ok(()), true)
           && Whole(base, w, true) == (base[w.target := Part(w, |w.content|)], Ok(()))
  {
    hide Lstat, Linear, Overlaid, Sequential, WellFormed, BinSane, Clean, InTrash, RemoveAll, Renameat;
    var w, base := ws[i], Sequential(t, ws, s.log);
    var rest := s.tree - {Tmp(w)};
    SequentialShape(t, ws, s.log);
    LstatFinds(base, Parent(w.target));
    TmpAlone(t, ws, s, i);
    assert s.tree == rest[Tmp(w) := Part(w, |w.content|)];
    assert w.content[..|w.content|] == w.content;
    Resting(ws, s.tree, base, s.pcs, i);
    assert ValidName(TMP_PREFIX + w.suffix) by { assert (TMP_PREFIX + w.suffix)[1] == 'w'; }
    TmpCommitted(rest, w.target, TMP_PREFIX + w.suffix, Part(w, |w.content|));
  }

  lemma CommitStep(t: Tree, ws: seq<Writer>, s: State, i: nat)
    requires Setup(t, ws) && Good(t, ws, s) && Enabled(ws, s, Commit(i))
    ensures Good(t, ws, Next(ws, s, Commit(i)))
  {
    hide Lstat, Linear, Overlaid, Sequential, Inv, Clean, InTrash, Next, Whole, Tmp, Part;
    CommitOutcome(t, ws, s, i);
    var w, base := ws[i], Sequential(t, ws, s.log);
    var stuck := Unlinking(s.pcs[i].k, System(EISDIR));
    if w.target in base && base[w.target].Dir? {
      OverlayStill(ws, s.tree, base, s.pcs, i, stuck);
      StillLinear(t, ws, s.pcs, s.log, i, stuck);
    } else {
      Appended(t, ws, s, i, Ok(()), true);
      OverlayDone(ws, s.tree, base, s.pcs, i, Ok(()));
      assert !IsTmp(ws, w.target);
      OverlaySet(ws, s.tree - {Tmp(w)}, base, s.pcs[i := Done(Ok(()))], w.target, Part(w, |w.content|));
    }
  }

  /** Away from the temporary file the tree reads as the base. */
  lemma Resting(ws: seq<Writer>, tree: Tree, base: Tree, pcs: seq<Pc>, i: nat)
    requires Overlaid(ws, tree, base, pcs) && i < |ws| && ws[i].target != []
    requires forall j, k :: 0 <= j < |ws| && 0 <= k < |ws| ==> !(Tmp(ws[j]) <= ws[k].target)
    ensures var rest, p := tree - {Tmp(ws[i])}, ws[i].target;
      && (p in rest <==> p in base) && (p in rest ==> rest[p] == base[p])
      && (Parent(p) in rest <==> Parent(p) in base) && (Parent(p) in rest ==> rest[Parent(p)] == base[Parent(p)])
  {
    hide Tmp, Part;
    var p := ws[i].target;
    assert Parent(p) <= p;
    assert !IsTmp(ws, p) && !IsTmp(ws, Parent(p));
  }

  lemma GoodStep(t: Tree, ws: seq<Writer>, s: State, a: Action)
    requires Setup(t, ws) && Good(t, ws, s) && Enabled(ws, s, a)
    ensures Good(t, ws, Next(ws, s, a))
  {
    hide Setup, Good, Next;
    match a {
      case Open(i) => OpenStep(t, ws, s, i);
      case Create(i) => CreateStep(t, ws, s, i);
      case Fill(i, k) => FillStep(t, ws, s, i, k);
      case FillFails(i) => FillFailsStep(t, ws, s, i);
      case Commit(i) => CommitStep(t, ws, s, i);
      case Unlink(i) => UnlinkStep(t, ws, s, i);
    }
  }

  lemma {:induction false} GoodRun(t: Tree, ws: seq<Writer>, s: State, run: seq<Action>)
    requires Setup(t, ws) && Good(t, ws, s) && CanRun(ws, s, run)
    ensures Good(t, ws, Run(ws, s, run))
    decreases |run|
  {
    hide Setup, Good, Next, Enabled;
    if run != [] {
      GoodStep(t, ws, s, run[0]);
      GoodRun(t, ws, Next(ws, s, run[0]), run[1..]);
    }
  }

  // ---------------------------------------------------------------- the theorems

  /** In every interleaving of any number of writes, at every moment: what returned so far is a
      sequence of whole writes with the same answers, and the volume reads as after that sequence
      everywhere but at the temporary files of the writes in progress. */
  lemma WritesAreLinear(t: Tree, ws: seq<Writer>, run: seq<Action>)
    requires Setup(t, ws) && CanRun(ws, Begin(t, ws), run)
    ensures var s := Run(ws, Begin(t, ws), run);
      Overlaid(ws, s.tree, Sequential(t, ws, s.log), s.pcs) && Linear(t, ws, s.pcs, s.log)
  {
    ReachedIsGood(t, ws, run);
  }

  ghost predicate AsAtFirst(t: Tree, u: Tree, p: Path) { (p in u <==> p in t) && (p in u ==> u[p] == t[p]) }

  /** `p` holds all of what the `i`th write brought, and that write has succeeded. */
  ghost predicate HoldsWriteOf(ws: seq<Writer>, s: State, i: nat, p: Path) {
    && i < |ws| == |s.pcs| && ws[i].target == p && s.pcs[i].Done? && s.pcs[i].outcome.Ok?
    && p in s.tree && s.tree[p] == File(Bytes(ws[i].content))
  }

  lemma WroteHolds(t: Tree, ws: seq<Writer>, s: State, n: nat, p: Path)
    requires WroteAt(t, ws, s.log, n, p) && Answered(t, ws, s.pcs, s.log, n)
    requires p in s.tree && s.tree[p] == File(Bytes(ws[s.log[n].who].content))
    ensures HoldsWriteOf(ws, s, s.log[n].who, p)
  {
    hide Whole, Sequential;
  }

  /** No path ever reads as a mixture: it is as it was, or holds the complete content of one write
      whose rename has run. */
  lemma TargetsAreWhole(t: Tree, ws: seq<Writer>, run: seq<Action>, p: Path)
    requires Setup(t, ws) && CanRun(ws, Begin(t, ws), run) && !IsTmp(ws, p)
    ensures var s := Run(ws, Begin(t, ws), run);
      AsAtFirst(t, s.tree, p) || exists i :: HoldsWriteOf(ws, s, i, p)
  {
    hide Setup, Whole, Run, CanRun, Sequential, IsTmp, Answered;
    WritesAreLinear(t, ws, run);
    var s := Run(ws, Begin(t, ws), run);
    SequentialReads(t, ws, s.log, p);
    if n: nat :| WroteAt(t, ws, s.log, n, p) && p in s.tree && s.tree[p] == File(Bytes(ws[s.log[n].who].content)) {
      assert Answered(t, ws, s.pcs, s.log, n);
      WroteHolds(t, ws, s, n, p);
    }
  }

  /** Once every write has returned no temporary file is left: the volume is exactly the
      sequential result. */
  lemma NothingLeftBehind(t: Tree, ws: seq<Writer>, run: seq<Action>)
    requires Setup(t, ws) && CanRun(ws, Begin(t, ws), run)
    ensures var s := Run(ws, Begin(t, ws), run);
      |s.pcs| == |ws| && ((forall i :: 0 <= i < |ws| ==> !Live(s.pcs[i])) ==> s.tree == Sequential(t, ws, s.log))
  {
    hide Whole, Run, CanRun, Inv, Tmp, Clean, Linear;
    WritesAreLinear(t, ws, run);
    var s := Run(ws, Begin(t, ws), run);
    var base := Sequential(t, ws, s.log);
    SequentialShape(t, ws, s.log);
    if forall i :: 0 <= i < |ws| ==> !Live(s.pcs[i]) {
      forall q: Path
        ensures q in s.tree <==> q in base
        ensures q in s.tree ==> s.tree[q] == base[q]
      {
        if IsTmp(ws, q) {
          var i :| 0 <= i < |ws| && Tmp(ws[i]) == q;
          assert q !in s.tree && q !in base;
        }
      }
    }
  }

  // ---------------------------------------------------------------- no write waits for another

  /** The source has not given out. */
  predicate Delivers(pc: Pc) { !(pc.Unlinking? && pc.failure == FillFailed) }

  /** The next access of a write that is not held up. */
  function Onward(w: Writer, i: nat, pc: Pc): Action {
    match pc
    case Filling(k) => if k < |w.content| then Action.Fill(i, |w.content|) else Commit(i)
    case Unlinking(_, _) => Unlink(i)
    case Opened => Create(i)
    case _ => Action.Open(i)
  }

  function Left(w: Writer, pc: Pc): nat {
    match pc
    case Idle => 5
    case Opened => 4
    case Filling(k) => if k < |w.content| then 3 else 2
    case Unlinking(_, _) => 1
    case Done(_) => 0
  }

  lemma OnwardEnabled(t: Tree, ws: seq<Writer>, s: State, i: nat)
    requires |s.pcs| == |ws| && i < |ws| && !s.pcs[i].Done? && Placed(t, ws[i], s.pcs[i])
    ensures Onward(ws[i], i, s.pcs[i]).i == i && Enabled(ws, s, Onward(ws[i], i, s.pcs[i]))
  {
  }

  lemma OnwardMoves(ws: seq<Writer>, s: State, i: nat)
    requires i < |ws| == |s.pcs| && !s.pcs[i].Done? && Enabled(ws, s, Onward(ws[i], i, s.pcs[i]))
    ensures var u := Next(ws, s, Onward(ws[i], i, s.pcs[i]));
      && |u.pcs| == |ws| && Left(ws[i], u.pcs[i]) < Left(ws[i], s.pcs[i])
      && u.log == (if u.pcs[i].Done? then s.log + [Return(i, Delivers(s.pcs[i]))] else s.log)
      && (!u.pcs[i].Done? ==> Delivers(u.pcs[i]) == Delivers(s.pcs[i]))
  {
    hide Lstat, Renameat, RemoveAll, Tmp, Part;
  }

  lemma {:induction false} WriterReturns(t: Tree, ws: seq<Writer>, s: State, i: nat) returns (run: seq<Action>)
    requires Setup(t, ws) && Good(t, ws, s) && i < |ws| == |s.pcs| && !s.pcs[i].Done?
    ensures CanRun(ws, s, run) && |run| <= 5 && forall a <- run :: a.i == i
    ensures var u, filled := Run(ws, s, run), Delivers(s.pcs[i]);
      && |u.pcs| == |ws| && u.log == s.log + [Return(i, filled)]
      && u.pcs[i] == Done(Whole(Sequential(t, ws, s.log), ws[i], filled).1)
    ensures |run| <= Left(ws[i], s.pcs[i])
    decreases Left(ws[i], s.pcs[i])
  {
    hide Setup, Overlaid, Linear, Placed, Enabled, Next, Whole, Sequential, Onward, Left, Delivers;
    OverlaidLength(ws, s.tree, Sequential(t, ws, s.log), s.pcs);
    OnwardEnabled(t, ws, s, i);
    OnwardMoves(ws, s, i);
    var a := Onward(ws[i], i, s.pcs[i]);
    var u := Next(ws, s, a);
    GoodStep(t, ws, s, a);
    hide Good;
    LeftBounds(ws[i], s.pcs[i]);
    if u.pcs[i].Done? {
      run := [a];
      LastAnswer(t, ws, s, u, i, Delivers(s.pcs[i]));
    } else {
      var rest := WriterReturns(t, ws, u, i);
      run := [a] + rest;
    }
    assert run[1..] == if u.pcs[i].Done? then [] else run[1..];
  }

  /** From every moment of every interleaving each write can return by its own accesses alone, at
      most five of them, and then answers what the same write alone would answer. */
  lemma EachWriteReturns(t: Tree, ws: seq<Writer>, run: seq<Action>, i: nat) returns (more: seq<Action>)
    requires Setup(t, ws) && CanRun(ws, Begin(t, ws), run) && i < |ws|
    ensures var s := Run(ws, Begin(t, ws), run);
      |s.pcs| == |ws| && (!s.pcs[i].Done? ==>
        && CanRun(ws, s, more) && |more| <= 5 && (forall a <- more :: a.i == i)
        && var u, filled := Run(ws, s, more), Delivers(s.pcs[i]);
          && |u.pcs| == |ws| && u.log == s.log + [Return(i, filled)]
          && u.pcs[i] == Done(Whole(Sequential(t, ws, s.log), ws[i], filled).1))
  {
    hide Setup, Overlaid, Linear, Placed, Enabled, Next, Whole, Sequential, Delivers, Run, CanRun;
    var s := Run(ws, Begin(t, ws), run);
    WritesAreLinear(t, ws, run);
    OverlaidLength(ws, s.tree, Sequential(t, ws, s.log), s.pcs);
    more := [];
    if !s.pcs[i].Done? {
      ReachedIsGood(t, ws, run);
      more := WriterReturns(t, ws, s, i);
    }
  }

  /** A source can give out while its write is filling; the write then returns in two accesses, as
      one that failed. */
  lemma EachWriteCanFail(t: Tree, ws: seq<Writer>, run: seq<Action>, i: nat)
    requires Setup(t, ws) && CanRun(ws, Begin(t, ws), run) && i < |ws|
    ensures var s, fails := Run(ws, Begin(t, ws), run), [FillFails(i), Unlink(i)];
      |s.pcs| == |ws| && (s.pcs[i].Filling? ==>
        && CanRun(ws, s, fails)
        && Run(ws, s, fails) == Returned(s, RemoveAll(s.tree, Tmp(ws[i])), i, Err(FillFailed), false))
  {
    hide Setup, Sequential, RemoveAll, Run, CanRun;
    var s := Run(ws, Begin(t, ws), run);
    WritesAreLinear(t, ws, run);
    hide Overlaid, Linear;
    OverlaidLength(ws, s.tree, Sequential(t, ws, s.log), s.pcs);
    if s.pcs[i].Filling? {
      FailsInTwo(ws, s, i);
    }
  }

  lemma FailsInTwo(ws: seq<Writer>, s: State, i: nat)
    requires i < |ws| == |s.pcs| && s.pcs[i].Filling?
    ensures var fails := [FillFails(i), Unlink(i)];
      && CanRun(ws, s, fails)
      && Run(ws, s, fails) == Returned(s, RemoveAll(s.tree, Tmp(ws[i])), i, Err(FillFailed), false)
  {
    hide RemoveAll, Tmp;
    var fails := [FillFails(i), Unlink(i)];
    assert fails[1..] == [Unlink(i)] && fails[1..][1..] == [];
    var u := Next(ws, s, FillFails(i));
    var v := Returned(s, RemoveAll(s.tree, Tmp(ws[i])), i, Err(FillFailed), false);
    assert u.pcs[i := Done(Err(FillFailed))] == v.pcs;
    assert Enabled(ws, u, Unlink(i)) && Next(ws, u, Unlink(i)) == v && CanRun(ws, v, []) && Run(ws, v, []) == v;
    assert CanRun(ws, u, [Unlink(i)]) && Run(ws, u, [Unlink(i)]) == v;
  }

  lemma ReachedIsGood(t: Tree, ws: seq<Writer>, run: seq<Action>)
    requires Setup(t, ws) && CanRun(ws, Begin(t, ws), run)
    ensures Good(t, ws, Run(ws, Begin(t, ws), run))
  {
    assert Good(t, ws, Begin(t, ws));
    GoodRun(t, ws, Begin(t, ws), run);
  }

  lemma LeftBounds(w: Writer, pc: Pc)
    ensures Left(w, pc) <= 5 && (!pc.Done? ==> Left(w, pc) > 0)
  {
  }

  lemma LastAnswer(t: Tree, ws: seq<Writer>, s: State, u: State, i: nat, filled: bool)
    requires Good(t, ws, u) && i < |ws| && u.log == s.log + [Return(i, filled)]
    ensures |u.pcs| == |ws| && u.pcs[i] == Done(Whole(Sequential(t, ws, s.log), ws[i], filled).1)
  {
    hide Overlaid, Whole, Sequential, OncePerWriter, Complete;
    assert Answered(t, ws, u.pcs, u.log, |s.log|);
    assert u.log[..|s.log|] == s.log;
  }
}
