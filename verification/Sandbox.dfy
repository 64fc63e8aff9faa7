/** The bin and the browser: what the user-facing operations can change in the recycle bin
    (nothing) and what they can learn about it (exactly when the caller's raw path walks
    through it on the way to somewhere else). */
module Sandbox {
  import opened Common
  import opened Text
  import opened Paths
  import opened Volume
  import opened FileManager
  import opened VolumeLaws

  ghost function Live(t: Tree): Tree { map p | p in t && !InTrash(p) :: t[p] }

  ghost function Bin(t: Tree): Tree { map p | p in t && InTrash(p) :: t[p] }

  /** Two volumes that differ at most in their bins. */
  ghost predicate Alike(t1: Tree, t2: Tree) { Inv(t1) && Inv(t2) && Live(t1) == Live(t2) }

  lemma AlikeAt(t1: Tree, t2: Tree, p: Path)
    requires Live(t1) == Live(t2) && !InTrash(p)
    ensures p in t1 <==> p in t2
    ensures p in t1 ==> t1[p] == t2[p]
  {
    assert p in t1 <==> p in Live(t1);
    assert p in t2 <==> p in Live(t2);
  }

  /** No component the walk visits, the end included, lies in the bin. */
  predicate StaysOut(cur: Path, parts: seq<string>)
    decreases |parts|
  {
    !InTrash(cur) && (parts != [] ==> StaysOut(Step(cur, parts[0]), parts[1..]))
  }

  // ---------------------------------------------------------------- the bin is never changed

  lemma RenamedLeavesBin(t: Tree, src: Path, dst: Path)
    requires Inv(t) && Clean(src) && Clean(dst)
    ensures Bin(Renamed(t, src, dst).0) == Bin(t)
  {
    hide Move, Lstat, Renameat, WellFormed, BinSane;
    if src != [] && dst != [] && Renameat(t, src, dst, true).Ok? && !InTrash(src) && !InTrash(dst) {
      RenameatMoves(t, src, dst, true);
      forall q | InTrash(q)
        ensures q in Move(t, src, dst) <==> q in t
        ensures q in t ==> Move(t, src, dst)[q] == t[q]
      {
        MoveAt(t, src, dst, q);
      }
    }
  }

  lemma MadeDirLeavesBin(t: Tree, rel: string)
    requires Inv(t)
    ensures Bin(MadeDir(t, rel).0) == Bin(t)
  {
    hide MkdirAll, Parts, WellFormed, BinSane;
    if MkdirAll(t, [], Parts(rel)).Ok? && Target(Resolve(rel)).Ok? {
      MkdirAllAdds(t, [], Parts(rel));
    }
  }

  predicate Browses(op: Op) { op.Write? || op.Mkdir? || op.Rename? }

  /** Write, Mkdir and Rename leave the bin as it is, whatever they are called with. */
  lemma BrowsingLeavesBin(t: Tree, op: Op)
    requires Inv(t) && Browses(op)
    ensures Bin(Apply(t, op).0) == Bin(t)
  {
    hide MadeDir, Renamed, Resolve, Lstat, WellFormed, BinSane;
    match op {
      case Write(_, _, _) =>
      case Mkdir(rel) => MadeDirLeavesBin(t, rel);
      case Rename(src, dst) =>
        ResolveIsClean(src);
        ResolveIsClean(dst);
        RenamedLeavesBin(t, Resolve(src), Resolve(dst));
    }
  }

  // ---------------------------------------------------------------- lookups outside the bin

  lemma {:induction false} LstatAlike(t1: Tree, t2: Tree, p: Path)
    requires Live(t1) == Live(t2) && !InTrash(p)
    ensures Lstat(t1, p) == Lstat(t2, p)
    decreases |p|
  {
    hide Live;
    AlikeAt(t1, t2, p);
    if p != [] {
      LstatAlike(t1, t2, Parent(p));
    }
  }

  lemma {:induction false} WalkAlike(t1: Tree, t2: Tree, cur: Path, parts: seq<string>)
    requires Live(t1) == Live(t2) && StaysOut(cur, parts)
    ensures Walk(t1, cur, parts) == Walk(t2, cur, parts)
    ensures Walk(t1, cur, parts).Ok? ==> t1[Walk(t1, cur, parts).value] == t2[Walk(t1, cur, parts).value]
    decreases |parts|
  {
    hide Live, Step;
    AlikeAt(t1, t2, cur);
    if parts != [] {
      WalkAlike(t1, t2, Step(cur, parts[0]), parts[1..]);
    }
  }

  lemma {:induction false} MakeDirsAlike(t1: Tree, t2: Tree, cur: Path, parts: seq<string>)
    requires Live(t1) == Live(t2)
    ensures Live(MakeDirs(t1, cur, parts)) == Live(MakeDirs(t2, cur, parts))
    decreases |parts|
  {
    if parts != [] {
      if parts[0] == "" || parts[0] == "." {
        MakeDirsAlike(t1, t2, cur, parts[1..]);
      } else {
        var next := cur + [parts[0]];
        LiveSet(t1, next, Dir);
        LiveSet(t2, next, Dir);
        hide Live;
        MakeDirsAlike(t1[next := Dir], t2[next := Dir], next, parts[1..]);
      }
    }
  }

  lemma LiveSet(t: Tree, p: Path, n: Node)
    ensures Live(t[p := n]) == if InTrash(p) then Live(t) else Live(t)[p := n]
  {
  }

  lemma {:induction false} MkdirAllAlike(t1: Tree, t2: Tree, cur: Path, parts: seq<string>)
    requires Live(t1) == Live(t2) && StaysOut(cur, parts)
    ensures match (MkdirAll(t1, cur, parts), MkdirAll(t2, cur, parts))
      case (Ok(u1), Ok(u2)) => Live(u1) == Live(u2)
      case (Err(e1), Err(e2)) => e1 == e2
      case _ => false
    decreases |parts|
  {
    hide Live, Step, MakeDirs;
    AlikeAt(t1, t2, cur);
    if parts != [] {
      AlikeAt(t1, t2, Step(cur, parts[0]));
      MakeDirsAlike(t1, t2, cur, parts);
      MkdirAllAlike(t1, t2, Step(cur, parts[0]), parts[1..]);
    }
  }

  // ---------------------------------------------------------------- what each operation shows

  lemma ListedAlike(t1: Tree, t2: Tree, p: Path)
    requires Live(t1) == Live(t2)
    ensures Listed(t1, p) == Listed(t2, p)
  {
    if !InTrash(p) {
      hide Live, Lstat, Children;
      LstatAlike(t1, t2, p);
      forall n: string
        ensures n in Shown(t1, p) <==> n in Shown(t2, p)
        ensures n in Shown(t1, p) ==> Shown(t1, p)[n] == Shown(t2, p)[n]
      {
        ChildrenAre(t1, p, n);
        ChildrenAre(t2, p, n);
        if !(p == [] && n == TRASH) {
          assert !InTrash(p + [n]) by { if p != [] { assert (p + [n])[0] == p[0]; } }
          AlikeAt(t1, t2, p + [n]);
        }
      }
      assert Shown(t1, p) == Shown(t2, p);
    }
  }

  lemma WrittenAlike(t1: Tree, t2: Tree, p: Path, suffix: string, fill: Fill)
    requires Live(t1) == Live(t2)
    ensures var (u1, r1) := Written(t1, p, TMP_PREFIX + suffix, fill);
      var (u2, r2) := Written(t2, p, TMP_PREFIX + suffix, fill);
      r1 == r2 && Live(u1) == Live(u2)
  {
    if p != [] && !InTrash(p) {
      hide Live, Lstat;
      var at := Parent(p) + [TMP_PREFIX + suffix];
      assert (TMP_PREFIX + suffix)[1] == 'w' && TRASH[1] == 'r';
      assert !InTrash(at) by { assert p[0] != TRASH; }
      LstatAlike(t1, t2, Parent(p));
      AlikeAt(t1, t2, at);
      AlikeAt(t1, t2, p);
      LiveSet(t1, p, File(Bytes(fill.written)));
      LiveSet(t2, p, File(Bytes(fill.written)));
    }
  }

  lemma MoveAlikeAt(t1: Tree, t2: Tree, src: Path, dst: Path, q: Path)
    requires Live(t1) == Live(t2) && src != [] && !InTrash(src) && !InTrash(q)
    ensures q in Move(t1, src, dst) <==> q in Move(t2, src, dst)
    ensures q in Move(t1, src, dst) ==> Move(t1, src, dst)[q] == Move(t2, src, dst)[q]
  {
    hide Move, Live;
    MoveAt(t1, src, dst, q);
    MoveAt(t2, src, dst, q);
    AlikeAt(t1, t2, q);
    if dst <= q {
      AlikeAt(t1, t2, src + q[|dst|..]);
    }
  }

  lemma MoveAlike(t1: Tree, t2: Tree, src: Path, dst: Path)
    requires Live(t1) == Live(t2) && src != [] && !InTrash(src)
    ensures Live(Move(t1, src, dst)) == Live(Move(t2, src, dst))
  {
    hide Move, InTrash;
    forall q: Path | !InTrash(q)
      ensures q in Move(t1, src, dst) <==> q in Move(t2, src, dst)
      ensures q in Move(t1, src, dst) ==> Move(t1, src, dst)[q] == Move(t2, src, dst)[q]
    {
      MoveAlikeAt(t1, t2, src, dst, q);
    }
  }

  lemma RenamedAlike(t1: Tree, t2: Tree, src: Path, dst: Path)
    requires Alike(t1, t2)
    ensures var (u1, r1) := Renamed(t1, src, dst);
      var (u2, r2) := Renamed(t2, src, dst);
      r1 == r2 && Live(u1) == Live(u2)
  {
    hide Move, Live, Lstat, WellFormed, BinSane;
    if src != [] && dst != [] && !InTrash(src) && !InTrash(dst) {
      LstatAlike(t1, t2, dst);
      LstatAlike(t1, t2, Parent(src));
      LstatAlike(t1, t2, Parent(dst));
      AlikeAt(t1, t2, src);
      AlikeAt(t1, t2, dst);
      LstatFinds(t1, dst);
      MoveAlike(t1, t2, src, dst);
    }
  }

  lemma MadeDirAlike(t1: Tree, t2: Tree, rel: string)
    requires Live(t1) == Live(t2) && (StaysOut([], Parts(rel)) || Target(Resolve(rel)).Err?)
    ensures MadeDir(t1, rel).1 == MadeDir(t2, rel).1 && Live(MadeDir(t1, rel).0) == Live(MadeDir(t2, rel).0)
  {
    hide Live, Resolve, MkdirAll, Parts, StaysOut;
    if StaysOut([], Parts(rel)) {
      MkdirAllAlike(t1, t2, [], Parts(rel));
    }
  }

  // ---------------------------------------------------------------- raw paths through the bin

  /** A volume holding, as directories, every place a raw path passes. */
  ghost function Visit(t: Tree, cur: Path, parts: seq<string>): Tree
    decreases |parts|
  {
    if parts == [] then t else Visit(t[Step(cur, parts[0]) := Dir], Step(cur, parts[0]), parts[1..])
  }

  ghost predicate AllDirs(t: Tree) { forall p <- t :: t[p].Dir? }

  ghost predicate Visited(t: Tree, cur: Path, parts: seq<string>)
    decreases |parts|
  {
    cur in t && t[cur].Dir? && (parts != [] ==> Visited(t, Step(cur, parts[0]), parts[1..]))
  }

  lemma {:induction false} VisitMakes(t: Tree, cur: Path, parts: seq<string>)
    requires WellFormed(t) && AllDirs(t) && cur in t && forall x <- parts :: '/' !in x
    ensures var s := Visit(t, cur, parts);
      WellFormed(s) && AllDirs(s) && t.Keys <= s.Keys && Visited(s, cur, parts)
    decreases |parts|
  {
    if parts != [] {
      var next := Step(cur, parts[0]);
      assert parts[0] in parts;
      assert WellFormed(t[next := Dir]) by {
        assert next != [] ==> next == cur || Parent(next) == cur || next == Parent(cur);
      }
      VisitMakes(t[next := Dir], next, parts[1..]);
      assert cur in t[next := Dir];
    }
  }

  lemma {:induction false} VisitedWalks(t: Tree, cur: Path, parts: seq<string>)
    requires Visited(t, cur, parts)
    ensures Walk(t, cur, parts) == Ok(CleanFrom(cur, parts)) && MkdirAll(t, cur, parts) == Ok(t)
    ensures CleanFrom(cur, parts) in t && t[CleanFrom(cur, parts)].Dir?
    decreases |parts|
  {
    if parts != [] {
      VisitedWalks(t, Step(cur, parts[0]), parts[1..]);
    }
  }

  lemma {:induction false} StuckInBin(cur: Path, parts: seq<string>)
    requires InTrash(cur) && ".." !in parts
    ensures InTrash(CleanFrom(cur, parts))
    decreases |parts|
  {
    if parts != [] {
      assert parts[0] in parts;
      StuckInBin(Step(cur, parts[0]), parts[1..]);
    }
  }

  /** Without a bin, a path that would pass through it ends there. */
  lemma {:induction false} NoWayThrough(t: Tree, cur: Path, parts: seq<string>)
    requires Visited(t, cur, parts) && !InTrash(cur) && !StaysOut(cur, parts)
    ensures Walk(Live(t), cur, parts) == Err(ENOENT)
    ensures !InTrash(CleanFrom(cur, parts)) ==> MkdirAll(Live(t), cur, parts) == Err(ENOENT)
    decreases |parts|
  {
    if parts != [] {
      var next, rest := Step(cur, parts[0]), parts[1..];
      if InTrash(next) {
        if ".." !in rest {
          StuckInBin(next, rest);
        } else {
          assert ".." in parts;
        }
      } else {
        NoWayThrough(t, next, rest);
      }
    }
  }

  /** Two volumes, alike but for the bin, that a path through the bin tells apart. */
  lemma TwoWitnesses(rel: string) returns (t1: Tree, t2: Tree)
    requires !StaysOut([], Parts(rel)) && !InTrash(Resolve(rel))
    ensures Alike(t1, t2)
    ensures ReadAt(t1, rel) == Err(IsDirectory) && ReadAt(t2, rel) == Err(NotFound)
    ensures OpenAt(t1, rel) == Err(IsDirectory) && OpenAt(t2, rel) == Err(NotFound)
    ensures Resolve(rel) != [] ==>
      MadeDir(t1, rel).1 == Ok(()) && MadeDir(t2, rel).1 == Err(System(ENOENT))
  {
    hide Parts, MkdirAll, Walk, StaysOut, Visited, Visit;
    var start: Tree := map[[] := Dir];
    PartsHaveNoSlash(rel);
    VisitMakes(start, [], Parts(rel));
    t1 := Visit(start, [], Parts(rel));
    t2 := Live(t1);
    assert t2 == RemoveAll(t1, [TRASH]) by { OutsideIsAbove(t1); }
    RemoveKeeps(t1, [TRASH]);
    assert Live(t2) == Live(t1);
    VisitedWalks(t1, [], Parts(rel));
    NoWayThrough(t1, [], Parts(rel));
  }

  lemma OutsideIsAbove(t: Tree)
    ensures forall p <- t :: InTrash(p) <==> [TRASH] <= p
  {
  }

  /** Read and Open learn nothing about the bin exactly when the raw path does not pass through
      it, or ends in it and is refused. */
  lemma ReadBlindIff(rel: string)
    ensures (forall t1, t2 | Alike(t1, t2) :: ReadAt(t1, rel) == ReadAt(t2, rel)) <==>
      StaysOut([], Parts(rel)) || InTrash(Resolve(rel))
    ensures (forall t1, t2 | Alike(t1, t2) :: OpenAt(t1, rel) == OpenAt(t2, rel)) <==>
      StaysOut([], Parts(rel)) || InTrash(Resolve(rel))
  {
    hide StaysOut, Resolve, Parts, Live, Inv, Walk;
    if StaysOut([], Parts(rel)) {
      forall t1, t2 | Alike(t1, t2)
        ensures ReadAt(t1, rel) == ReadAt(t2, rel) && OpenAt(t1, rel) == OpenAt(t2, rel)
      {
        WalkAlike(t1, t2, [], Parts(rel));
      }
    } else if !InTrash(Resolve(rel)) {
      hide ReadAt, OpenAt, Alike, MadeDir;
      var t1, t2 := TwoWitnesses(rel);
      assert Alike(t1, t2);
    }
  }

  /** Mkdir likewise; it is also blind when it refuses its target outright. */
  lemma MkdirBlindIff(rel: string)
    ensures (forall t1, t2 | Alike(t1, t2) ::
               MadeDir(t1, rel).1 == MadeDir(t2, rel).1 && Live(MadeDir(t1, rel).0) == Live(MadeDir(t2, rel).0))
      <==> StaysOut([], Parts(rel)) || Target(Resolve(rel)).Err?
  {
    hide StaysOut, Resolve, Parts, Live, Inv, MadeDir;
    if StaysOut([], Parts(rel)) || Target(Resolve(rel)).Err? {
      forall t1, t2 | Alike(t1, t2)
        ensures MadeDir(t1, rel).1 == MadeDir(t2, rel).1 && Live(MadeDir(t1, rel).0) == Live(MadeDir(t2, rel).0)
      {
        MadeDirAlike(t1, t2, rel);
      }
    } else {
      hide ReadAt, OpenAt, Alike;
      var t1, t2 := TwoWitnesses(rel);
      assert Alike(t1, t2);
    }
  }

  const THROUGH_BIN := ".raptor-trash/../x"

  lemma ThroughBinParts()
    ensures Parts(THROUGH_BIN) == [TRASH, "..", "x"]
  {
    hide Split, TrimSpace, IsSpace;
    EndsVisible();
    TrimSpaceTrims(THROUGH_BIN);
    assert THROUGH_BIN == TRASH + ['/'] + "../x" && "../x" == ".." + ['/'] + "x";
    SplitPiece(TRASH, "../x", '/');
    SplitPiece("..", "x", '/');
    SplitPiece("x", "", '/');
    assert [TRASH] + ([".."] + ["x"]) == [TRASH, "..", "x"];
  }

  lemma EndsVisible()
    ensures Trimmed(THROUGH_BIN)
  {
  }

  lemma OneStep(cur: Path, n: string, rest: seq<string>)
    ensures CleanFrom(cur, [n] + rest) == CleanFrom(Step(cur, n), rest)
    ensures StaysOut(cur, [n] + rest) <==> !InTrash(cur) && StaysOut(Step(cur, n), rest)
  {
    hide Step, InTrash;
    assert ([n] + rest)[1..] == rest;
  }

  lemma StepsThroughBin()
    ensures Step([], TRASH) == [TRASH] && Step([TRASH], "..") == [] && Step([], "x") == ["x"]
  {
  }

  lemma WalkThroughBin()
    ensures CleanFrom([], [TRASH, "..", "x"]) == ["x"] && !StaysOut([], [TRASH, "..", "x"])
  {
    hide Step, CleanFrom, StaysOut;
    StepsThroughBin();
    NothingLeft(["x"]);
    assert [TRASH, "..", "x"] == [TRASH] + ["..", "x"] && ["..", "x"] == [".."] + ["x"] && ["x"] == ["x"] + [];
    OneStep([], TRASH, ["..", "x"]);
    OneStep([TRASH], "..", ["x"]);
    OneStep([], "x", []);
  }

  lemma NothingLeft(cur: Path)
    ensures CleanFrom(cur, []) == cur
  {
  }

  /** A path the guard lets pass, as `/x`, and the kernel walks through the bin. */
  lemma ThroughBin()
    ensures Parts(THROUGH_BIN) == [TRASH, "..", "x"]
    ensures Resolve(THROUGH_BIN) == ["x"] && !StaysOut([], Parts(THROUGH_BIN))
  {
    hide Parts, CleanFrom, StaysOut;
    ThroughBinParts();
    WalkThroughBin();
  }

  /** So there are two volumes, alike but for the bin, that this path tells apart. */
  lemma BinIsNoticed() returns (t1: Tree, t2: Tree)
    ensures Alike(t1, t2)
    ensures ReadAt(t1, THROUGH_BIN) != ReadAt(t2, THROUGH_BIN) && OpenAt(t1, THROUGH_BIN) != OpenAt(t2, THROUGH_BIN)
    ensures MadeDir(t1, THROUGH_BIN).1 != MadeDir(t2, THROUGH_BIN).1
  {
    hide ReadAt, OpenAt, MadeDir, Alike, Parts, Resolve, StaysOut;
    ThroughBin();
    t1, t2 := TwoWitnesses(THROUGH_BIN);
  }

  // ---------------------------------------------------------------- whole sessions

  /** One request of a browsing session. */
  datatype Request = List(rel: string) | Read(rel: string) | Open(rel: string) | Change(op: Op)

  datatype Answer =
    | Listing(entries: Outcome<map<string, Kind>>)
    | Contents(data: Outcome<Data>)
    | Status(outcome: Outcome<()>)

  ghost function Serve(t: Tree, r: Request): (Tree, Answer)
    requires BinSane(t)
  {
    match r
    case List(rel) => (t, Listing(Listed(t, Resolve(rel))))
    case Read(rel) => (t, Contents(ReadAt(t, rel)))
    case Open(rel) => (t, Contents(OpenAt(t, rel)))
    case Change(op) => var (u, outcome) := Apply(t, op); (u, Status(outcome))
  }

  /** Requests of the browser whose raw paths do not pass through the bin. */
  predicate Quiet(r: Request) {
    match r
    case List(_) => true
    case Read(rel) => StaysOut([], Parts(rel)) || InTrash(Resolve(rel))
    case Open(rel) => StaysOut([], Parts(rel)) || InTrash(Resolve(rel))
    case Change(op) =>
      Browses(op) && Drawn(op) && (op.Mkdir? ==> StaysOut([], Parts(op.rel)) || Target(Resolve(op.rel)).Err?)
  }

  lemma ServedAlike(t1: Tree, t2: Tree, r: Request)
    requires Alike(t1, t2) && Quiet(r)
    ensures var (u1, a1) := Serve(t1, r);
      var (u2, a2) := Serve(t2, r);
      a1 == a2 && Alike(u1, u2) && Bin(u1) == Bin(t1) && Bin(u2) == Bin(t2)
  {
    hide Live, Bin, Written, MadeDir, Renamed, Resolve, ReadAt, OpenAt, Listed, StaysOut, Parts, WellFormed, BinSane,
      Target;
    match r {
      case List(rel) => ListedAlike(t1, t2, Resolve(rel));
      case Read(rel) => ReadBlindIff(rel);
      case Open(rel) => ReadBlindIff(rel);
      case Change(op) =>
        ApplyKeeps(t1, op);
        ApplyKeeps(t2, op);
        BrowsingLeavesBin(t1, op);
        BrowsingLeavesBin(t2, op);
        match op {
          case Write(rel, suffix, fill) => WrittenAlike(t1, t2, Resolve(rel), suffix, fill);
          case Mkdir(rel) => MadeDirAlike(t1, t2, rel);
          case Rename(src, dst) => RenamedAlike(t1, t2, Resolve(src), Resolve(dst));
        }
    }
  }

  /** The answers of a session, and the volume it leaves. */
  ghost function Session(t: Tree, rs: seq<Request>): (r: (Tree, seq<Answer>))
    requires Inv(t) && forall x <- rs :: Quiet(x)
    decreases |rs|
  {
    if rs == [] then (t, [])
    else
      assert rs[0] in rs;
      ServedAlike(t, t, rs[0]);
      var (u, a) := Serve(t, rs[0]);
      var (v, more) := Session(u, rs[1..]);
      (v, [a] + more)
  }

  /** Over whole sessions the bin is neither changed nor observed: two volumes that differ only in
      their bins give the same answers, stay alike, and keep each its own bin. */
  lemma {:induction false} SessionsAreBlind(t1: Tree, t2: Tree, rs: seq<Request>)
    requires Alike(t1, t2) && forall x <- rs :: Quiet(x)
    ensures var (u1, a1) := Session(t1, rs);
      var (u2, a2) := Session(t2, rs);
      a1 == a2 && Alike(u1, u2) && Bin(u1) == Bin(t1) && Bin(u2) == Bin(t2)
    decreases |rs|
  {
    hide Live, Bin, Serve, Quiet, WellFormed, BinSane;
    if rs != [] {
      assert rs[0] in rs;
      ServedAlike(t1, t2, rs[0]);
      ServedAlike(t1, t1, rs[0]);
      ServedAlike(t2, t2, rs[0]);
      SessionsAreBlind(Serve(t1, rs[0]).0, Serve(t2, rs[0]).0, rs[1..]);
    }
  }
}
