/** Nothing is lost: over any run the number of user files holding each content changes only by
    what writes put in and replace, and by deletions whose sidecar cannot be written. */
module Conservation {
  import opened Common
  import opened Paths
  import opened Volume
  import opened FileManager
  import opened VolumeLaws
  import opened RecycleBin
  import opened RoundTrip
  import Sandbox

  /** Where users' files live: outside the bin, and in the payloads of its entries. */
  predicate UserPath(p: Path) { !InTrash(p) || (|p| >= 3 && p[2] == PAYLOAD) }

  ghost function Holders(t: Tree, d: Data): set<Path> {
    set p | p in t && UserPath(p) && t[p] == File(d)
  }

  /** How many user files hold `d`: the multiset of contents, as a counting function. */
  ghost function Count(t: Tree, d: Data): nat { |Holders(t, d)| }

  /** How many of them lie at or below `top`. */
  ghost function Under(t: Tree, top: Path, d: Data): nat { |HoldersBelow(t, top, d)| }

  ghost function HoldersBelow(t: Tree, top: Path, d: Data): set<Path> {
    set p | p in Holders(t, d) && top <= p
  }

  // ---------------------------------------------------------------- counting through tree changes

  ghost function Shifted(s: set<Path>, src: Path, dst: Path): set<Path> {
    set p | p in s && src <= p :: dst + p[|src|..]
  }

  lemma ShiftBack(src: Path, dst: Path, p: Path)
    requires src <= p
    ensures var q := dst + p[|src|..]; dst <= q && src + q[|dst|..] == p
  {
  }

  lemma {:induction false} ShiftedCard(s: set<Path>, src: Path, dst: Path)
    requires forall p <- s :: src <= p
    ensures |Shifted(s, src, dst)| == |s|
    decreases |s|
  {
    if s == {} {
      assert Shifted(s, src, dst) == {};
    } else {
      var x :| x in s;
      ShiftedCard(s - {x}, src, dst);
      ShiftedStep(s, src, dst, x);
      assert s == (s - {x}) + {x};
    }
  }

  lemma ShiftedStep(s: set<Path>, src: Path, dst: Path, x: Path)
    requires x in s && forall p <- s :: src <= p
    ensures var y := dst + x[|src|..];
      Shifted(s, src, dst) == Shifted(s - {x}, src, dst) + {y} && y !in Shifted(s - {x}, src, dst)
  {
    forall p | p in s
      ensures dst + p[|src|..] == dst + x[|src|..] ==> p == x
    {
      ShiftBack(src, dst, p);
      ShiftBack(src, dst, x);
    }
  }

  /** Moving a subtree between places users own, onto nothing, loses and gains no content. */
  lemma CountMoved(t: Tree, src: Path, dst: Path, d: Data)
    requires WellFormed(t) && dst !in t && src in t
    requires forall q: Path :: src <= q || dst <= q ==> UserPath(q)
    ensures Count(Move(t, src, dst), d) == Count(t, d)
  {
    hide Move, UserPath, WellFormed, Holders, Shifted;
    var h, below := Holders(t, d), HoldersBelow(t, src, d);
    var moved := Shifted(below, src, dst);
    ShiftedCard(below, src, dst);
    forall q: Path
      ensures q in Holders(Move(t, src, dst), d) <==> q in (h - below) + moved
      ensures !(q in h && q in moved)
    {
      HolderMoved(t, src, dst, d, q);
    }
    assert Holders(Move(t, src, dst), d) == (h - below) + moved;
    assert h == (h - below) + below && (h - below) * moved == {};
  }

  lemma ShiftedHas(s: set<Path>, src: Path, dst: Path, q: Path)
    requires forall p <- s :: src <= p
    ensures q in Shifted(s, src, dst) <==> dst <= q && src + q[|dst|..] in s
  {
    if q in Shifted(s, src, dst) {
      var p :| p in s && src <= p && q == dst + p[|src|..];
      ShiftBack(src, dst, p);
    }
    if dst <= q && src + q[|dst|..] in s {
      ShiftBack(dst, src, q);
    }
  }

  lemma HolderMoved(t: Tree, src: Path, dst: Path, d: Data, q: Path)
    requires WellFormed(t) && dst !in t
    requires forall x: Path :: src <= x || dst <= x ==> UserPath(x)
    ensures var moved := Shifted(HoldersBelow(t, src, d), src, dst);
      (q in Holders(Move(t, src, dst), d) <==> q in (Holders(t, d) - HoldersBelow(t, src, d)) + moved)
      && !(q in Holders(t, d) && q in moved)
  {
    hide Move, UserPath, WellFormed, Shifted;
    MoveAt(t, src, dst, q);
    NothingBelow(t, dst, q);
    ShiftedHas(HoldersBelow(t, src, d), src, dst, q);
  }

  lemma CountRemoved(t: Tree, top: Path, d: Data)
    ensures Count(RemoveAll(t, top), d) == Count(t, d) - Under(t, top, d)
  {
    var h := Holders(t, d);
    var below := HoldersBelow(t, top, d);
    assert Holders(RemoveAll(t, top), d) == h - below;
    assert h == (h - below) + below;
  }

  ghost predicate OnlyDirsAdded(t: Tree, u: Tree) {
    (forall p <- t :: p in u && u[p] == t[p]) && (forall p <- u :: p !in t ==> u[p].Dir?)
  }

  lemma CountDirs(t: Tree, u: Tree, d: Data)
    requires OnlyDirsAdded(t, u)
    ensures Count(u, d) == Count(t, d)
  {
    assert Holders(u, d) == Holders(t, d);
  }

  ghost function Hits(b: bool): nat { if b then 1 else 0 }

  ghost predicate Holds(t: Tree, p: Path, d: Data) { p in t && t[p] == File(d) }

  lemma CountFile(t: Tree, p: Path, content: Data, d: Data)
    requires UserPath(p)
    ensures Count(t[p := File(content)], d) == Count(t, d) + Hits(content == d) - Hits(Holds(t, p, d))
  {
    hide Holders, Holds, UserPath;
    var h := Holders(t, d);
    HoldersFile(t, p, content, d);
    assert h == if p in h then (h - {p}) + {p} else h - {p};
  }

  lemma HoldersFile(t: Tree, p: Path, content: Data, d: Data)
    requires UserPath(p)
    ensures Holders(t[p := File(content)], d) == (if content == d then Holders(t, d) + {p} else Holders(t, d) - {p})
    ensures Holds(t, p, d) <==> p in Holders(t, d)
  {
    hide UserPath;
  }

  lemma CountHidden(t: Tree, p: Path, content: Data, d: Data)
    requires !UserPath(p)
    ensures Count(t[p := File(content)], d) == Count(t, d)
  {
    hide UserPath;
    assert Holders(t[p := File(content)], d) == Holders(t, d);
  }

  // ---------------------------------------------------------------- renaming and restoring

  lemma RenamedMoves(t: Tree, src: Path, dst: Path)
    requires Inv(t) && Clean(src) && Clean(dst)
    ensures var (u, r) := Renamed(t, src, dst);
      if r.Err? then u == t
      else src in t && dst !in t && !InTrash(src) && !InTrash(dst) && src != [] && dst != [] && u == Move(t, src, dst)
  {
    hide Move, Lstat, Renameat;
    if src != [] && dst != [] && Renameat(t, src, dst, true).Ok? {
      RenameatMoves(t, src, dst, true);
    }
  }

  /** A rename that succeeds carries the whole subtree to a path where nothing was, leaves every
      other entry as it was and adds nothing else; one that fails changes nothing. */
  lemma RenameOverwritesNothing(t: Tree, src: Path, dst: Path)
    requires Inv(t) && Clean(src) && Clean(dst)
    ensures var (u, r) := Renamed(t, src, dst);
      if r.Err? then u == t
      else
        && src in t && dst !in t && Carried(t, src, u, dst)
        && (forall q <- t :: !(src <= q) ==> q in u && u[q] == t[q])
        && (forall q <- u :: if dst <= q then src + q[|dst|..] in t else q in t && !(src <= q))
  {
    hide Move, Renamed, Clean, WellFormed, BinSane;
    RenamedMoves(t, src, dst);
    var u := Renamed(t, src, dst).0;
    if Renamed(t, src, dst).1.Ok? {
      forall q: Path
        ensures q in t && src <= q ==> dst + q[|src|..] in u && u[dst + q[|src|..]] == t[q]
        ensures q in t && !(src <= q) ==> q in u && u[q] == t[q]
        ensures q in u ==> if dst <= q then src + q[|dst|..] in t else q in t && !(src <= q)
      {
        MoveAt(t, src, dst, q);
        NothingBelow(t, dst, q);
        if src <= q {
          ShiftBack(src, dst, q);
          MoveAt(t, src, dst, dst + q[|src|..]);
        }
      }
    }
  }

  /** Where the payload is headed: a clean path outside the bin. */
  lemma RestoreHeads(t: Tree, id: string, stamp: nat)
    requires Inv(t) && ValidTrashID(id)
    ensures var dst := NonConflicting(t, Original(ReadMeta(t, id)), stamp);
      Clean(dst) && !InTrash(Parent(dst))
  {
    hide Original, ReadMeta, Clean, Free, FirstFree, WellFormed, BinSane, ValidName;
    OriginalClean(ReadMeta(t, id));
    FirstFreeClean(t, Original(ReadMeta(t, id)), 1, stamp);
  }

  /** Restore's mkdir of a directory outside the bin adds nothing inside it. */
  lemma MadeOutside(t: Tree, id: string, dir: Path)
    requires Inv(t) && Payload(id) in t && Clean(dir) && !InTrash(dir)
    requires MkdirAll(t, [], Parts(Render(dir))).Ok?
    ensures Sandbox.Bin(MkdirAll(t, [], Parts(Render(dir))).value) == Sandbox.Bin(t)
  {
    hide MkdirAll, Parts, Render, Clean, WellFormed, BinSane;
    var made, end := MkdirAll(t, [], Parts(Render(dir))).value, Resolve(Render(dir));
    MkdirAllAdds(t, [], Parts(Render(dir)));
    StrayOutside(t, id, dir);
    EntryPlaced(t, Payload(id));
    forall q | q in made && InTrash(q)
      ensures q in t
    {
      if q !in t {
        PrefixOf(t, q, end);
      }
    }
  }

  lemma PrefixOf(t: Tree, q: Path, end: Path)
    requires WellFormed(t) && q <= end && q !in t
    ensures end !in t && (InTrash(q) ==> InTrash(end))
  {
    if end in t {
      PrefixIn(t, q, end);
    }
  }

  lemma PutBackCases(t: Tree, id: string, dst: Path) returns (made: Tree, to: Path)
    requires Inv(t) && ValidTrashID(id) && Payload(id) in t && Clean(dst) && dst != [] && !InTrash(Parent(dst))
    ensures var (u, r) := PutBack(t, id, dst);
      && (r.Err? ==> OnlyDirsAdded(t, u) && Sandbox.Bin(u) == Sandbox.Bin(t))
      && (r.Ok? ==>
            && OnlyDirsAdded(t, made) && Sandbox.Bin(made) == Sandbox.Bin(t) && Inv(made)
            && to != [] && !InTrash(to) && to !in made
            && u == RemoveAll(Move(made, Payload(id), to), Entry(id)))
  {
    hide Move, RemoveAll, MkdirAll, Renameat, Parts, Resolve, Render, Clean, WellFormed, BinSane;
    var parts := Parts(Render(Parent(dst)));
    made, to := t, [];
    if MkdirAll(t, [], parts).Ok? {
      MkdirAllAdds(t, [], parts);
      assert Clean(Parent(dst)) by { CleanLeaf(dst); }
      MadeOutside(t, id, Parent(dst));
      made, to := MkdirAll(t, [], parts).value, Resolve(Render(dst));
      if PutBack(t, id, dst).1.Ok? {
        PutBackMoves(t, id, dst);
      }
    }
  }

  lemma RestoredCases(t: Tree, id: string, stamp: nat) returns (made: Tree, to: Path)
    requires Inv(t)
    ensures var (u, r) := Restored(t, id, stamp);
      && (r.Err? ==> OnlyDirsAdded(t, u) && Sandbox.Bin(u) == Sandbox.Bin(t))
      && (r.Ok? ==>
            && ValidTrashID(id) && Payload(id) in t && OnlyDirsAdded(t, made) && Inv(made)
            && Sandbox.Bin(made) == Sandbox.Bin(t)
            && to != [] && !InTrash(to) && to !in made
            && u == RemoveAll(Move(made, Payload(id), to), Entry(id)))
  {
    hide Move, RemoveAll, Lstat, PutBack, NonConflicting, Original, ReadMeta, Clean, WellFormed, BinSane, ValidTrashID;
    made, to := t, [];
    if ValidTrashID(id) && Lstat(t, Payload(id)).Ok? {
      LstatFinds(t, Payload(id));
      RestoreHeads(t, id, stamp);
      made, to := PutBackCases(t, id, NonConflicting(t, Original(ReadMeta(t, id)), stamp));
    }
  }

  /** Restore touches nothing but the entry it restores, whatever happens; a payload it restores
      lands, whole, at a path where nothing was. */
  lemma RestoreOverwritesNothing(t: Tree, id: string, stamp: nat)
    requires Inv(t)
    ensures var (u, r) := Restored(t, id, stamp);
      && (forall q <- t :: !(Entry(id) <= q) || r.Err? ==> q in u && u[q] == t[q])
      && (r.Ok? ==> Payload(id) in t && exists to: Path :: to !in t && Carried(t, Payload(id), u, to))
  {
    hide Restored, Move, RemoveAll, WellFormed, BinSane;
    var made, to := RestoredCases(t, id, stamp);
    var (u, r) := Restored(t, id, stamp);
    if r.Ok? {
      forall q | q in t && !(Entry(id) <= q)
        ensures q in u && u[q] == t[q]
      {
        PutAtAt(made, id, to, q);
        NothingBelow(made, to, q);
      }
      forall q | q in t && Payload(id) <= q
        ensures to + q[|Payload(id)|..] in u && u[to + q[|Payload(id)|..]] == t[q]
      {
        var there := to + q[|Payload(id)|..];
        assert Payload(id) + there[|to|..] == q;
        PutAtAt(made, id, to, there);
      }
      assert Carried(t, Payload(id), u, to);
    }
  }

  /** The subtree at `src` in `t` is found at `dst` in `u`. */
  ghost predicate Carried(t: Tree, src: Path, u: Tree, dst: Path) {
    forall q <- t :: src <= q ==> dst + q[|src|..] in u && u[dst + q[|src|..]] == t[q]
  }

  // ---------------------------------------------------------------- one operation

  /** Bin ids are drawn fresh. */
  predicate Fresh(t: Tree, op: Op) { op.Trash? ==> Entry(op.id) !in t }

  /** What an operation does to the number of user files holding `d`. */
  ghost function Change(t: Tree, op: Op, d: Data): int
    requires BinSane(t)
  {
    match op
    case Write(rel, _, fill) =>
      var p := Resolve(rel);
      if Apply(t, op).1.Ok?
      then Hits(Bytes(fill.written) == d) - Hits(Holds(t, p, d))
      else 0
    case Trash(rel, _, _, _) =>
      if Apply(t, op).1 == Err(SidecarFailed) then 0 - Under(t, Resolve(rel), d) else 0
    case _ => 0
  }

  lemma CountWritten(t: Tree, op: Op, d: Data)
    requires Inv(t) && op.Write?
    ensures Count(Apply(t, op).0, d) == Count(t, d) + Change(t, op, d)
  {
    hide Count, Lstat, Resolve, WellFormed, BinSane;
    var p := Resolve(op.rel);
    if Apply(t, op).1.Ok? {
      CountFile(t, p, Bytes(op.fill.written), d);
    }
  }

  lemma CountMadeDir(t: Tree, rel: string, d: Data)
    requires Inv(t)
    ensures Count(MadeDir(t, rel).0, d) == Count(t, d)
  {
    hide Count, MkdirAll, Resolve, Parts, WellFormed;
    if MkdirAll(t, [], Parts(rel)).Ok? {
      MkdirAllAdds(t, [], Parts(rel));
      CountDirs(t, MkdirAll(t, [], Parts(rel)).value, d);
    }
  }

  lemma CountRenamed(t: Tree, src: Path, dst: Path, d: Data)
    requires Inv(t) && Clean(src) && Clean(dst)
    ensures Count(Renamed(t, src, dst).0, d) == Count(t, d)
  {
    hide Count, Move, Renamed, WellFormed, Clean;
    RenamedMoves(t, src, dst);
    if Renamed(t, src, dst).1.Ok? {
      CountMoved(t, src, dst, d);
    }
  }

  lemma MovedAway(t: Tree, id: string, to: Path, q: Path)
    requires q in Move(t, Payload(id), to) && UserPath(q) && to != [] && !InTrash(to)
    ensures !(Entry(id) <= q)
  {
    hide Move;
    assert Entry(id) <= q && |q| >= 3 && q[2] == PAYLOAD ==> Payload(id) <= q;
    MoveAt(t, Payload(id), to, q);
  }

  lemma CountRestored(t: Tree, id: string, stamp: nat, d: Data)
    requires Inv(t)
    ensures Count(Restored(t, id, stamp).0, d) == Count(t, d)
  {
    hide Restored, Move, Count, WellFormed, BinSane, RemoveAll;
    var made, to := RestoredCases(t, id, stamp);
    var (u, r) := Restored(t, id, stamp);
    if r.Err? {
      CountDirs(t, u, d);
    } else {
      CountDirs(t, made, d);
      CountMoved(made, Payload(id), to, d);
      var moved := Move(made, Payload(id), to);
      CountRemoved(moved, Entry(id), d);
      forall q | q in Holders(moved, d)
        ensures !(Entry(id) <= q)
      {
        MovedAway(made, id, to, q);
      }
      assert HoldersBelow(moved, Entry(id), d) == {};
    }
  }

  lemma CountPrepared(t: Tree, id: string, d: Data)
    requires !BinBlocked(t) && Entry(id) !in t
    ensures Count(Prepared(t, id), d) == Count(t, d)
    ensures forall p: Path :: p != [] && !InTrash(p) ==> Under(Prepared(t, id), p, d) == Under(t, p, d)
  {
    assert Holders(Prepared(t, id), d) == Holders(t, d);
  }

  lemma CountTrashed(t: Tree, p: Path, id: string, now: int, sidecarOk: bool, d: Data)
    requires Inv(t) && Clean(p) && ValidTrashID(id) && Entry(id) !in t
    ensures var (u, r) := Trashed(t, p, id, now, sidecarOk);
      Count(u, d) == Count(t, d) - (if r == Err(SidecarFailed) then Under(t, p, d) else 0)
  {
    hide Count, Under, Move, RemoveAll, Render, Trashed, WellFormed, BinSane, Clean;
    if p == [] || InTrash(p) {
      TargetRefused(t, p, id, now, sidecarOk);
    } else {
      TrashedIs(t, p, id, now, sidecarOk);
      if p in t && !BinBlocked(t) {
        var made := Prepared(t, id);
        var moved := Move(made, p, Payload(id));
        CountPrepared(t, id, d);
        PreparedKeeps(t, id);
        EntryFresh(t, p, id);
        CountMoved(made, p, Payload(id), d);
        CountHidden(moved, Entry(id) + [META], Sidecar(Meta(Leaf(p), Render(p), now)), d);
        CountRemoved(moved, Entry(id), d);
        UnderEntry(t, p, id, d);
      } else {
        NoSidecarYet(t, p, id, now, sidecarOk);
      }
    }
  }

  lemma TargetRefused(t: Tree, p: Path, id: string, now: int, sidecarOk: bool)
    requires p == [] || InTrash(p)
    ensures Trashed(t, p, id, now, sidecarOk) == (t, Target(p)) && Target(p) != Err(SidecarFailed)
  {
  }

  lemma NoSidecarYet(t: Tree, p: Path, id: string, now: int, sidecarOk: bool)
    requires WellFormed(t) && ValidTrashID(id) && Entry(id) !in t && p != [] && !InTrash(p)
    requires p !in t || BinBlocked(t)
    ensures Trashed(t, p, id, now, sidecarOk).1 != Err(SidecarFailed)
  {
    hide MkdirAll, Lstat, Binned;
    LstatFinds(t, p);
    BinMade(t, id);
  }

  /** What the torn-down entry held is what lay at the deleted path. */
  lemma UnderEntry(t: Tree, p: Path, id: string, d: Data)
    requires WellFormed(t) && p in t && p != [] && !InTrash(p) && Entry(id) !in t
    ensures Under(Move(Prepared(t, id), p, Payload(id)), Entry(id), d) == Under(t, p, d)
  {
    hide Move;
    var moved := Move(Prepared(t, id), p, Payload(id));
    var below := HoldersBelow(t, p, d);
    ShiftedCard(below, p, Payload(id));
    forall q: Path
      ensures q in Holders(moved, d) && Entry(id) <= q <==> q in Shifted(below, p, Payload(id))
    {
      MoveAt(Prepared(t, id), p, Payload(id), q);
      NothingBelow(t, Entry(id), q);
      if Payload(id) <= q {
        var x := p + q[|Payload(id)|..];
        assert x[|p|..] == q[|Payload(id)|..] && Payload(id) + x[|p|..] == q && x[0] == p[0];
      }
      if q in Shifted(below, p, Payload(id)) {
        var x :| x in below && p <= x && q == Payload(id) + x[|p|..];
        assert q[|Payload(id)|..] == x[|p|..] && p + x[|p|..] == x;
      }
    }
    assert HoldersBelow(moved, Entry(id), d) == Shifted(below, p, Payload(id));
  }

  /** The exact law of one operation: only writes and lost payloads change what is stored. */
  lemma OpConserves(t: Tree, op: Op, d: Data)
    requires Inv(t) && Drawn(op) && Fresh(t, op)
    ensures Count(Apply(t, op).0, d) == Count(t, d) + Change(t, op, d)
  {
    hide Count, Under, Written, MadeDir, Renamed, Trashed, Restored, Resolve, WellFormed, BinSane;
    match op {
      case Write(rel, suffix, fill) => CountWritten(t, op, d);
      case Mkdir(rel) => CountMadeDir(t, rel, d);
      case Rename(src, dst) =>
        ResolveIsClean(src);
        ResolveIsClean(dst);
        CountRenamed(t, Resolve(src), Resolve(dst), d);
      case Trash(rel, id, now, sidecarOk) =>
        ResolveIsClean(rel);
        CountTrashed(t, Resolve(rel), id, now, sidecarOk, d);
      case Restore(id, stamp) => CountRestored(t, id, stamp, d);
    }
  }

  // ---------------------------------------------------------------- whole runs

  ghost predicate Runnable(t: Tree, ops: seq<Op>)
    requires Inv(t)
    decreases |ops|
  {
    ops == [] ||
    (Drawn(ops[0]) && Fresh(t, ops[0]) &&
     (ApplyKeeps(t, ops[0]); Runnable(Apply(t, ops[0]).0, ops[1..])))
  }

  ghost function Run(t: Tree, ops: seq<Op>): Tree
    requires Inv(t) && Runnable(t, ops)
    decreases |ops|
  {
    if ops == [] then t
    else
      ApplyKeeps(t, ops[0]);
      Run(Apply(t, ops[0]).0, ops[1..])
  }

  ghost function Changes(t: Tree, ops: seq<Op>, d: Data): int
    requires Inv(t) && Runnable(t, ops)
    decreases |ops|
  {
    if ops == [] then 0
    else
      ApplyKeeps(t, ops[0]);
      Change(t, ops[0], d) + Changes(Apply(t, ops[0]).0, ops[1..], d)
  }

  /** Over any run every content is held as often as before, plus what writes put in, less what
      they replaced and what deletions without a sidecar lost. */
  lemma {:induction false} RunConserves(t: Tree, ops: seq<Op>, d: Data)
    requires Inv(t) && Runnable(t, ops)
    ensures Count(Run(t, ops), d) == Count(t, d) + Changes(t, ops, d)
    decreases |ops|
  {
    hide Count, Change, Apply, WellFormed, BinSane;
    if ops != [] {
      ApplyKeeps(t, ops[0]);
      OpConserves(t, ops[0], d);
      RunConserves(Apply(t, ops[0]).0, ops[1..], d);
    }
  }

  /** A deletion keeps every content exactly when its sidecar is written or there was nothing
      to keep. */
  lemma TrashKeepsIff(t: Tree, p: Path, id: string, now: int, sidecarOk: bool)
    requires Inv(t) && Clean(p) && p != [] && !InTrash(p) && p in t
    requires !BinBlocked(t) && ValidTrashID(id) && Entry(id) !in t
    ensures (forall d: Data :: Count(Trashed(t, p, id, now, sidecarOk).0, d) == Count(t, d))
      <==> sidecarOk || forall q <- t :: p <= q ==> t[q].Dir?
  {
    hide Count, Trashed, WellFormed, BinSane, Clean, Move, RemoveAll, Render;
    TrashedIs(t, p, id, now, sidecarOk);
    forall d: Data
      ensures Count(Trashed(t, p, id, now, sidecarOk).0, d) == Count(t, d) - (if sidecarOk then 0 else Under(t, p, d))
    {
      CountTrashed(t, p, id, now, sidecarOk, d);
    }
    if q :| q in t && p <= q && t[q].File? {
      assert q[0] == p[0];
      var d := t[q].data;
      assert q in HoldersBelow(t, p, d);
      if !sidecarOk {
        assert Count(Trashed(t, p, id, now, sidecarOk).0, d) != Count(t, d);
      }
    } else {
      forall d: Data
        ensures Under(t, p, d) == 0
      {
        assert HoldersBelow(t, p, d) == {};
      }
    }
  }

  /** A file deleted without its sidecar is lost. */
  lemma SidecarLoss(id: string, now: int, d: Data)
    requires ValidTrashID(id) && (d.Sidecar? ==> ValidName(d.meta.name))
    ensures var t: Tree := map[[] := Dir, ["x"] := File(d)];
      Count(t, d) == 1 && Count(Trashed(t, ["x"], id, now, false).0, d) == 0
  {
    hide Trashed, Render;
    var t: Tree := map[[] := Dir, ["x"] := File(d)];
    assert Parent(["x"]) == [] && ["x"][0] == "x";
    TrashedIs(t, ["x"], id, now, false);
    CountTrashed(t, ["x"], id, now, false, d);
    assert Holders(t, d) == {["x"]} && HoldersBelow(t, ["x"], d) == {["x"]};
  }
}
