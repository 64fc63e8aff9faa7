/** What every operation of the file manager keeps: a well-formed tree whose sidecars name entries. */
module VolumeLaws {
  import opened Common
  import opened Text
  import opened Paths
  import opened Volume
  import opened FileManager

  /** The operations that change a volume, with the random names they draw. */
  datatype Op =
    | Write(rel: string, suffix: string, fill: Fill)
    | Mkdir(rel: string)
    | Rename(src: string, dst: string)
    | Trash(rel: string, id: string, now: int, sidecarOk: bool)
    | Restore(id: string, stamp: nat)

  ghost predicate Inv(t: Tree) { WellFormed(t) && BinSane(t) }

  /** Random names are single components, and bin ids start and end with digits. */
  predicate Drawn(op: Op) {
    match op
    case Write(_, suffix, _) => '/' !in suffix
    case Trash(_, id, _, _) => ValidTrashID(id) && Trimmed(id)
    case _ => true
  }

  ghost function Apply(t: Tree, op: Op): (Tree, Outcome<()>)
    requires BinSane(t)
  {
    match op
    case Write(rel, suffix, fill) => Written(t, Resolve(rel), TMP_PREFIX + suffix, fill)
    case Mkdir(rel) => MadeDir(t, rel)
    case Rename(src, dst) => Renamed(t, Resolve(src), Resolve(dst))
    case Trash(rel, id, now, sidecarOk) => Trashed(t, Resolve(rel), id, now, sidecarOk)
    case Restore(id, stamp) => Restored(t, id, stamp)
  }

  // ---------------------------------------------------------------- system calls

  /** When a rename goes through, and what it does. */
  lemma RenameatMoves(t: Tree, src: Path, dst: Path, noReplace: bool)
    requires WellFormed(t) && src != [] && dst != [] && Renameat(t, src, dst, noReplace).Ok?
    ensures var u := Renameat(t, src, dst, noReplace).value;
      && src in t && Parent(dst) in t && t[Parent(dst)].Dir?
      && (noReplace ==> dst !in t)
      && (if src == dst then u == t else !(src <= dst) && u == Move(t, src, dst))
      && (dst in t && src != dst ==> (t[src].Dir? <==> t[dst].Dir?))
      && (dst in t && src != dst ==> t[dst].File? || forall q <- t :: !(dst < q))
  {
    hide Move;
    LstatFinds(t, Parent(dst));
  }

  /** A move onto a free name in a directory is never refused. */
  lemma RenameatAllowed(t: Tree, src: Path, dst: Path)
    requires WellFormed(t) && src in t && src != [] && dst != [] && dst !in t && !(src <= dst)
    requires Parent(dst) in t && t[Parent(dst)].Dir?
    ensures Renameat(t, src, dst, true) == Ok(Move(t, src, dst))
  {
    hide Move;
    LstatFinds(t, Parent(src));
    LstatFinds(t, Parent(dst));
  }

  lemma InvMoved(t: Tree, src: Path, dst: Path, noReplace: bool)
    requires Inv(t) && src != [] && dst != [] && ValidName(Leaf(dst)) && Renameat(t, src, dst, noReplace).Ok?
    ensures Inv(Renameat(t, src, dst, noReplace).value)
  {
    hide Move, Renameat, WellFormed;
    RenameatMoves(t, src, dst, noReplace);
    if src != dst {
      MoveKeeps(t, src, dst);
      forall q | q in Move(t, src, dst)
        ensures exists p <- t :: t[p] == Move(t, src, dst)[q]
      {
        MoveAt(t, src, dst, q);
      }
    }
  }

  lemma InvMkdirAll(t: Tree, parts: seq<string>)
    requires Inv(t) && MkdirAll(t, [], parts).Ok? && forall x <- parts :: '/' !in x
    ensures Inv(MkdirAll(t, [], parts).value)
  {
    hide WellFormed, MkdirAll;
    MkdirAllKeeps(t, [], parts);
    MkdirAllAdds(t, [], parts);
  }

  lemma InvRemoved(t: Tree, top: Path)
    requires Inv(t) && top != []
    ensures Inv(RemoveAll(t, top))
  {
    RemoveKeeps(t, top);
  }

  lemma InvFile(t: Tree, p: Path, d: Data)
    requires Inv(t) && Clean(p) && p != [] && Parent(p) in t && t[Parent(p)].Dir?
    requires !(p in t && t[p].Dir?) && (d.Sidecar? ==> ValidName(d.meta.name))
    ensures Inv(t[p := File(d)])
  {
  }

  // ---------------------------------------------------------------- operations

  lemma WrittenKeeps(t: Tree, p: Path, tmp: string, fill: Fill)
    requires Inv(t) && Clean(p)
    ensures Inv(Written(t, p, tmp, fill).0)
  {
    hide WellFormed, BinSane, InTrash, Lstat;
    if Written(t, p, tmp, fill).0 != t {
      LstatFinds(t, Parent(p));
      InvFile(t, p, Bytes(fill.written));
    }
  }

  lemma PartsHaveNoSlash(rel: string)
    ensures forall x <- Parts(rel) :: '/' !in x
  {
  }

  lemma MadeDirKeeps(t: Tree, rel: string)
    requires Inv(t)
    ensures Inv(MadeDir(t, rel).0)
  {
    hide Inv, Resolve, Parts, MkdirAll;
    PartsHaveNoSlash(rel);
    if MkdirAll(t, [], Parts(rel)).Ok? {
      InvMkdirAll(t, Parts(rel));
    }
  }

  lemma RenamedKeeps(t: Tree, src: Path, dst: Path)
    requires Inv(t) && Clean(src) && Clean(dst)
    ensures Inv(Renamed(t, src, dst).0)
  {
    hide Inv, InTrash, Lstat, Renameat;
    if src != [] && dst != [] && Renameat(t, src, dst, true).Ok? {
      assert Leaf(dst) in dst;
      InvMoved(t, src, dst, true);
    }
  }

  lemma BinnedKeeps(t: Tree, p: Path, id: string, now: int, sidecarOk: bool)
    requires Inv(t) && Clean(p) && p != [] && ValidTrashID(id)
    ensures Inv(Binned(t, p, id, now, sidecarOk).0)
  {
    hide Renameat, Move, WellFormed, BinSane, RemoveAll, Render;
    InvRemoved(t, Entry(id));
    var to := Entry(id) + [PAYLOAD];
    assert Leaf(p) in p;
    if Renameat(t, p, to, true).Ok? {
      var u := Renameat(t, p, to, true).value;
      InvMoved(t, p, to, true);
      InvRemoved(u, Entry(id));
      assert to in u by { RenameatMoves(t, p, to, true); MoveAt(t, p, to, to); assert p + to[|to|..] == p; }
      assert Parent(to) == Entry(id) && Parent(Entry(id) + [META]) == Entry(id);
      assert u[Entry(id)].Dir? by { PrefixIn(u, Entry(id), to); }
      if !(Entry(id) + [META] in u && u[Entry(id) + [META]].Dir?) {
        InvFile(u, Entry(id) + [META], Sidecar(Meta(Leaf(p), Render(p), now)));
      }
    }
  }

  lemma TrashedKeeps(t: Tree, p: Path, id: string, now: int, sidecarOk: bool)
    requires Inv(t) && Clean(p) && ValidTrashID(id)
    ensures Inv(Trashed(t, p, id, now, sidecarOk).0)
  {
    hide Inv, InTrash, Lstat, MkdirAll, Binned, Clean;
    if p != [] && MkdirAll(t, [], Entry(id)).Ok? {
      InvMkdirAll(t, Entry(id));
      BinnedKeeps(MkdirAll(t, [], Entry(id)).value, p, id, now, sidecarOk);
    }
  }

  lemma PutBackKeeps(t: Tree, id: string, dst: Path)
    requires Inv(t) && dst != []
    ensures Inv(PutBack(t, id, dst).0)
  {
    hide Inv, MkdirAll, Renameat, Resolve, Parts, Render, RemoveAll;
    var made, to := MkdirAll(t, [], Parts(Render(Parent(dst)))), Resolve(Render(dst));
    PartsHaveNoSlash(Render(Parent(dst)));
    if made.Ok? {
      InvMkdirAll(t, Parts(Render(Parent(dst))));
      ResolveIsClean(Render(dst));
      if to != [] && Renameat(made.value, Entry(id) + [PAYLOAD], to, true).Ok? {
        assert Leaf(to) in to;
        InvMoved(made.value, Entry(id) + [PAYLOAD], to, true);
        InvRemoved(Renameat(made.value, Entry(id) + [PAYLOAD], to, true).value, Entry(id));
      }
    }
  }

  lemma RestoredKeeps(t: Tree, id: string, stamp: nat)
    requires Inv(t)
    ensures Inv(Restored(t, id, stamp).0)
  {
    hide PutBack, NonConflicting, Original, ReadMeta, WellFormed, BinSane;
    if ValidTrashID(id) {
      PutBackKeeps(t, id, NonConflicting(t, Original(ReadMeta(t, id)), stamp));
    }
  }

  /** Every operation keeps the volume well-formed and the bin sane, on every input. */
  lemma ApplyKeeps(t: Tree, op: Op)
    requires Inv(t) && Drawn(op)
    ensures Inv(Apply(t, op).0)
  {
    hide Written, MadeDir, Renamed, Trashed, Restored, Resolve, WellFormed, BinSane;
    match op {
      case Write(rel, suffix, fill) =>
        ResolveIsClean(rel);
        WrittenKeeps(t, Resolve(rel), TMP_PREFIX + suffix, fill);
      case Mkdir(rel) => MadeDirKeeps(t, rel);
      case Rename(src, dst) =>
        ResolveIsClean(src);
        ResolveIsClean(dst);
        RenamedKeeps(t, Resolve(src), Resolve(dst));
      case Trash(rel, id, now, sidecarOk) =>
        ResolveIsClean(rel);
        TrashedKeeps(t, Resolve(rel), id, now, sidecarOk);
      case Restore(id, stamp) => RestoredKeeps(t, id, stamp);
    }
  }
}
