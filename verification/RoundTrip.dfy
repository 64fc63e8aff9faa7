/** Deleting into the bin: what Trash does to the volume, and that putting the payload back
    undoes it. */
module RoundTrip {
  import opened Common
  import opened Text
  import opened Paths
  import opened Volume
  import opened FileManager
  import opened VolumeLaws
  import opened RecycleBin

  /** The volume with an empty bin entry ready for a payload. */
  ghost function Prepared(t: Tree, id: string): Tree { t[[TRASH] := Dir][Entry(id) := Dir] }

  /** The container can put a file where the bin belongs; nothing can be deleted then. */
  predicate BinBlocked(t: Tree) { [TRASH] in t && t[[TRASH]].File? }

  ghost function Deleted(t: Tree, p: Path, id: string, now: int): Tree
    requires p != []
  {
    Move(Prepared(t, id), p, Payload(id))[Entry(id) + [META] := File(Sidecar(Meta(Leaf(p), Render(p), now)))]
  }

  lemma BinMade(t: Tree, id: string)
    requires WellFormed(t) && ValidTrashID(id) && Entry(id) !in t
    ensures MkdirAll(t, [], Entry(id)) == if BinBlocked(t) then Err(ENOTDIR) else Ok(Prepared(t, id))
  {
    assert Entry(id)[1..] == [id] && [id][1..] == [] && [] + [TRASH] == [TRASH] && [TRASH] + [id] == Entry(id);
    if [TRASH] in t {
      assert MkdirAll(t, [], Entry(id)) == MkdirAll(t, [TRASH], [id]);
      assert !BinBlocked(t) ==> MakeDirs(t, [TRASH], [id]) == t[Entry(id) := Dir] && t[[TRASH] := Dir] == t;
    } else {
      assert MakeDirs(t, [], Entry(id)) == MakeDirs(t[[TRASH] := Dir], [TRASH], [id]);
      assert MakeDirs(t[[TRASH] := Dir], [TRASH], [id]) == Prepared(t, id);
    }
  }

  lemma EntryFresh(t: Tree, p: Path, id: string)
    requires WellFormed(t) && Entry(id) !in t && p != [] && !InTrash(p)
    ensures Payload(id) !in Prepared(t, id) && Entry(id) + [META] !in Move(Prepared(t, id), p, Payload(id))
    ensures !(p <= Payload(id)) && Parent(Payload(id)) == Entry(id)
  {
    hide Move;
    var meta := Entry(id) + [META];
    NothingBelow(t, Entry(id), Payload(id));
    NothingBelow(t, Entry(id), meta);
    MoveAt(Prepared(t, id), p, Payload(id), meta);
    assert meta[2] == META && Payload(id)[2] == PAYLOAD && META[0] != PAYLOAD[0];
  }

  /** Trash succeeds exactly when the entry exists and the bin can be made; otherwise nothing
      changes. A failing sidecar loses the payload. */
  lemma TrashedIs(t: Tree, p: Path, id: string, now: int, sidecarOk: bool)
    requires Inv(t) && Clean(p) && p != [] && !InTrash(p) && ValidTrashID(id) && Entry(id) !in t
    ensures var (u, r) := Trashed(t, p, id, now, sidecarOk);
      if p !in t || BinBlocked(t) then u == t && r.Err?
      else if sidecarOk then u == Deleted(t, p, id, now) && r == Ok(())
      else u == RemoveAll(Move(Prepared(t, id), p, Payload(id)), Entry(id)) && r == Err(SidecarFailed)
  {
    hide Move, RemoveAll, Render, Clean, MkdirAll, Lstat, Renameat;
    LstatFinds(t, p);
    BinMade(t, id);
    if p in t && !BinBlocked(t) {
      EntryFresh(t, p, id);
      assert WellFormed(Prepared(t, id)) by { PreparedKeeps(t, id); }
      RenameatAllowed(Prepared(t, id), p, Payload(id));
    }
  }

  lemma PreparedKeeps(t: Tree, id: string)
    requires WellFormed(t) && ValidTrashID(id) && !BinBlocked(t) && !(Entry(id) in t && t[Entry(id)].File?)
    ensures WellFormed(Prepared(t, id))
  {
    assert Parent([TRASH]) == [] && Parent(Entry(id)) == [TRASH];
  }

  lemma BinDirKeeps(t: Tree)
    requires WellFormed(t)
    ensures WellFormed(t[[TRASH] := Dir])
  {
    assert Parent([TRASH]) == [];
  }

  lemma DeletedAt(t: Tree, p: Path, id: string, now: int, q: Path)
    requires WellFormed(t) && p != [] && !InTrash(p) && Entry(id) !in t
    ensures Payload(id) <= q ==>
      (q in Deleted(t, p, id, now) <==> p + q[|Payload(id)|..] in t)
      && (q in Deleted(t, p, id, now) ==> Deleted(t, p, id, now)[q] == t[p + q[|Payload(id)|..]])
    ensures !(Entry(id) <= q) ==>
      (q in Deleted(t, p, id, now) <==> q in t[[TRASH] := Dir] && !(p <= q))
      && (q in Deleted(t, p, id, now) ==> Deleted(t, p, id, now)[q] == t[[TRASH] := Dir][q])
  {
    hide Move, Render;
    MoveAt(Prepared(t, id), p, Payload(id), q);
    NothingBelow(t, Entry(id), q);
    if Payload(id) <= q {
      assert q[2] == PAYLOAD && q[..2] == Entry(id);
      assert InTrash(p + q[|Payload(id)|..]) ==> InTrash(p);
    }
  }

  /** Putting the payload back undoes the deletion; the emptied bin directory stays. */
  lemma PutAtUndoes(t: Tree, p: Path, id: string, now: int)
    requires WellFormed(t) && p != [] && !InTrash(p) && Entry(id) !in t
    ensures PutAt(Deleted(t, p, id, now), id, p) == t[[TRASH] := Dir]
  {
    hide PutAt, Deleted;
    var back, to := PutAt(Deleted(t, p, id, now), id, p), t[[TRASH] := Dir];
    forall q: Path
      ensures q in back <==> q in to
      ensures q in back ==> back[q] == to[q]
    {
      PutAtAt(Deleted(t, p, id, now), id, p, q);
      DeletedAt(t, p, id, now, q);
      NothingBelow(t, Entry(id), q);
      if p <= q {
        assert q[0] == p[0];
        var x := Payload(id) + q[|p|..];
        DeletedAt(t, p, id, now, x);
        assert p + x[|Payload(id)|..] == q;
      }
    }
  }

  /** Both names that get trimmed end in no white space. */
  predicate NothingToTrim(p: Path)
    requires p != []
  {
    TrimRight(Leaf(p)) == Leaf(p) && (Parent(p) != [] ==> TrimRight(Leaf(Parent(p))) == Leaf(Parent(p)))
  }

  lemma SurvivesUntrimmed(t: Tree, p: Path)
    requires WellFormed(t) && p in t && p != [] && NothingToTrim(p)
    ensures SurvivesTrimming(t, p)
  {
    hide TrimRight, Render, Resolve;
    var dir := Parent(p);
    assert Clean(p) && Clean(dir);
    RenderedResolves(dir);
    if dir != [] {
      assert dir == Parent(dir) + [Leaf(dir)] && Leaf(dir) in p;
    }
  }

  lemma SurvivesAlike(t: Tree, p: Path, id: string, now: int)
    requires WellFormed(t) && p in t && p != [] && !InTrash(p) && Entry(id) !in t
    ensures SurvivesTrimming(Deleted(t, p, id, now), p) <==> SurvivesTrimming(t[[TRASH] := Dir], p)
  {
    hide TrimRight, Render, Resolve, Deleted;
    var dir := Resolve(Render(Parent(p)));
    assert Clean(Parent(p));
    RenderedResolves(Parent(p));
    ParentOutside(p);
    if Parent(p) != [] {
      ParentOutside(Parent(p));
      Landing(Parent(p));
    }
    assert |dir| < |p| && (InTrash(dir) ==> dir == [TRASH]);
    DeletedAt(t, p, id, now, dir);
  }

  lemma DeletedInBin(t: Tree, p: Path, id: string, now: int)
    requires Inv(t) && p in t && p != [] && !InTrash(p) && ValidTrashID(id) && Entry(id) !in t && !BinBlocked(t)
    ensures var bin := Deleted(t, p, id, now);
      Inv(bin) && InBin(bin, id, p) && p !in bin && Parent(p) in bin && bin[Parent(p)].Dir?
  {
    hide Render, Move, Trashed, WellFormed;
    EntryPlaced(t, p);
    TrashedIs(t, p, id, now, true);
    TrashedKeeps(t, p, id, now, true);
    ParentOutside(p);
    assert !(p <= Parent(p));
    DeletedAt(t, p, id, now, p);
    DeletedAt(t, p, id, now, Parent(p));
    DeletedAt(t, p, id, now, Payload(id));
    assert p + Payload(id)[|Payload(id)|..] == p;
  }
}
