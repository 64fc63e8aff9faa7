/** What lies between a deletion and its restore: a bin entry outlives every run that does not
    name it, so the round trip holds whatever else happened to the volume meanwhile. */
module BinRuns {
  import opened Common
  import opened Text
  import opened Paths
  import opened Volume
  import opened FileManager
  import opened VolumeLaws
  import opened RecycleBin
  import opened RoundTrip
  import opened Conservation
  import opened Sandbox

  /** The bin entry `id` is the same in both volumes, sidecar and payload included. */
  ghost predicate SameEntry(t: Tree, u: Tree, id: string) {
    forall q: Path :: Entry(id) <= q ==> (q in t <==> q in u) && (q in t ==> t[q] == u[q])
  }

  /** The operation deletes into or restores from the entry `id`. */
  predicate Names(op: Op, id: string) { (op.Trash? || op.Restore?) && op.id == id }

  // ---------------------------------------------------------------- one operation

  lemma SameBin(t: Tree, u: Tree, id: string)
    requires Bin(t) == Bin(u)
    ensures SameEntry(t, u, id)
  {
    forall q: Path | Entry(id) <= q
      ensures (q in t <==> q in u) && (q in t ==> t[q] == u[q])
    {
      assert InTrash(q);
      assert q in t <==> q in Bin(t);
      assert q in u <==> q in Bin(u);
    }
  }

  lemma OtherEntry(id: string, other: string, q: Path)
    requires id != other && Entry(id) <= q
    ensures !(Entry(other) <= q) && InTrash(q)
  {
    assert q[1] == id;
  }

  lemma OtherRestoreKeeps(t: Tree, other: string, stamp: nat, id: string)
    requires Inv(t) && id != other
    ensures SameEntry(t, Restored(t, other, stamp).0, id)
  {
    hide Restored, Move, RemoveAll, WellFormed, BinSane, Bin;
    var made, to := RestoredCases(t, other, stamp);
    var (u, r) := Restored(t, other, stamp);
    if r.Err? {
      SameBin(t, u, id);
    } else {
      SameBin(t, made, id);
      forall q: Path | Entry(id) <= q
        ensures (q in t <==> q in u) && (q in t ==> t[q] == u[q])
      {
        OtherEntry(id, other, q);
        PutAtAt(made, other, to, q);
      }
    }
  }

  lemma OtherTrashKeeps(t: Tree, p: Path, other: string, now: int, sidecarOk: bool, id: string)
    requires Inv(t) && Clean(p) && ValidTrashID(other) && Entry(other) !in t && id != other
    ensures SameEntry(t, Trashed(t, p, other, now, sidecarOk).0, id)
  {
    hide Trashed, Deleted, Move, RemoveAll, Prepared, WellFormed, BinSane;
    if p == [] || InTrash(p) {
      TargetRefused(t, p, other, now, sidecarOk);
    } else {
      TrashedIs(t, p, other, now, sidecarOk);
      forall q: Path | Entry(id) <= q
        ensures var u := Trashed(t, p, other, now, sidecarOk).0; (q in t <==> q in u) && (q in t ==> t[q] == u[q])
      {
        OtherEntry(id, other, q);
        DeletedAt(t, p, other, now, q);
        TornDownAt(t, p, other, q);
      }
    }
  }

  /** A deletion that tears its entry down again leaves the rest of the bin alone. */
  lemma TornDownAt(t: Tree, p: Path, id: string, q: Path)
    requires p != [] && !InTrash(p) && InTrash(q) && q != [TRASH] && !(Entry(id) <= q)
    ensures var u := RemoveAll(Move(Prepared(t, id), p, Payload(id)), Entry(id));
      (q in u <==> q in t) && (q in u ==> u[q] == t[q])
  {
    hide Move;
    MoveAt(Prepared(t, id), p, Payload(id), q);
    assert Payload(id) <= q ==> Entry(id) <= q;
  }

  /** Every operation that does not name an entry leaves it as it is. */
  lemma OpKeepsEntry(t: Tree, op: Op, id: string)
    requires Inv(t) && Drawn(op) && Fresh(t, op) && !Names(op, id)
    ensures SameEntry(t, Apply(t, op).0, id)
  {
    hide Written, MadeDir, Renamed, Trashed, Restored, Resolve, WellFormed, BinSane, Bin, SameEntry;
    match op {
      case Trash(rel, other, now, sidecarOk) =>
        ResolveIsClean(rel);
        OtherTrashKeeps(t, Resolve(rel), other, now, sidecarOk, id);
      case Restore(other, stamp) => OtherRestoreKeeps(t, other, stamp, id);
      case _ =>
        BrowsingLeavesBin(t, op);
        SameBin(t, Apply(t, op).0, id);
    }
  }

  // ---------------------------------------------------------------- whole runs

  /** Over any run that does not name it, a bin entry stays exactly as it was. */
  lemma {:induction false} EntryOutlivesRun(t: Tree, ops: seq<Op>, id: string)
    requires Inv(t) && Runnable(t, ops) && forall op <- ops :: !Names(op, id)
    ensures SameEntry(t, Run(t, ops), id) && Inv(Run(t, ops))
    decreases |ops|
  {
    hide Apply, WellFormed, BinSane, Names;
    if ops != [] {
      assert ops[0] in ops;
      ApplyKeeps(t, ops[0]);
      OpKeepsEntry(t, ops[0], id);
      EntryOutlivesRun(Apply(t, ops[0]).0, ops[1..], id);
    }
  }

  /** The volume after a deletion that succeeds. */
  ghost function AfterTrash(t: Tree, p: Path, id: string, now: int): (bin: Tree)
    requires Inv(t) && p in t && p != [] && !InTrash(p) && ValidTrashID(id) && Entry(id) !in t && !BinBlocked(t)
    ensures Inv(bin)
  {
    ApplyTrash(t, p, id, now);
    Trashed(t, p, id, now, true).0
  }

  lemma ApplyTrash(t: Tree, p: Path, id: string, now: int)
    requires Inv(t) && p in t && p != [] && !InTrash(p) && ValidTrashID(id) && Entry(id) !in t && !BinBlocked(t)
    ensures Trashed(t, p, id, now, true) == (Deleted(t, p, id, now), Ok(())) && Inv(Deleted(t, p, id, now))
  {
    hide Trashed, Deleted, WellFormed, BinSane;
    EntryPlaced(t, p);
    TrashedIs(t, p, id, now, true);
    DeletedInBin(t, p, id, now);
  }

  /** `r` has at `p` exactly what `t` had there, no entry `id`, and everything else as in `u`. */
  ghost predicate PutBackFrom(t: Tree, u: Tree, r: Tree, id: string, p: Path) {
    forall q: Path ::
      if p <= q then (q in r <==> q in t) && (q in r ==> r[q] == t[q])
      else if Entry(id) <= q then q !in r
      else (q in r <==> q in u) && (q in r ==> r[q] == u[q])
  }

  /** The entry still holds what was deleted at `p`, so putting it back brings that subtree. */
  lemma PutAtFrom(t: Tree, p: Path, id: string, now: int, u: Tree, q: Path)
    requires WellFormed(t) && WellFormed(u) && p != [] && !InTrash(p) && Entry(id) !in t && p !in u
    requires SameEntry(Deleted(t, p, id, now), u, id)
    ensures var r := PutAt(u, id, p);
      if p <= q then (q in r <==> q in t) && (q in r ==> r[q] == t[q])
      else if Entry(id) <= q then q !in r
      else (q in r <==> q in u) && (q in r ==> r[q] == u[q])
  {
    hide Deleted, PutAt;
    PutAtAt(u, id, p, q);
    if p <= q {
      var x := Payload(id) + q[|p|..];
      NothingBelow(u, p, q);
      DeletedAt(t, p, id, now, x);
      assert Entry(id) <= x && p + x[|Payload(id)|..] == q;
    }
  }

  lemma PutBackFromOnly(t: Tree, p: Path, id: string, now: int, u: Tree, r: Tree)
    requires WellFormed(t) && WellFormed(u) && p != [] && !InTrash(p) && Entry(id) !in t && p !in u
    requires SameEntry(Deleted(t, p, id, now), u, id)
    ensures PutBackFrom(t, u, r, id, p) <==> r == PutAt(u, id, p)
  {
    hide Deleted, PutAt, SameEntry, WellFormed;
    forall q: Path
      ensures var w := PutAt(u, id, p);
        if p <= q then (q in w <==> q in t) && (q in w ==> w[q] == t[q])
        else if Entry(id) <= q then q !in w
        else (q in w <==> q in u) && (q in w ==> w[q] == u[q])
    {
      PutAtFrom(t, p, id, now, u, q);
    }
    if PutBackFrom(t, u, r, id, p) {
      assert forall q: Path :: q in r <==> q in PutAt(u, id, p);
    }
  }

  lemma EntryStillBinned(t: Tree, p: Path, id: string, now: int, u: Tree)
    requires Inv(t) && p in t && p != [] && !InTrash(p) && ValidTrashID(id) && Entry(id) !in t && !BinBlocked(t)
    requires SameEntry(Deleted(t, p, id, now), u, id)
    ensures InBin(u, id, p)
  {
    hide Deleted, WellFormed, BinSane;
    DeletedInBin(t, p, id, now);
    assert Entry(id) <= Payload(id) && Entry(id) <= Entry(id) + [META];
  }

  /** The round trip: whatever run lies between the deletion and the restore, as long as it does
      not name the entry and leaves the original path free and its parent a directory, restore
      puts back exactly the subtree that lay there, with every other path as the run left it and
      the entry gone, if and only if the path survives trimming. */
  lemma RoundTripOverRuns(t: Tree, p: Path, id: string, now: int, ops: seq<Op>, stamp: nat)
    requires Inv(t) && p in t && p != [] && !InTrash(p) && ValidTrashID(id) && Entry(id) !in t && !BinBlocked(t)
    requires Runnable(AfterTrash(t, p, id, now), ops) && forall op <- ops :: !Names(op, id)
    requires var u := Run(AfterTrash(t, p, id, now), ops);
      p !in u && Parent(p) in u && u[Parent(p)].Dir?
    ensures var u := Run(AfterTrash(t, p, id, now), ops);
      Inv(u) &&
      (Restored(u, id, stamp).1 == Ok(()) && PutBackFrom(t, u, Restored(u, id, stamp).0, id, p)
       <==> SurvivesTrimming(u, p))
  {
    hide Trashed, Deleted, Restored, PutAt, PutBackFrom, SurvivesTrimming, InBin, SameEntry, WellFormed, BinSane, Clean,
      Run, Runnable, Names;
    ApplyTrash(t, p, id, now);
    EntryPlaced(t, p);
    var u := Run(AfterTrash(t, p, id, now), ops);
    EntryOutlivesRun(AfterTrash(t, p, id, now), ops, id);
    EntryStillBinned(t, p, id, now, u);
    RestoreIff(u, id, p, stamp);
    PutBackFromOnly(t, p, id, now, u, Restored(u, id, stamp).0);
  }

  /** The run may be empty: Trash then RestoreTrash gives back exactly the volume, whole subtrees
      included, if and only if the path survives being written out and trimmed; names without
      trailing white space do. */
  lemma TrashThenRestore(t: Tree, p: Path, id: string, now: int, stamp: nat)
    requires Inv(t) && p in t && p != [] && !InTrash(p) && ValidTrashID(id) && Entry(id) !in t && !BinBlocked(t)
    ensures var (bin, r) := Trashed(t, p, id, now, true);
      r == Ok(()) && Inv(bin)
      && (Restored(bin, id, stamp) == (t[[TRASH] := Dir], Ok(())) <==> SurvivesTrimming(t[[TRASH] := Dir], p))
    ensures NothingToTrim(p) ==> SurvivesTrimming(t[[TRASH] := Dir], p)
  {
    hide Restored, Trashed, Deleted, SurvivesTrimming, NothingToTrim, WellFormed, BinSane, PutAt, InBin, PutBackFrom,
      SameEntry;
    ApplyTrash(t, p, id, now);
    DeletedInBin(t, p, id, now);
    var bin := AfterTrash(t, p, id, now);
    assert Runnable(bin, []) && Run(bin, []) == bin;
    RoundTripOverRuns(t, p, id, now, [], stamp);
    EntryOutlivesRun(bin, [], id);
    PutBackFromOnly(t, p, id, now, bin, Restored(bin, id, stamp).0);
    PutAtUndoes(t, p, id, now);
    SurvivesAlike(t, p, id, now);
    if NothingToTrim(p) {
      BinDirKeeps(t);
      SurvivesUntrimmed(t[[TRASH] := Dir], p);
    }
  }

  // ---------------------------------------------------------------- a restore that goes astray

  /** A volume whose directory name ends in a blank, as two requests make it. */
  ghost function Blank(): Tree {
    map[[] := Dir, ["dir "] := Dir, ["dir ", "y"] := Dir, ["dir ", "x"] := File(Bytes("a"))]
  }

  lemma TwoPieces(a: string, b: string)
    requires ValidName(a) && ValidName(b) && Trimmed(a + "/" + b)
    ensures Parts(a + "/" + b) == [a, b] && Resolve(a + "/" + b) == [a, b]
  {
    hide Split, TrimSpace;
    TrimSpaceTrims(a + "/" + b);
    assert a + "/" + b == a + ['/'] + b;
    SplitPiece(a, b, '/');
    SplitPiece(b, "", '/');
    assert [a] + [b] == [a, b];
    CleanFixed([], [a, b]);
    assert [] + [a, b] == [a, b];
  }

  lemma BlankIsReached()
    ensures var ops := [Op.Mkdir("dir /y"), Op.Write("dir /x", "0", Fill("a", true))];
      var start: Tree := map[[] := Dir];
      Inv(start) && Runnable(start, ops) && Run(start, ops) == Blank()
  {
    hide Resolve, Parts;
    var mkdir, write := Op.Mkdir("dir /y"), Op.Write("dir /x", "0", Fill("a", true));
    var start: Tree := map[[] := Dir];
    var made: Tree := map[[] := Dir, ["dir "] := Dir, ["dir ", "y"] := Dir];
    assert "dir " + "/" + "y" == "dir /y" && "dir " + "/" + "x" == "dir /x";
    TwoPieces("dir ", "y");
    TwoPieces("dir ", "x");
    MkdirTwo(start, "dir ", "y");
    assert start[["dir "] := Dir][["dir ", "y"] := Dir] == made;
    assert Apply(start, mkdir) == (made, Ok(()));
    ApplyKeeps(start, mkdir);
    LstatFinds(made, ["dir "]);
    assert Parent(["dir ", "x"]) == ["dir "] && ["dir "] + [TMP_PREFIX + "0"] !in made by {
      assert (TMP_PREFIX + "0")[0] == '.' && "y"[0] == 'y';
    }
    assert made[["dir ", "x"] := File(Bytes("a"))] == Blank();
    assert Apply(made, write) == (Blank(), Ok(()));
    ApplyKeeps(made, write);
    var ops := [mkdir, write];
    assert ops[1..] == [write] && [write][1..] == [];
  }

  lemma MkdirTwo(t: Tree, a: string, b: string)
    requires [] in t && t[[]].Dir? && [a] !in t && ValidName(a) && ValidName(b)
    ensures MkdirAll(t, [], [a, b]) == Ok(t[[a] := Dir][[a, b] := Dir])
  {
    assert [a, b][1..] == [b] && [b][1..] == [] && [] + [a] == [a] && [a] + [b] == [a, b];
    assert MakeDirs(t, [], [a, b]) == MakeDirs(t[[a] := Dir], [a], [b]);
    assert MakeDirs(t[[a] := Dir], [a], [b]) == t[[a] := Dir][[a, b] := Dir];
  }

  lemma BlankKept()
    ensures Inv(Blank())
  {
    assert Parent(["dir "]) == [] && Parent(["dir ", "y"]) == ["dir "] && Parent(["dir ", "x"]) == ["dir "];
  }

  lemma BlankTrims()
    ensures Resolve(Render(["dir "])) == ["dir"]
  {
    hide Resolve, Render;
    assert Parent(["dir "]) == [] && Leaf(["dir "]) == "dir ";
    assert "dir "[..3] == "dir" && TrimRight("dir ") == TrimRight("dir") == "dir";
    RenderedResolves(["dir "]);
    assert [] + ["dir"] == ["dir"];
  }

  lemma BlankStrays()
    ensures !SurvivesTrimming(Blank()[[TRASH] := Dir], ["dir ", "x"])
  {
    hide Resolve, Render, TrimRight;
    assert Parent(["dir ", "x"]) == ["dir "];
    BlankTrims();
    assert |"dir"| != |"dir "| && |TRASH| != |"dir"|;
    assert ["dir"] != ["dir "] && ["dir"] != [TRASH];
  }

  /** There the round trip fails: restore looks for `/dir`, without the blank. */
  lemma RestoreGoesAstray(id: string, now: int, stamp: nat)
    requires ValidTrashID(id)
    ensures var (bin, r) := Trashed(Blank(), ["dir ", "x"], id, now, true);
      Inv(Blank()) && r == Ok(()) && Inv(bin) && Restored(bin, id, stamp) != (Blank()[[TRASH] := Dir], Ok(()))
  {
    hide Trashed, Restored, SurvivesTrimming, Inv, NothingToTrim;
    BlankKept();
    BlankStrays();
    assert ["dir ", "x"][0] == "dir " && |TRASH| != |"dir "|;
    assert !BinBlocked(Blank()) && Entry(id) !in Blank() by {
      assert Entry(id)[0] == TRASH && [TRASH][0] == TRASH;
    }
    TrashThenRestore(Blank(), ["dir ", "x"], id, now, stamp);
  }
}
