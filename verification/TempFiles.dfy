/** A temporary file beside its target: what dropping it and renaming it over the target do. */
module TempFiles {
  import opened Common
  import opened Paths
  import opened Volume

  /** Unlinking a file takes away that entry alone. */
  lemma FileAlone(t: Tree, at: Path)
    requires WellFormed(t) && at in t && t[at].File?
    ensures RemoveAll(t, at) == t - {at} && WellFormed(t - {at})
  {
    forall q | q in t && at <= q
      ensures q == at
    {
      PrefixIn(t, at, q);
    }
    RemoveKeeps(t, at);
  }

  lemma TmpMoved(t: Tree, at: Path, p: Path, n: Node)
    requires WellFormed(t) && at !in t && |at| == |p| && at != p
    requires forall q <- t :: !(p < q)
    ensures Move(t[at := n], at, p) == t[p := n]
  {
    var full, to := t[at := n], t[p := n];
    var u := Move(full, at, p);
    forall q
      ensures q in u <==> q in to
      ensures q in u ==> u[q] == to[q]
    {
      hide Move;
      MoveAt(full, at, p, q);
      NothingBelow(t, at, q);
      if p <= q {
        NothingBelow(t, at, at + q[|p|..]);
        assert at + q[|p|..] == at <==> q == p;
      }
    }
  }

  lemma TmpPlaced(t: Tree, p: Path, tmp: string, n: Node)
    requires WellFormed(t) && Clean(p) && p != [] && Parent(p) in t && t[Parent(p)].Dir?
    requires Parent(p) + [tmp] !in t && ValidName(tmp)
    ensures WellFormed(t[Parent(p) + [tmp] := n])
  {
    var at := Parent(p) + [tmp];
    assert Parent(at) == Parent(p) && Leaf(at) == tmp;
  }

  /** Renaming it over the target makes the write; only a directory there stops it. */
  lemma TmpCommitted(t: Tree, p: Path, tmp: string, n: Node)
    requires WellFormed(t) && Clean(p) && p != [] && Parent(p) in t && t[Parent(p)].Dir?
    requires Parent(p) + [tmp] !in t && ValidName(tmp) && n.File?
    ensures Renameat(t[Parent(p) + [tmp] := n], Parent(p) + [tmp], p, false) ==
            (if p in t && t[p].Dir? then Err(EISDIR) else Ok(t[p := n]))
  {
    hide Move, Lstat, Clean;
    var at := Parent(p) + [tmp];
    assert p == Parent(p) + [Leaf(p)];
    TmpPlaced(t, p, tmp, n);
    LstatFinds(t[at := n], Parent(p));
    if p != at && !(p in t && t[p].Dir?) {
      forall q | q in t
        ensures !(p < q)
      {
        if p < q {
          PrefixIn(t, p, q);
        }
      }
      TmpMoved(t, at, p, n);
    }
  }
}
