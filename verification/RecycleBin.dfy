/** The recycle bin round trip. Restore writes the original path out as text and resolves it
    again, trimming it each time, so it lands exactly where the entry was deleted from only when
    the last two names of that path survive the trimming. */
module RecycleBin {
  import opened Common
  import opened Text
  import opened Paths
  import opened Volume
  import opened FileManager
  import opened VolumeLaws

  // ---------------------------------------------------------------- paths through text

  lemma TrimSlashed(p: Path)
    requires p != []
    ensures TrimSpace(Slashed(p)) == Slashed(Parent(p)) + "/" + TrimRight(Leaf(p))
  {
    hide TrimRight;
    SlashedStarts(p);
    TrimRightAfter(Slashed(Parent(p)) + "/", Leaf(p));
  }

  /** What a restored path's text splits into: its components, the last one trimmed. */
  lemma RenderedParts(p: Path)
    requires Clean(p)
    ensures Parts(Render(p)) == if p == [] then ["", ""] else [""] + Parent(p) + [TrimRight(Leaf(p))]
  {
    hide Split, TrimRight, TrimLeft, TrimSpace, Slashed;
    if p == [] {
      TrimSpaceTrims("/");
      SplitRooted("");
      SplitPiece("", "", '/');
      assert "/" + "" == "/";
    } else {
      TrimSlashed(p);
      assert Leaf(p) in p;
      SplitSlashed(Parent(p));
      TrimRightIs(Leaf(p));
      SplitLast(Slashed(Parent(p)), TrimRight(Leaf(p)));
    }
  }

  /** Where writing a path out and resolving it again leads. */
  lemma RenderedResolves(p: Path)
    requires Clean(p)
    ensures Resolve(Render(p)) == if p == [] then [] else Step(Parent(p), TrimRight(Leaf(p)))
  {
    hide Split, TrimRight, Step, Render, TrimSpace;
    RenderedParts(p);
    if p == [] {
      assert ["", ""][1..] == [""] && [""][1..] == [];
      StepNothing([]);
    } else {
      var n := TrimRight(Leaf(p));
      CleanConcat([], [""] + Parent(p), [n]);
      assert ([""] + Parent(p))[1..] == Parent(p) && [n][1..] == [];
      StepNothing([]);
      CleanFixed([], Parent(p));
      assert [] + Parent(p) == Parent(p);
    }
  }

  /** Walking down directories that exist creates nothing. */
  lemma {:induction false} MkdirWalks(t: Tree, cur: Path, down: Path, rest: seq<string>)
    requires WellFormed(t) && cur + down in t && t[cur + down].Dir? && Clean(down)
    ensures MkdirAll(t, cur, down + rest) == MkdirAll(t, cur + down, rest)
    decreases |down|
  {
    if down == [] {
      assert cur + down == cur && down + rest == rest;
    } else {
      var next := cur + [down[0]];
      assert down[0] in down && next + down[1..] == cur + down && (down + rest)[1..] == down[1..] + rest;
      PrefixIn(t, cur, cur + down);
      PrefixIn(t, next, cur + down);
      MkdirWalks(t, next, down[1..], rest);
    }
  }

  lemma MkdirLast(t: Tree, cur: Path, n: string)
    requires cur in t && t[cur].Dir?
    ensures var r, at := MkdirAll(t, cur, [n]), Step(cur, n);
      (r == Ok(t) <==> at in t && t[at].Dir?) && (r.Ok? && r.value != t ==> at !in t && at in r.value)
  {
    assert [n][1..] == [];
    if Step(cur, n) !in t {
      assert n in [n];
      if n != ".." {
        assert MakeDirs(t, cur, [n]) == t[cur + [n] := Dir];
      }
    }
  }

  lemma RenderedMkdir(t: Tree, p: Path)
    requires WellFormed(t) && p in t && t[p].Dir?
    ensures MkdirAll(t, [], Parts(Render(p))) ==
            if p == [] then Ok(t) else MkdirAll(t, Parent(p), [TrimRight(Leaf(p))])
  {
    hide Parts, Resolve, Render, TrimRight, WellFormed;
    EntryPlaced(t, p);
    RenderedParts(p);
    if p == [] {
      assert ["", ""][1..] == [""] && [""][1..] == [];
    } else {
      var n := TrimRight(Leaf(p));
      assert ([""] + Parent(p) + [n])[1..] == Parent(p) + [n];
      assert [] + Parent(p) == Parent(p);
      MkdirWalks(t, [], Parent(p), [n]);
    }
  }

  /** Restore's mkdir of the parent does nothing exactly when the trimmed parent is a directory. */
  lemma ParentMade(t: Tree, p: Path)
    requires WellFormed(t) && p in t && t[p].Dir?
    ensures var r, at := MkdirAll(t, [], Parts(Render(p))), Resolve(Render(p));
      (r == Ok(t) <==> at in t && t[at].Dir?) && (r.Ok? && r.value != t ==> at !in t && at in r.value)
  {
    hide Parts, Resolve, Render, TrimRight, Step, MkdirAll;
    RenderedMkdir(t, p);
    RenderedResolves(p);
    if p != [] {
      var n := TrimRight(Leaf(p));
      MkdirLast(t, Parent(p), n);
    }
  }

  // ---------------------------------------------------------------- where restore may land

  lemma SuffixedClean(p: Path, suffix: string)
    requires Clean(p) && p != [] && |suffix| >= 3 && '/' !in suffix
    ensures Clean(Suffixed(p, suffix))
  {
    hide Ext;
    var n := Leaf(p);
    ExtIsSuffix(n);
    var stem, ext := n[..|n| - |Ext(n)|], n[|n| - |Ext(n)|..];
    assert n in p && n == stem + ext && '/' !in stem && '/' !in ext;
    LongName(stem, suffix, ext);
  }

  lemma LongName(stem: string, suffix: string, ext: string)
    requires |suffix| >= 3 && '/' !in stem && '/' !in suffix && '/' !in ext
    ensures ValidName(stem + suffix + ext)
  {
    assert |stem + suffix + ext| >= 3;
  }

  lemma SuffixText(i: nat)
    ensures |Suffix(i)| >= 3 && '/' !in Suffix(i) && |Numbered(i)| >= 3 && '/' !in Numbered(i)
  {
    assert '/' !in Decimal(i);
  }

  lemma {:induction false} FirstFreeClean(t: Tree, p: Path, i: nat, stamp: nat)
    requires Clean(p) && p != []
    ensures Clean(FirstFree(t, p, i, stamp))
    decreases 1000 - i
  {
    hide Suffixed, Free, Clean;
    SuffixText(i);
    SuffixText(stamp);
    SuffixedClean(p, Suffix(i));
    SuffixedClean(p, Numbered(stamp));
    if i < 1000 {
      FirstFreeClean(t, p, i + 1, stamp);
    }
  }

  lemma OriginalClean(m: Meta)
    requires ValidName(m.name)
    ensures Clean(Original(m)) && !InTrash(Parent(Original(m)))
  {
    ResolveIsClean(m.originalPath);
  }

  lemma Landing(p: Path)
    requires Clean(p) && p != [] && !InTrash(Parent(p))
    ensures var to := Resolve(Render(p));
      && (to == Parent(p) + [TrimRight(Leaf(p))] || (|to| < |p| && to <= p))
      && (InTrash(to) ==> to == [TRASH])
      && Clean(to)
  {
    hide Resolve, Render;
    RenderedResolves(p);
    ResolveIsClean(Render(p));
    assert p == Parent(p) + [Leaf(p)];
  }

  function Payload(id: string): Path { Entry(id) + [PAYLOAD] }

  /** A successful restore moves the payload to a free place outside the bin and drops the entry. */
  lemma PutBackMoves(t: Tree, id: string, dst: Path)
    requires Inv(t) && ValidTrashID(id) && Payload(id) in t
    requires Clean(dst) && dst != [] && !InTrash(Parent(dst))
    requires PutBack(t, id, dst).1.Ok?
    ensures var made, to := MkdirAll(t, [], Parts(Render(Parent(dst)))), Resolve(Render(dst));
      && made.Ok? && Inv(made.value) && (forall q <- t :: q in made.value && made.value[q] == t[q])
      && to != [] && !InTrash(to) && to !in made.value && Parent(to) in made.value
      && PutBack(t, id, dst).0 == RemoveAll(Move(made.value, Payload(id), to), Entry(id))
  {
    hide Parts, Resolve, Render, TrimRight, Move, RemoveAll, MkdirAll, Clean, Renameat;
    var parts, to := Parts(Render(Parent(dst))), Resolve(Render(dst));
    PartsHaveNoSlash(Render(Parent(dst)));
    InvMkdirAll(t, parts);
    MkdirAllAdds(t, [], parts);
    var made := MkdirAll(t, [], parts).value;
    RenameatMoves(made, Payload(id), to, true);
    Landing(dst);
    PrefixIn(t, [TRASH], Payload(id));
  }

  // ---------------------------------------------------------------- restoring, exactly

  /** The entry has a payload, and its sidecar records a deletion at `p`. */
  ghost predicate InBin(t: Tree, id: string, p: Path)
    requires p != []
  {
    && Payload(id) in t && Entry(id) + [META] in t && t[Entry(id) + [META]].File?
    && var d := t[Entry(id) + [META]].data;
      d.Sidecar? && d.meta.name == Leaf(p) && d.meta.originalPath == Render(p)
  }

  /** The payload's subtree at `p` and the entry gone; nothing else different. */
  ghost function PutAt(t: Tree, id: string, p: Path): Tree { RemoveAll(Move(t, Payload(id), p), Entry(id)) }

  /** The last name ends in no white space, and the parent, trimmed, is still a directory. */
  ghost predicate SurvivesTrimming(t: Tree, p: Path)
    requires p != []
  {
    && TrimRight(Leaf(p)) == Leaf(p)
    && var dir := Resolve(Render(Parent(p)));
      dir in t && t[dir].Dir?
  }

  lemma PutAtAt(t: Tree, id: string, p: Path, q: Path)
    requires p != [] && !InTrash(p)
    ensures q in PutAt(t, id, p) <==>
      (p <= q && Payload(id) + q[|p|..] in t) || (q in t && !(Entry(id) <= q))
    ensures q in PutAt(t, id, p) ==>
      PutAt(t, id, p)[q] == (if p <= q && Payload(id) + q[|p|..] in t then t[Payload(id) + q[|p|..]] else t[q])
  {
    hide Move;
    MoveAt(t, Payload(id), p, q);
    if p <= q {
      assert q[0] == p[0];
    }
    if Payload(id) <= q {
      assert q[..2] == Payload(id)[..2];
    }
  }

  lemma FreeIn(t: Tree, p: Path)
    requires WellFormed(t) && p != [] && p !in t && Parent(p) in t && t[Parent(p)].Dir?
    ensures Free(t, p)
  {
    LstatFinds(t, Parent(p));
  }

  lemma ParentOutside(p: Path)
    requires p != [] && !InTrash(p)
    ensures !InTrash(Parent(p))
  {
  }

  /** The original path as the sidecar gives it back: the first of the two trimmings. */
  lemma OriginalOf(t: Tree, id: string, p: Path)
    requires Inv(t) && ValidTrashID(id) && p != [] && Clean(p) && InBin(t, id, p) && !InTrash(p)
    ensures var o := Original(ReadMeta(t, id));
      Clean(o) && !InTrash(Parent(o)) && |o| <= |p| && (TrimRight(Leaf(p)) == Leaf(p) ==> o == p)
  {
    hide Resolve, Render, TrimRight, WellFormed, Clean;
    OriginalClean(ReadMeta(t, id));
    ParentOutside(p);
    Landing(p);
    RenderedResolves(p);
    CleanLeaf(p);
  }

  lemma RestoreTargets(t: Tree, id: string, p: Path, stamp: nat)
    requires Inv(t) && ValidTrashID(id) && p != [] && Clean(p) && InBin(t, id, p) && !InTrash(p)
    ensures Restored(t, id, stamp) == PutBack(t, id, NonConflicting(t, Original(ReadMeta(t, id)), stamp))
    ensures var dst := NonConflicting(t, Original(ReadMeta(t, id)), stamp);
      Clean(dst) && !InTrash(Parent(dst)) && |dst| <= |p|
    ensures TrimRight(Leaf(p)) == Leaf(p) && Free(t, p) ==> NonConflicting(t, Original(ReadMeta(t, id)), stamp) == p
  {
    hide PutBack, Original, InTrash, TrimRight, WellFormed, BinSane, Clean, Free;
    LstatFinds(t, Payload(id));
    OriginalOf(t, id, p);
    FirstFreeClean(t, Original(ReadMeta(t, id)), 1, stamp);
  }

  /** Putting the payload back at a path that survives trimming: there, or nowhere. */
  lemma PutBackExactly(t: Tree, id: string, q: Path)
    requires Inv(t) && ValidTrashID(id) && Payload(id) in t && q != [] && Clean(q) && !InTrash(q)
    requires Parent(q) in t && t[Parent(q)].Dir? && SurvivesTrimming(t, q)
    ensures PutBack(t, id, q) == if q in t then (t, Err(System(EEXIST))) else (PutAt(t, id, q), Ok(()))
  {
    hide Resolve, Render, TrimRight, WellFormed, BinSane, Clean, Parts, MkdirAll, Move, RemoveAll, Lstat;
    ParentMade(t, Parent(q));
    RenderedResolves(q);
    CleanLeaf(q);
    EntryPlaced(t, Payload(id));
    LstatFinds(t, Entry(id));
    LstatFinds(t, Parent(q));
    assert !(Payload(id) <= q) && Parent(Payload(id)) == Entry(id);
    if q !in t {
      RenameatAllowed(t, Payload(id), q);
    }
  }

  lemma RestoreWorks(t: Tree, id: string, p: Path, stamp: nat)
    requires Inv(t) && ValidTrashID(id) && p != [] && Clean(p) && InBin(t, id, p) && !InTrash(p)
    requires p !in t && Parent(p) in t && t[Parent(p)].Dir? && SurvivesTrimming(t, p)
    ensures Restored(t, id, stamp) == (PutAt(t, id, p), Ok(()))
  {
    hide Resolve, Render, TrimRight, WellFormed, BinSane, Clean, PutBack, NonConflicting, Lstat, Restored, PutAt;
    FreeIn(t, p);
    RestoreTargets(t, id, p, stamp);
    PutBackExactly(t, id, p);
  }

  lemma RestoreStrays(t: Tree, id: string, p: Path, stamp: nat)
    requires Inv(t) && ValidTrashID(id) && p != [] && Clean(p) && InBin(t, id, p) && !InTrash(p)
    requires p !in t && Parent(p) in t && t[Parent(p)].Dir? && TrimRight(Leaf(p)) != Leaf(p)
    ensures Restored(t, id, stamp) != (PutAt(t, id, p), Ok(()))
  {
    hide Resolve, Render, WellFormed, BinSane, Clean, Parts, MkdirAll, Move, RemoveAll, NonConflicting, Lstat,
      Restored, PutBack, PutAt;
    RestoreTargets(t, id, p, stamp);
    var dst := NonConflicting(t, Original(ReadMeta(t, id)), stamp);
    if PutBack(t, id, dst).1.Ok? {
      PutBackMoves(t, id, dst);
      Landing(dst);
      var made, to := MkdirAll(t, [], Parts(Render(Parent(dst)))).value, Resolve(Render(dst));
      TrimRightIs(Leaf(dst));
      assert to != p;
      Landed(made, id, to);
      PutAtAt(t, id, p, to);
    }
  }

  lemma Landed(t: Tree, id: string, to: Path)
    requires Payload(id) in t && to != [] && !InTrash(to)
    ensures to in RemoveAll(Move(t, Payload(id), to), Entry(id))
  {
    PutAtAt(t, id, to, to);
    assert Payload(id) + to[|to|..] == Payload(id);
  }

  lemma RestoreMakesStrays(t: Tree, id: string, p: Path, stamp: nat)
    requires Inv(t) && ValidTrashID(id) && p != [] && Clean(p) && InBin(t, id, p) && !InTrash(p)
    requires p !in t && Parent(p) in t && t[Parent(p)].Dir?
    requires TrimRight(Leaf(p)) == Leaf(p) && !SurvivesTrimming(t, p)
    ensures Restored(t, id, stamp) != (PutAt(t, id, p), Ok(()))
  {
    hide Resolve, Render, TrimRight, WellFormed, BinSane, Clean, Parts, MkdirAll, Move, RemoveAll, NonConflicting,
      Lstat, Restored, PutBack;
    FreeIn(t, p);
    RestoreTargets(t, id, p, stamp);
    if PutBack(t, id, p).1.Ok? {
      PutBackMoves(t, id, p);
      RenderedResolves(p);
      CleanLeaf(p);
      ParentMade(t, Parent(p));
      var made, stray := MkdirAll(t, [], Parts(Render(Parent(p)))).value, Resolve(Render(Parent(p)));
      ParentOutside(p);
      StrayOutside(t, id, Parent(p));
      PutAtAt(made, id, p, stray);
      PutAtAt(t, id, p, stray);
    }
  }

  lemma StrayOutside(t: Tree, id: string, dir: Path)
    requires WellFormed(t) && Payload(id) in t && Clean(dir) && !InTrash(dir)
    ensures var stray := Resolve(Render(dir)); stray !in t ==> !InTrash(stray) && |stray| <= |dir|
  {
    hide Resolve, Render, TrimRight;
    RenderedResolves(dir);
    PrefixIn(t, [TRASH], Payload(id));
    PrefixIn(t, [], Payload(id));
    if dir != [] {
      ParentOutside(dir);
      Landing(dir);
    }
  }

  /** Restoring puts the payload, whatever the entry holds, exactly at the recorded path and drops
      the entry, if and only if that path survives being written out and trimmed. */
  lemma RestoreIff(t: Tree, id: string, p: Path, stamp: nat)
    requires Inv(t) && ValidTrashID(id) && p != [] && Clean(p) && InBin(t, id, p) && !InTrash(p)
    requires p !in t && Parent(p) in t && t[Parent(p)].Dir?
    ensures Restored(t, id, stamp) == (PutAt(t, id, p), Ok(())) <==> SurvivesTrimming(t, p)
  {
    hide Restored, PutAt, Inv, InBin;
    if SurvivesTrimming(t, p) {
      RestoreWorks(t, id, p, stamp);
    } else if TrimRight(Leaf(p)) == Leaf(p) {
      RestoreMakesStrays(t, id, p, stamp);
    } else {
      RestoreStrays(t, id, p, stamp);
    }
  }

  // ---------------------------------------------------------------- when the place is taken

  /** The first free numbered name, or the stamped one when all are taken. */
  ghost predicate FirstFreeName(t: Tree, p: Path, i: nat, k: nat, stamp: nat, q: Path)
    requires p != []
  {
    && (forall j :: i <= j < k ==> !Free(t, Suffixed(p, Suffix(j))))
    && (if k < 1000 then q == Suffixed(p, Suffix(k)) && Free(t, q) else q == Suffixed(p, Numbered(stamp)))
  }

  lemma {:induction false} FirstFreeFound(t: Tree, p: Path, i: nat, stamp: nat) returns (k: nat)
    requires p != [] && i <= 1000
    ensures i <= k <= 1000 && FirstFreeName(t, p, i, k, stamp, FirstFree(t, p, i, stamp))
    decreases 1000 - i
  {
    hide Free, Suffixed, Suffix, Numbered;
    if i == 1000 || Free(t, Suffixed(p, Suffix(i))) {
      k := i;
    } else {
      k := FirstFreeFound(t, p, i + 1, stamp);
    }
  }

  lemma SuffixEnds(i: nat)
    ensures Suffix(i)[|Suffix(i)| - 1] == ')' && Numbered(i)[|Numbered(i)| - 1] == ')'
  {
  }

  lemma TrimRightKeeps(s: string)
    requires s != ""
    ensures TrimRight(s) == s <==> !IsSpace(s[|s| - 1])
  {
    TrimRightIs(s);
  }

  /** A suffixed name ends as the name did, or in the suffix. */
  lemma SuffixedSurvives(t: Tree, p: Path, suffix: string)
    requires p != [] && Clean(p) && SurvivesTrimming(t, p) && |suffix| >= 3 && suffix[|suffix| - 1] == ')'
    ensures SurvivesTrimming(t, Suffixed(p, suffix)) && Suffixed(p, suffix) != p && ')' in Leaf(Suffixed(p, suffix))
  {
    hide Ext, TrimRight, IsSpace, Resolve, Render;
    var n := Leaf(p);
    var stem, ext := n[..|n| - |Ext(n)|], Ext(n);
    ExtIsSuffix(n);
    CleanLeaf(p);
    TrimRightKeeps(n);
    var m := stem + suffix + ext;
    assert m[|m| - 1] == if ext == "" then ')' else n[|n| - 1];
    assert m[|stem| + |suffix| - 1] == ')' && |m| > |n|;
    NotSpace();
    TrimRightKeeps(m);
  }

  lemma NotSpace()
    ensures !IsSpace(')')
  {
  }

  lemma {:induction false} ExtSkips(s: string, t: string)
    requires '.' !in t && '/' !in t
    ensures Ext(s + t) == if Ext(s) == "" then "" else Ext(s) + t
    decreases |t|
  {
    hide Ext;
    if t == "" {
      assert s + t == s && Ext(s) + t == Ext(s);
    } else {
      var init, c := t[..|t| - 1], t[|t| - 1];
      assert t == init + [c] && c in t;
      ExtSkips(s, init);
      assert s + t == s + init + [c] && Ext(s) + t == Ext(s) + init + [c];
      ExtOneMore(s + init, c);
    }
  }

  lemma ExtOneMore(s: string, c: char)
    requires c != '.' && c != '/'
    ensures Ext(s + [c]) == if Ext(s) == "" then "" else Ext(s) + [c]
  {
    assert (s + [c])[..|s|] == s;
  }

  lemma {:induction false} ExtShape(s: string)
    requires '/' !in s && Ext(s) != ""
    ensures Ext(s)[0] == '.' && '.' !in Ext(s)[1..]
    decreases |s|
  {
    if s[|s| - 1] != '.' {
      var e := Ext(s[..|s| - 1]);
      ExtShape(s[..|s| - 1]);
      assert (e + [s[|s| - 1]])[1..] == e[1..] + [s[|s| - 1]];
    }
  }

  /** The suffixed name has the extension of the original. */
  lemma SuffixedKeepsExt(p: Path, suffix: string)
    requires p != [] && Clean(p) && '.' !in suffix && '/' !in suffix
    ensures Ext(Leaf(Suffixed(p, suffix))) == Ext(Leaf(p))
  {
    hide Ext;
    var n := Leaf(p);
    var stem, ext := n[..|n| - |Ext(n)|], Ext(n);
    CleanLeaf(p);
    ExtIsSuffix(n);
    if ext == "" {
      assert stem == n && stem + suffix + ext == n + suffix;
      ExtSkips(n, suffix);
    } else {
      ExtShape(n);
      var before := stem + suffix + ".";
      assert stem + suffix + ext == before + ext[1..];
      LastDot(before);
      ExtSkips(before, ext[1..]);
    }
  }

  lemma LastDot(s: string)
    requires s != "" && s[|s| - 1] == '.'
    ensures Ext(s) == "."
  {
  }

  lemma SuffixDotless(i: nat)
    ensures '.' !in Suffix(i) && '.' !in Numbered(i)
  {
    assert '.' !in Decimal(i);
  }

  /** A restore onto an occupied path goes beside it: to the first free numbered name in the same
      directory, exactly; it fails, changing nothing, only if even the stamped name is taken. */
  lemma RestoreBeside(t: Tree, id: string, p: Path, stamp: nat) returns (k: nat, q: Path)
    requires Inv(t) && ValidTrashID(id) && p != [] && Clean(p) && InBin(t, id, p) && !InTrash(p)
    requires p in t && SurvivesTrimming(t, p)
    ensures 1 <= k <= 1000 && FirstFreeName(t, p, 1, k, stamp, q) && q != [] && Parent(q) == Parent(p) && q != p
    ensures Ext(Leaf(q)) == Ext(Leaf(p))
    ensures Restored(t, id, stamp) == if q in t then (t, Err(System(EEXIST))) else (PutAt(t, id, q), Ok(()))
  {
    hide Resolve, Render, TrimRight, WellFormed, BinSane, Clean, PutBack, Lstat, Restored, PutAt, Suffixed, Original,
      FirstFree, SurvivesTrimming, Suffix, Numbered, Ext;
    k := FirstFreeFound(t, p, 1, stamp);
    q := FirstFree(t, p, 1, stamp);
    RestoreTargets(t, id, p, stamp);
    OriginalOf(t, id, p);
    LstatFinds(t, p);
    EntryPlaced(t, p);
    SurvivesLeaf(t, p);
    SuffixText(k);
    SuffixText(stamp);
    SuffixEnds(k);
    SuffixEnds(stamp);
    SuffixedSurvives(t, p, Suffix(k));
    SuffixedSurvives(t, p, Numbered(stamp));
    SuffixDotless(k);
    SuffixDotless(stamp);
    SuffixedKeepsExt(p, Suffix(k));
    SuffixedKeepsExt(p, Numbered(stamp));
    BesideOutside(p, q);
    PutBackExactly(t, id, q);
  }

  lemma SurvivesLeaf(t: Tree, p: Path)
    requires p != [] && SurvivesTrimming(t, p)
    ensures TrimRight(Leaf(p)) == Leaf(p)
  {
  }

  /** No numbered name is the bin's. */
  lemma BesideOutside(p: Path, q: Path)
    requires p != [] && q != [] && !InTrash(p) && Parent(q) == Parent(p) && ')' in Leaf(q)
    ensures !InTrash(q)
  {
    if Parent(p) != [] {
      assert q[0] == Parent(q)[0] && p[0] == Parent(p)[0];
    }
  }

  /** Without a readable sidecar an entry is restored at the root, under its id. */
  lemma RestoreWithoutSidecar(t: Tree, id: string, stamp: nat)
    requires Inv(t) && ValidTrashID(id) && Payload(id) in t && [id] !in t && TrimRight(id) == id
    requires Entry(id) + [META] !in t
    ensures Restored(t, id, stamp) == (PutAt(t, id, [id]), Ok(()))
  {
    hide TrimRight, WellFormed, BinSane, PutBack, Lstat, PutAt, Parts;
    EntryPlaced(t, Payload(id));
    LstatFinds(t, Payload(id));
    RenderedResolves([]);
    PrefixIn(t, [TRASH], Payload(id));
    hide Resolve, Render;
    FreeIn(t, [id]);
    PutBackExactly(t, id, [id]);
  }
}
