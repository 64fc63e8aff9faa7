/** When each operation of the file manager goes through, and what it answers, told from the
    volume alone. A plain caller string has no `..` and does not end in a slash or a dot. */
module VolumeAnswers {
  import opened Common
  import opened Text
  import opened Paths
  import opened Volume
  import opened FileManager
  import opened VolumeLaws
  import opened RecycleBin
  import opened RoundTrip

  // ---------------------------------------------------------------- lookups

  ghost predicate IsDir(t: Tree, p: Path) { p in t && t[p].Dir? }

  ghost predicate IsFile(t: Tree, p: Path) { p in t && t[p].File? }

  /** Some file stands where `p` needs a directory. */
  ghost predicate Blocked(t: Tree, p: Path) { exists q: Path :: q < p && IsFile(t, q) }

  lemma BlockedBelow(t: Tree, p: Path, n: string)
    ensures Blocked(t, p + [n]) <==> Blocked(t, p) || IsFile(t, p)
  {
    if Blocked(t, p + [n]) {
      var q: Path :| q < p + [n] && IsFile(t, q);
      assert q == (p + [n])[..|q|] == p[..|q|];
    }
    if q: Path :| q < p && IsFile(t, q) {
      assert q < p + [n];
    }
    assert p < p + [n];
  }

  /** An entry is never below a file. */
  lemma EntryUnblocked(t: Tree, p: Path)
    requires WellFormed(t) && p in t
    ensures !Blocked(t, p)
  {
    forall q: Path | q < p
      ensures !IsFile(t, q)
    {
      PrefixIn(t, q, p);
    }
  }

  /** A lookup fails in one of two ways. */
  lemma {:induction false} LstatMisses(t: Tree, p: Path)
    requires WellFormed(t) && p !in t
    ensures Lstat(t, p) == Err(if Blocked(t, p) then ENOTDIR else ENOENT)
    decreases |p|
  {
    hide Blocked;
    assert p == Parent(p) + [Leaf(p)];
    BlockedBelow(t, Parent(p), Leaf(p));
    if Parent(p) in t {
      LstatFinds(t, Parent(p));
      EntryUnblocked(t, Parent(p));
    } else {
      LstatMisses(t, Parent(p));
    }
  }

  /** No `..`, and a name at the end. */
  predicate Plain(parts: seq<string>) { ".." !in parts && parts != [] && ValidName(parts[|parts| - 1]) }

  lemma PlainCleans(cur: Path, parts: seq<string>)
    requires Plain(parts)
    ensures cur < CleanFrom(cur, parts)
  {
    var n := |parts| - 1;
    assert parts == parts[..n] + [parts[n]] && [parts[n]][1..] == [];
    CleanConcat(cur, parts[..n], [parts[n]]);
    MakeDirsAdds(map[], cur, parts[..n]);
  }

  /** Walking a plain path is looking it up. */
  lemma {:induction false} WalkPlain(t: Tree, cur: Path, parts: seq<string>)
    requires WellFormed(t) && cur in t && Plain(parts)
    ensures var p := CleanFrom(cur, parts);
      Walk(t, cur, parts) == if p in t then Ok(p) else Err(if Blocked(t, p) then ENOTDIR else ENOENT)
    decreases |parts|
  {
    hide Blocked, WellFormed;
    var p, next, rest := CleanFrom(cur, parts), Step(cur, parts[0]), parts[1..];
    PlainCleans(cur, parts);
    if t[cur].File? {
      FileBlocks(t, cur, p);
    } else if next !in t {
      assert parts[0] in parts;
      RestAbove(next, rest);
      MissingNext(t, cur, parts[0], p);
    } else if rest == [] {
    } else {
      assert Plain(rest) by { assert forall x <- rest :: x in parts; }
      WalkPlain(t, next, rest);
    }
  }

  lemma RestAbove(cur: Path, rest: seq<string>)
    requires ".." !in rest
    ensures cur <= CleanFrom(cur, rest)
  {
    MakeDirsAdds(map[], cur, rest);
  }

  lemma FileBlocks(t: Tree, cur: Path, p: Path)
    requires WellFormed(t) && IsFile(t, cur) && cur < p
    ensures Blocked(t, p) && p !in t
  {
    if p in t {
      PrefixIn(t, cur, p);
    }
  }

  lemma MissingNext(t: Tree, cur: Path, n: string, p: Path)
    requires WellFormed(t) && IsDir(t, cur) && cur + [n] !in t && cur + [n] <= p
    ensures p !in t && !Blocked(t, p)
  {
    NothingBelow(t, cur + [n], p);
    forall q: Path | q < p
      ensures !IsFile(t, q)
    {
      if |q| <= |cur| {
        assert q == p[..|q|] == (cur + [n])[..|q|] == cur[..|q|];
        PrefixIn(t, q, cur);
      } else {
        assert (cur + [n]) == p[..|cur| + 1] == q[..|cur| + 1];
        NothingBelow(t, cur + [n], q);
      }
    }
  }

  // ---------------------------------------------------------------- reading

  /** What reading and opening a plain path answer. */
  lemma ReadIs(t: Tree, rel: string)
    requires Inv(t) && Plain(Parts(rel))
    ensures var p := Resolve(rel);
      ReadAt(t, rel) ==
        if InTrash(p) then Err(NotFound)
        else if p !in t then Err(if Blocked(t, p) then System(ENOTDIR) else NotFound)
        else if t[p].Dir? then Err(IsDirectory)
        else match t[p].data
          case Bytes(text) => if |text| <= 2_097_152 then Ok(Bytes(text)) else Err(TooLarge)
          case Sidecar(m) => Ok(Sidecar(m))
    ensures var p := Resolve(rel);
      OpenAt(t, rel) ==
        if InTrash(p) then Err(NotFound)
        else if p !in t then Err(if Blocked(t, p) then System(ENOTDIR) else NotFound)
        else if t[p].Dir? then Err(IsDirectory)
        else Ok(t[p].data)
  {
    hide Blocked, Plain, Parts, InTrash, WellFormed, BinSane;
    EntryRoot(t);
    WalkPlain(t, [], Parts(rel));
  }

  lemma EntryRoot(t: Tree)
    requires WellFormed(t)
    ensures IsDir(t, [])
  {
  }

  /** A listing has one entry for each name directly under the directory, told apart as files and
      directories, except the bin at the root. */
  lemma ListedIs(t: Tree, p: Path)
    requires Inv(t) && Clean(p)
    ensures
      if p != [] && p[0] == ".raptor-trash" then Listed(t, p) == Err(NotFound)
      else if p !in t then Listed(t, p) == Err(if Blocked(t, p) then System(ENOTDIR) else NotFound)
      else if t[p].File? then Listed(t, p) == Err(NotDirectory)
      else
        && Listed(t, p).Ok?
        && var out := Listed(t, p).value;
          forall n: string ::
            && (n in out <==> p + [n] in t && !(p == [] && n == ".raptor-trash"))
            && (n in out ==> out[n] == if t[p + [n]].Dir? then ADir else AFile)
  {
    hide Blocked, Clean, WellFormed, BinSane;
    if p in t {
      LstatFinds(t, p);
      forall n: string
        ensures n in Shown(t, p) <==> p + [n] in t && !(p == [] && n == TRASH)
      {
        ChildrenAre(t, p, n);
      }
    } else {
      LstatMisses(t, p);
    }
  }

  // ---------------------------------------------------------------- writing

  /** What a write answers: it goes through exactly when the parent is a directory, the temporary
      name is free, the content arrives whole and the target is no directory; it then sets the
      target, and otherwise it changes nothing. */
  lemma WrittenIff(t: Tree, p: Path, tmp: string, fill: Fill)
    requires Inv(t) && Clean(p)
    ensures var (u, r) := Written(t, p, tmp, fill);
      && (r.Ok? <==>
            && p != [] && p[0] != ".raptor-trash" && IsDir(t, Parent(p)) && Parent(p) + [tmp] !in t
            && fill.ok && !IsDir(t, p))
      && u == (if r.Ok? then t[p := File(Bytes(fill.written))] else t)
      && (p == [] ==> r == Err(AtRoot))
      && (p != [] && p[0] == ".raptor-trash" ==> r == Err(Traversal))
      && (p != [] && p[0] != ".raptor-trash" && Parent(p) !in t && !Blocked(t, Parent(p)) ==> r == Err(NoParent))
  {
    hide Blocked, Clean, WellFormed, BinSane, Lstat;
    if p != [] {
      if Parent(p) in t {
        LstatFinds(t, Parent(p));
      } else {
        LstatMisses(t, Parent(p));
      }
    }
  }

  /** A file reads back as it was written, or is too large to be read whole. */
  lemma WrittenReadsBack(t: Tree, rel: string, suffix: string, fill: Fill)
    requires Inv(t) && Plain(Parts(rel)) && Written(t, Resolve(rel), TMP_PREFIX + suffix, fill).1.Ok?
    ensures var u := Written(t, Resolve(rel), TMP_PREFIX + suffix, fill).0;
      && ReadAt(u, rel) == (if |fill.written| <= 2_097_152 then Ok(Bytes(fill.written)) else Err(TooLarge))
      && OpenAt(u, rel) == Ok(Bytes(fill.written))
  {
    hide Written, Blocked, Plain, Resolve, Parts, Walk, Lstat, WellFormed, BinSane;
    ResolveIsClean(rel);
    WrittenIff(t, Resolve(rel), TMP_PREFIX + suffix, fill);
    WrittenKeeps(t, Resolve(rel), TMP_PREFIX + suffix, fill);
    ReadIs(Written(t, Resolve(rel), TMP_PREFIX + suffix, fill).0, rel);
  }

  // ---------------------------------------------------------------- creating directories

  /** After `k` components the walk stands at a directory, or past the end of what exists with no
      `..` to come. */
  ghost predicate Passes(t: Tree, cur: Path, parts: seq<string>, k: nat)
    requires k <= |parts|
  {
    var q := CleanFrom(cur, parts[..k]);
    if q in t then t[q].Dir? else ".." !in parts[k..]
  }

  lemma PassesOn(t: Tree, cur: Path, parts: seq<string>, k: nat)
    requires 0 < k <= |parts|
    ensures Passes(t, cur, parts, k) <==> Passes(t, Step(cur, parts[0]), parts[1..], k - 1)
  {
    assert parts[..k][1..] == parts[1..][..k - 1] && parts[k..] == parts[1..][k - 1..];
  }

  lemma PassesPast(t: Tree, cur: Path, parts: seq<string>, k: nat)
    requires WellFormed(t) && cur !in t && ".." !in parts && k <= |parts|
    ensures Passes(t, cur, parts, k)
  {
    assert forall x <- parts[..k] :: x in parts;
    RestAbove(cur, parts[..k]);
    NothingBelow(t, cur, CleanFrom(cur, parts[..k]));
  }

  /** mkdir -p goes through exactly when every step of its walk passes. */
  lemma {:induction false} MkdirAllIff(t: Tree, cur: Path, parts: seq<string>)
    requires WellFormed(t) && cur in t
    ensures MkdirAll(t, cur, parts).Ok? <==> forall k :: 0 <= k <= |parts| ==> Passes(t, cur, parts, k)
    decreases |parts|
  {
    hide WellFormed, Passes;
    assert Passes(t, cur, parts, 0) <==> t[cur].Dir? by { PassesHere(t, cur, parts); }
    if parts != [] && t[cur].Dir? {
      var next, rest := Step(cur, parts[0]), parts[1..];
      forall k | 0 < k <= |parts|
        ensures Passes(t, cur, parts, k) <==> Passes(t, next, rest, k - 1)
      {
        PassesOn(t, cur, parts, k);
      }
      if next in t {
        MkdirAllIff(t, next, rest);
        assert forall k :: 0 <= k <= |rest| ==> (Passes(t, next, rest, k) <==> Passes(t, cur, parts, k + 1));
      } else {
        UpExists(t, cur, parts[0]);
        assert ".." in parts <==> ".." in rest;
        if ".." in rest {
          assert !Passes(t, next, rest, 0) by { StopsHere(t, next, rest); }
          assert !Passes(t, cur, parts, 1);
        } else {
          forall k | 0 <= k <= |rest|
            ensures Passes(t, next, rest, k)
          {
            PassesPast(t, next, rest, k);
          }
        }
      }
    }
  }

  lemma PassesHere(t: Tree, cur: Path, parts: seq<string>)
    requires cur in t
    ensures Passes(t, cur, parts, 0) <==> t[cur].Dir?
  {
    assert parts[..0] == [];
  }

  lemma StopsHere(t: Tree, cur: Path, parts: seq<string>)
    requires cur !in t && ".." in parts
    ensures !Passes(t, cur, parts, 0)
  {
    assert parts[..0] == [] && parts[0..] == parts;
  }

  lemma UpExists(t: Tree, cur: Path, part: string)
    requires WellFormed(t) && cur in t
    ensures part == ".." ==> Step(cur, part) in t
  {
  }

  /** What mkdir answers: it goes through exactly when every step of the raw path passes, and then
      the path it names is a directory, entries are as they were, and only directories above that
      path are new. */
  lemma MadeDirIff(t: Tree, rel: string)
    requires Inv(t)
    ensures var p, (u, r) := Resolve(rel), MadeDir(t, rel);
      && (r.Ok? <==>
            && p != [] && p[0] != ".raptor-trash"
            && forall k :: 0 <= k <= |Parts(rel)| ==> Passes(t, [], Parts(rel), k))
      && (if r.Ok? then
            && IsDir(u, p) && (forall q <- t :: q in u && u[q] == t[q])
            && (forall q <- u :: q !in t ==> u[q].Dir? && q <= p)
          else u == t)
      && (p == [] ==> r == Err(AtRoot)) && (p != [] && p[0] == ".raptor-trash" ==> r == Err(Traversal))
  {
    hide Passes, Resolve, Parts, MkdirAll, WellFormed, BinSane;
    EntryRoot(t);
    MkdirAllIff(t, [], Parts(rel));
    if MkdirAll(t, [], Parts(rel)).Ok? {
      MkdirAllAdds(t, [], Parts(rel));
      ResolvesParts(rel);
    }
  }

  lemma ResolvesParts(rel: string)
    ensures Resolve(rel) == CleanFrom([], Parts(rel))
  {
  }

  /** Without `..` only a file in the way stops it. */
  lemma PassesPlainly(t: Tree, cur: Path, parts: seq<string>)
    requires WellFormed(t) && cur in t && ".." !in parts && !Blocked(t, CleanFrom(cur, parts))
    requires !IsFile(t, CleanFrom(cur, parts))
    ensures MkdirAll(t, cur, parts).Ok?
  {
    hide Blocked, WellFormed;
    forall k | 0 <= k <= |parts|
      ensures Passes(t, cur, parts, k)
    {
      var q, p := CleanFrom(cur, parts[..k]), CleanFrom(cur, parts);
      assert parts == parts[..k] + parts[k..];
      CleanConcat(cur, parts[..k], parts[k..]);
      assert forall x <- parts[k..] :: x in parts;
      RestAbove(q, parts[k..]);
      if IsFile(t, q) {
        FileInTheWay(t, q, p);
      }
    }
    MkdirAllIff(t, cur, parts);
  }

  lemma FileInTheWay(t: Tree, q: Path, p: Path)
    requires IsFile(t, q) && q <= p
    ensures Blocked(t, p) || IsFile(t, p)
  {
    assert q == p || q < p;
  }

  // ---------------------------------------------------------------- renaming

  lemma RenameatRefuses(t: Tree, src: Path, dst: Path)
    requires WellFormed(t) && src != [] && dst != [] && dst !in t && Renameat(t, src, dst, true).Err?
    ensures var e := Renameat(t, src, dst, true).error;
      && e in {EINVAL, ENOENT, ENOTDIR}
      && (src in t && IsDir(t, Parent(dst)) && src <= dst ==> e == EINVAL)
      && (!Blocked(t, src) && !Blocked(t, dst) && (src !in t || Parent(dst) !in t) ==> e == ENOENT)
  {
    hide Move, Blocked, Lstat, WellFormed;
    assert src == Parent(src) + [Leaf(src)] && dst == Parent(dst) + [Leaf(dst)];
    BlockedBelow(t, Parent(src), Leaf(src));
    BlockedBelow(t, Parent(dst), Leaf(dst));
    LookUp(t, Parent(src));
    LookUp(t, Parent(dst));
    if src in t {
      PrefixIn(t, Parent(src), src);
    }
  }

  lemma LookUp(t: Tree, p: Path)
    requires WellFormed(t)
    ensures Lstat(t, p) == if p in t then Ok(t[p]) else Err(if Blocked(t, p) then ENOTDIR else ENOENT)
  {
    hide Blocked, Lstat;
    LstatFinds(t, p);
    if p !in t {
      LstatMisses(t, p);
    }
  }

  /** When a rename goes through, and how it is refused otherwise. */
  lemma RenamedIff(t: Tree, src: Path, dst: Path)
    requires Inv(t) && Clean(src) && Clean(dst)
    ensures var (u, r) := Renamed(t, src, dst);
      && (r.Ok? <==>
            && src != [] && dst != [] && src[0] != ".raptor-trash" && dst[0] != ".raptor-trash"
            && src in t && dst !in t && IsDir(t, Parent(dst)) && !(src <= dst))
      && u == (if r.Ok? then Move(t, src, dst) else t)
      && (src == [] || dst == [] ==> r == Err(AtRoot))
      && (src != [] && dst != [] && (src[0] == ".raptor-trash" || dst[0] == ".raptor-trash") ==> r == Err(Traversal))
      && (src != [] && dst != [] && src[0] != ".raptor-trash" && dst[0] != ".raptor-trash" ==>
            && (dst in t ==> r == Err(Exists))
            && (dst !in t && src in t && IsDir(t, Parent(dst)) && src <= dst ==> r == Err(System(EINVAL)))
            && (dst !in t && !Blocked(t, src) && !Blocked(t, dst) && (src !in t || Parent(dst) !in t) ==>
                  r == Err(System(ENOENT)))
            && (r.Err? ==> r.error in {Exists, System(EINVAL), System(ENOENT), System(ENOTDIR)}))
  {
    hide Move, Lstat, Renameat, Clean, WellFormed, BinSane, Blocked;
    if src != [] && dst != [] {
      LstatFinds(t, dst);
      if dst !in t && Renameat(t, src, dst, true).Err? {
        RenameatRefuses(t, src, dst);
      }
      if Renameat(t, src, dst, true).Ok? {
        RenameatMoves(t, src, dst, true);
      }
      if src in t && dst !in t && IsDir(t, Parent(dst)) && !(src <= dst) {
        RenameatAllowed(t, src, dst);
      }
    }
  }

  // ---------------------------------------------------------------- deleting

  /** How a deletion is refused; the volume is then as it was. */
  lemma TrashRefused(t: Tree, p: Path, id: string, now: int, sidecarOk: bool)
    requires Inv(t) && Clean(p) && ValidTrashID(id) && Entry(id) !in t
    requires p == [] || p[0] == ".raptor-trash" || p !in t || BinBlocked(t)
    ensures Trashed(t, p, id, now, sidecarOk) ==
      (t, Err(if p == [] then AtRoot else if p[0] == ".raptor-trash" then Traversal
              else if p !in t && !Blocked(t, p) then NotFound else System(ENOTDIR)))
  {
    hide Blocked, Lstat, MkdirAll, Binned, Clean, WellFormed, BinSane;
    LookUp(t, p);
    BinMade(t, id);
  }

  /** What a deletion leaves: the subtree under `payload` of the new entry, and beside it, in
      `meta.json`, its name, its path and the time. */
  lemma TrashLeaves(t: Tree, p: Path, id: string, now: int, q: Path)
    requires Inv(t) && p in t && p != [] && p[0] != ".raptor-trash" && ValidTrashID(id) && Entry(id) !in t
    requires !BinBlocked(t)
    ensures var (u, r) := Trashed(t, p, id, now, true);
      var payload, meta := [".raptor-trash", id, "payload"], [".raptor-trash", id, "meta.json"];
      && r == Ok(()) && p !in u
      && meta in u && u[meta] == File(Sidecar(Meta(Leaf(p), Render(p), now)))
      && (payload <= q ==> (q in u <==> p + q[3..] in t) && (q in u ==> u[q] == t[p + q[3..]]))
  {
    hide Render, Move, Prepared, WellFormed, BinSane, Trashed;
    EntryPlaced(t, p);
    TrashedIs(t, p, id, now, true);
    DeletedAt(t, p, id, now, q);
    DeletedAt(t, p, id, now, p);
    assert [".raptor-trash", id, "payload"] == Payload(id) && [".raptor-trash", id, "meta.json"] == Entry(id) + [META];
  }

  // ---------------------------------------------------------------- restoring

  /** The suffix of a restored name follows its stem: before the last dot, or at the end of a name
      without one. */
  lemma SuffixedIs(dir: Path, stem: string, ext: string, suffix: string)
    requires '/' !in stem && '/' !in ext && '.' !in ext
    ensures Suffixed(dir + [stem + "." + ext], suffix) == dir + [stem + suffix + "." + ext]
    ensures Suffixed(dir + [ext], suffix) == dir + [ext + suffix]
  {
    hide Ext;
    LastDot(stem + ".");
    ExtSkips(stem + ".", ext);
    NameHas(dir, stem + "." + ext, stem, "." + ext, suffix);
    assert stem + suffix + ("." + ext) == stem + suffix + "." + ext;
    NoExtension();
    ExtSkips("", ext);
    assert "" + ext == ext;
    NameHas(dir, ext, ext, "", suffix);
    assert ext + suffix + "" == ext + suffix;
  }

  lemma NoExtension()
    ensures Ext("") == ""
  {
  }

  lemma NameHas(dir: Path, n: string, stem: string, ext: string, suffix: string)
    requires Ext(n) == ext && n == stem + ext
    ensures Suffixed(dir + [n], suffix) == dir + [stem + suffix + ext]
  {
    hide Ext;
    assert Parent(dir + [n]) == dir && Leaf(dir + [n]) == n && n[..|n| - |ext|] == stem;
  }

  /** The suffixes in order: ` (restored)`, ` (restored 2)`, ` (restored 3)` and so on. */
  lemma SuffixReads(i: nat)
    ensures Suffix(1) == " (restored)"
    ensures i != 1 ==> exists digits: string :: Suffix(i) == " (restored " + digits + ")" && Reads(digits, i)
    ensures exists digits: string :: Numbered(i) == " (restored " + digits + ")" && Reads(digits, i)
  {
    DecimalReads(i);
    assert Numbered(i) == " (restored " + Decimal(i) + ")";
  }

  /** Which ids are refused, and what a missing payload answers; nothing changes then. */
  lemma RestoreRefused(t: Tree, id: string, stamp: nat)
    requires Inv(t)
    ensures id in {"", ".", ".."} || '/' in id || '\\' in id ==> Restored(t, id, stamp) == (t, Err(Traversal))
    ensures var payload := [".raptor-trash", id, "payload"];
      id !in {"", ".", ".."} && '/' !in id && '\\' !in id && payload !in t ==>
        Restored(t, id, stamp) == (t, Err(if Blocked(t, payload) then System(ENOTDIR) else NotFound))
  {
    hide Blocked, Lstat, PutBack, NonConflicting, Original, ReadMeta, WellFormed, BinSane;
    assert [".raptor-trash", id, "payload"] == Payload(id);
    LookUp(t, Payload(id));
  }

  lemma LeafUntrimmed(p: Path)
    requires p != [] && Clean(p) && TrimRight(Leaf(p)) == Leaf(p)
    ensures Resolve(Render(p)) == p && Parts(Render(p)) == [""] + p
  {
    hide TrimRight, Render, Resolve, Parts;
    RenderedResolves(p);
    RenderedParts(p);
    CleanLeaf(p);
    assert [""] + Parent(p) + [Leaf(p)] == [""] + p;
  }

  lemma DirUntrimmed(dir: Path)
    requires Clean(dir) && (dir != [] ==> TrimRight(Leaf(dir)) == Leaf(dir))
    ensures Resolve(Render(dir)) == dir && ".." !in Parts(Render(dir))
  {
    hide TrimRight, Render, Resolve, Parts;
    RenderedResolves(dir);
    RenderedParts(dir);
    if dir != [] {
      LeafUntrimmed(dir);
      assert forall n <- dir :: n != "..";
    }
  }

  /** The directories above a recorded path need not exist any more: unless a file is in the way,
      restore makes them anew and puts the payload exactly there. */
  lemma RestoreRemakesParent(t: Tree, id: string, p: Path, stamp: nat) returns (made: Tree)
    requires Inv(t) && ValidTrashID(id) && p != [] && Clean(p) && InBin(t, id, p) && !InTrash(p)
    requires p !in t && !Blocked(t, p) && NothingToTrim(p)
    ensures Inv(made) && IsDir(made, Parent(p)) && p !in made
    ensures (forall q <- t :: q in made && made[q] == t[q])
    ensures (forall q <- made :: q !in t ==> made[q].Dir? && q <= Parent(p))
    ensures Restored(t, id, stamp) == (PutAt(made, id, p), Ok(()))
  {
    hide TrimRight, Render, Resolve, Parts, Blocked, Clean, WellFormed, BinSane, MkdirAll, PutBack, PutAt, Restored,
      InBin, NonConflicting, Lstat;
    var dir := Parent(p);
    BinHas(t, id, p);
    CleanLeaf(p);
    BlockedBelow(t, dir, Leaf(p));
    DirUntrimmed(dir);
    ResolvesParts(Render(dir));
    EntryRoot(t);
    PassesPlainly(t, [], Parts(Render(dir)));
    made := MkdirAll(t, [], Parts(Render(dir))).value;
    PartsHaveNoSlash(Render(dir));
    InvMkdirAll(t, Parts(Render(dir)));
    MkdirAllAdds(t, [], Parts(Render(dir)));
    LstatMisses(t, p);
    RestoreTargets(t, id, p, stamp);
    ParentMade(made, dir);
    assert SurvivesTrimming(made, p);
    PutBackAlike(t, made, id, p);
    PutBackExactly(made, id, p);
  }

  lemma BinHas(t: Tree, id: string, p: Path)
    requires p != [] && InBin(t, id, p)
    ensures Payload(id) in t
  {
  }

  /** Making the parent ahead of a restore makes no difference. */
  lemma PutBackAlike(t: Tree, made: Tree, id: string, dst: Path)
    requires dst != []
    requires MkdirAll(t, [], Parts(Render(Parent(dst)))) == Ok(made) == MkdirAll(made, [], Parts(Render(Parent(dst))))
    ensures PutBack(t, id, dst).1.Ok? || PutBack(made, id, dst).1.Ok? ==> PutBack(t, id, dst) == PutBack(made, id, dst)
  {
    hide MkdirAll, Renameat, Parts, Render, Resolve, RemoveAll;
  }
}
