/** A server's data volume: a finite tree without symbolic links, and the system calls the
    file manager makes on it. */
module Volume {
  import opened Common
  import opened Paths

  /** The sidecar of a bin entry. */
  datatype Meta = Meta(name: string, originalPath: string, deletedAt: int)

  /** File contents; a sidecar stands for its JSON text. */
  datatype Data = Bytes(text: string) | Sidecar(meta: Meta)

  datatype Node = File(data: Data) | Dir

  type Tree = map<Path, Node>

  datatype Errno = ENOENT | ENOTDIR | EEXIST | EISDIR | EINVAL | ENOTEMPTY

  /** Every entry lies in a directory, under a name an entry can have. */
  ghost predicate WellFormed(t: Tree) {
    && [] in t && t[[]].Dir?
    && forall p <- t :: Clean(p) && (p != [] ==> Parent(p) in t && t[Parent(p)].Dir?)
  }

  lemma EntryPlaced(t: Tree, p: Path)
    requires WellFormed(t) && p in t
    ensures Clean(p) && [] in t && t[[]].Dir?
    ensures p != [] ==> Clean(Parent(p)) && Parent(p) in t && t[Parent(p)].Dir?
  {
  }

  /** Everything above an entry is a directory. */
  lemma {:induction false} PrefixIn(t: Tree, p: Path, q: Path)
    requires WellFormed(t) && q in t && p <= q
    ensures p in t && (p != q ==> t[p].Dir?)
    decreases |q|
  {
    if p != q {
      assert p == q[..|p|] == Parent(q)[..|p|];
      PrefixIn(t, p, Parent(q));
    }
  }

  lemma NothingBelow(t: Tree, at: Path, q: Path)
    requires WellFormed(t) && at !in t
    ensures q in t ==> !(at <= q)
  {
    if q in t && at <= q {
      PrefixIn(t, at, q);
    }
  }

  // ---------------------------------------------------------------- lookups

  function Lstat(t: Tree, p: Path): Result<Node, Errno>
    decreases |p|
  {
    if p == [] then (if p in t then Ok(t[p]) else Err(ENOENT))
    else
      match Lstat(t, Parent(p))
      case Err(e) => Err(e)
      case Ok(File(_)) => Err(ENOTDIR)
      case Ok(Dir) => if p in t then Ok(t[p]) else Err(ENOENT)
  }

  lemma {:induction false} LstatFinds(t: Tree, p: Path)
    requires WellFormed(t)
    ensures p in t <==> Lstat(t, p).Ok?
    ensures p in t ==> Lstat(t, p) == Ok(t[p])
    decreases |p|
  {
    if p != [] {
      LstatFinds(t, Parent(p));
    }
  }

  /** The kernel's walk of a raw path from `cur`: `..` needs the directory it leaves to exist. */
  function Walk(t: Tree, cur: Path, parts: seq<string>): (r: Result<Path, Errno>)
    ensures r.Ok? ==> r.value in t
    decreases |parts|
  {
    if cur !in t then Err(ENOENT)
    else if parts == [] then Ok(cur)
    else if t[cur].File? then Err(ENOTDIR)
    else Walk(t, Step(cur, parts[0]), parts[1..])
  }

  /** A walk that succeeds ends where lexical cleaning says. */
  lemma {:induction false} WalkNamesResolved(t: Tree, cur: Path, parts: seq<string>)
    ensures Walk(t, cur, parts).Ok? ==>
      Walk(t, cur, parts).value == CleanFrom(cur, parts) && CleanFrom(cur, parts) in t
    decreases |parts|
  {
    if parts != [] {
      WalkNamesResolved(t, Step(cur, parts[0]), parts[1..]);
    }
  }

  // ---------------------------------------------------------------- creating

  /** Creates the remaining components of a path none of which exists. */
  function MakeDirs(t: Tree, cur: Path, parts: seq<string>): Tree
    decreases |parts|
  {
    if parts == [] then t
    else if parts[0] == "" || parts[0] == "." then MakeDirs(t, cur, parts[1..])
    else MakeDirs(t[cur + [parts[0]] := Dir], cur + [parts[0]], parts[1..])
  }

  /** mkdir -p: walks what exists, refuses `..` beyond it, and creates the rest. */
  function MkdirAll(t: Tree, cur: Path, parts: seq<string>): Result<Tree, Errno>
    decreases |parts|
  {
    if cur !in t then Err(ENOENT)
    else if t[cur].File? then Err(ENOTDIR)
    else if parts == [] then Ok(t)
    else if Step(cur, parts[0]) in t then MkdirAll(t, Step(cur, parts[0]), parts[1..])
    else if ".." in parts then Err(ENOENT)
    else Ok(MakeDirs(t, cur, parts))
  }

  /** Strictly below `cur`, at or above `end`. */
  predicate Between(cur: Path, p: Path, end: Path) { cur < p <= end }

  /** `u` is `t` with directories, and nothing but directories, added from `cur` down to `end`. */
  ghost predicate Extends(t: Tree, u: Tree, cur: Path, end: Path) {
    && cur <= end
    && (forall p <- t :: p in u)
    && (forall p <- u :: if Between(cur, p, end) then u[p].Dir? else p in t && u[p] == t[p])
    && (forall p: Path :: Between(cur, p, end) ==> p in u)
  }

  lemma BetweenStep(cur: Path, n: string, p: Path, end: Path)
    requires cur + [n] <= end
    ensures Between(cur, p, end) <==> p == cur + [n] || Between(cur + [n], p, end)
  {
    if Between(cur, p, end) {
      assert p[..|cur| + 1] == end[..|cur| + 1] == cur + [n];
    }
  }

  lemma NotBetweenSelf(p: Path, end: Path)
    ensures !Between(p, p, end)
  {
  }

  lemma ExtendsStep(t: Tree, u: Tree, cur: Path, n: string, end: Path)
    requires Extends(t[cur + [n] := Dir], u, cur + [n], end)
    ensures Extends(t, u, cur, end)
  {
    hide Between;
    forall p: Path
      ensures Between(cur, p, end) <==> p == cur + [n] || Between(cur + [n], p, end)
    {
      BetweenStep(cur, n, p, end);
    }
    assert cur <= cur + [n];
    NotBetweenSelf(cur + [n], end);
  }

  /** New directories are prefixes of the path named; nothing else changes. */
  lemma {:induction false} MakeDirsAdds(t: Tree, cur: Path, parts: seq<string>)
    requires ".." !in parts
    ensures Extends(t, MakeDirs(t, cur, parts), cur, CleanFrom(cur, parts))
    decreases |parts|
  {
    if parts != [] {
      if parts[0] == "" || parts[0] == "." {
        MakeDirsAdds(t, cur, parts[1..]);
      } else {
        var next := cur + [parts[0]];
        hide Extends;
        MakeDirsAdds(t[next := Dir], next, parts[1..]);
        ExtendsStep(t, MakeDirs(t[next := Dir], next, parts[1..]), cur, parts[0], CleanFrom(cur, parts));
      }
    }
  }

  /** mkdir -p only adds directories, and only on the way to the path it names. */
  lemma {:induction false} MkdirAllAdds(t: Tree, cur: Path, parts: seq<string>)
    requires WellFormed(t) && MkdirAll(t, cur, parts).Ok?
    ensures var u, end := MkdirAll(t, cur, parts).value, CleanFrom(cur, parts);
      && end in u && u[end].Dir?
      && (forall p <- t :: p in u && u[p] == t[p])
      && (forall p <- u :: p !in t ==> u[p].Dir? && p <= end)
    decreases |parts|
  {
    if parts != [] {
      if Step(cur, parts[0]) in t {
        MkdirAllAdds(t, Step(cur, parts[0]), parts[1..]);
      } else {
        assert parts[0] in parts;
        var next, end := cur + [parts[0]], CleanFrom(cur, parts);
        MakeDirsAdds(t[next := Dir], next, parts[1..]);
        ExtendsStep(t, MakeDirs(t, cur, parts), cur, parts[0], end);
        assert Between(cur, end, end);
        forall p | p in t && Between(cur, p, end)
          ensures false
        {
          BetweenStep(cur, parts[0], p, end);
          PrefixIn(t, next, p);
        }
      }
    }
  }

  // ---------------------------------------------------------------- moving and removing

  /** The subtree at `src` hangs at `dst` instead; whatever was at `dst` itself is replaced. */
  function Move(t: Tree, src: Path, dst: Path): Tree {
    (map p | p in t && !(src <= p) :: t[p]) +
    (map q | q in (set p | p in t && src <= p :: dst + p[|src|..]) && src + q[|dst|..] in t :: t[src + q[|dst|..]])
  }

  lemma MoveAt(t: Tree, src: Path, dst: Path, q: Path)
    ensures q in Move(t, src, dst) <==>
      (dst <= q && src + q[|dst|..] in t) || (q in t && !(src <= q))
    ensures q in Move(t, src, dst) ==>
      Move(t, src, dst)[q] == (if dst <= q && src + q[|dst|..] in t then t[src + q[|dst|..]] else t[q])
  {
    if dst <= q && src + q[|dst|..] in t {
      var p := src + q[|dst|..];
      assert p[|src|..] == q[|dst|..] && dst + p[|src|..] == q;
    }
    forall p | p in t && src <= p
      ensures (dst + p[|src|..])[|dst|..] == p[|src|..] && src + p[|src|..] == p
    {
    }
  }

  /** renameat2, with and without RENAME_NOREPLACE, through handles on the two parents. */
  function Renameat(t: Tree, src: Path, dst: Path, noReplace: bool): Result<Tree, Errno>
    requires src != [] && dst != []
  {
    match Lstat(t, Parent(src))
    case Err(e) => Err(e)
    case Ok(from) =>
      match Lstat(t, Parent(dst))
      case Err(e) => Err(e)
      case Ok(to) =>
        if from.File? || to.File? then Err(ENOTDIR)
        else if src !in t then Err(ENOENT)
        else if dst in t && noReplace then Err(EEXIST)
        else if src == dst then Ok(t)
        else if src <= dst then Err(EINVAL)
        else if dst in t && t[src].File? && t[dst].Dir? then Err(EISDIR)
        else if dst in t && t[src].Dir? && t[dst].File? then Err(ENOTDIR)
        else if dst in t && t[dst].Dir? && (exists q <- t :: dst < q) then Err(ENOTEMPTY)
        else Ok(Move(t, src, dst))
  }

  function RemoveAll(t: Tree, top: Path): Tree {
    map p | p in t && !(top <= p) :: t[p]
  }

  // ---------------------------------------------------------------- well-formedness is kept

  lemma {:induction false} MakeDirsKeeps(t: Tree, cur: Path, parts: seq<string>)
    requires WellFormed(t) && cur in t && t[cur].Dir? && ".." !in parts && forall x <- parts :: '/' !in x
    requires parts != [] && parts[0] != "" && parts[0] != "." ==> cur + [parts[0]] !in t
    requires parts != [] && (parts[0] == "" || parts[0] == ".") ==> forall n: string :: cur + [n] !in t
    ensures WellFormed(MakeDirs(t, cur, parts))
    decreases |parts|
  {
    if parts != [] {
      assert parts[0] in parts;
      if parts[0] == "" || parts[0] == "." {
        MakeDirsKeeps(t, cur, parts[1..]);
      } else {
        var next := cur + [parts[0]];
        var u := t[next := Dir];
        assert Parent(next) == cur && Leaf(next) == parts[0];
        forall n: string
          ensures next + [n] !in u
        {
          assert Parent(next + [n]) == next;
        }
        MakeDirsKeeps(u, next, parts[1..]);
      }
    }
  }

  lemma {:induction false} MkdirAllKeeps(t: Tree, cur: Path, parts: seq<string>)
    requires WellFormed(t) && MkdirAll(t, cur, parts).Ok? && forall x <- parts :: '/' !in x
    ensures WellFormed(MkdirAll(t, cur, parts).value)
    decreases |parts|
  {
    if parts != [] {
      if Step(cur, parts[0]) in t {
        MkdirAllKeeps(t, Step(cur, parts[0]), parts[1..]);
      } else {
        assert parts[0] != "" && parts[0] != ".";
        assert parts[0] in parts;
        MakeDirsKeeps(t, cur, parts);
      }
    }
  }

  lemma MovedEntry(t: Tree, src: Path, dst: Path, q: Path)
    requires WellFormed(t) && src in t && src != [] && dst != [] && !(src <= dst)
    requires Parent(dst) in t && t[Parent(dst)].Dir? && ValidName(Leaf(dst))
    requires dst in t ==> t[dst].File? || forall q <- t :: !(dst < q)
    requires q in Move(t, src, dst)
    ensures Clean(q) && (q != [] ==> Parent(q) in Move(t, src, dst) && Move(t, src, dst)[Parent(q)].Dir?)
  {
    hide Move;
    MoveAt(t, src, dst, q);
    if q != [] {
      MoveAt(t, src, dst, Parent(q));
      if dst <= q && src + q[|dst|..] in t {
        var p := src + q[|dst|..];
        assert q == dst + q[|dst|..] && dst == Parent(dst) + [Leaf(dst)];
        assert forall n <- q[|dst|..] :: n in p;
        if q == dst {
          assert !(src <= Parent(dst)) && !(dst <= Parent(dst));
        } else {
          assert Parent(p) == src + Parent(q)[|dst|..] && dst <= Parent(q);
        }
      } else {
        PlainEntry(t, src, dst, q);
      }
    }
  }

  lemma PlainEntry(t: Tree, src: Path, dst: Path, q: Path)
    requires WellFormed(t) && src in t && src != [] && dst != [] && !(src <= dst)
    requires dst in t ==> t[dst].File? || forall q <- t :: !(dst < q)
    requires q in t && q != [] && !(src <= q)
    ensures Parent(q) in t && t[Parent(q)].Dir? && !(src <= Parent(q)) && !(dst <= Parent(q))
  {
    if dst <= Parent(q) {
      assert q[..|dst|] == Parent(q)[..|dst|] && dst < q;
      PrefixIn(t, dst, q);
    }
  }

  lemma MoveKeeps(t: Tree, src: Path, dst: Path)
    requires WellFormed(t) && src in t && src != [] && dst != [] && !(src <= dst)
    requires Parent(dst) in t && t[Parent(dst)].Dir? && ValidName(Leaf(dst))
    requires dst in t ==> t[dst].File? || forall q <- t :: !(dst < q)
    ensures WellFormed(Move(t, src, dst))
  {
    var u := Move(t, src, dst);
    MoveAt(t, src, dst, []);
    forall q | q in u
      ensures Clean(q) && (q != [] ==> Parent(q) in u && u[Parent(q)].Dir?)
    {
      MovedEntry(t, src, dst, q);
    }
  }

  lemma RemoveKeeps(t: Tree, top: Path)
    requires WellFormed(t) && top != []
    ensures WellFormed(RemoveAll(t, top))
  {
  }
}
