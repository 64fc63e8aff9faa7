/** The file manager of one server volume: what each operation does to the tree as a function,
    and the manager whose methods take the daemon's own steps. */
module FileManager {
  import opened Common
  import opened Text
  import opened Paths
  import opened Volume

  const PAYLOAD := "payload"
  const META := "meta.json"
  const TMP_PREFIX := ".wings-write-"
  const MAX_READ_BYTES := 2 * 1024 * 1024

  datatype Failure =
    | AtRoot | Traversal | NotFound | Exists | NoParent
    | IsDirectory | NotDirectory | TooLarge | FillFailed | SidecarFailed
    | System(errno: Errno)

  type Outcome<+T> = Result<T, Failure>

  datatype Kind = AFile | ADir

  /** What the source of a write delivered: the bytes written, and whether it ended well. */
  datatype Fill = Fill(written: string, ok: bool)

  datatype PendingWrite = PendingWrite(dir: Path, tmpName: string, base: string)

  /** Sidecars are written by Trash alone, which records the name of an entry. */
  ghost predicate BinSane(t: Tree) {
    forall p <- t :: t[p].File? && t[p].data.Sidecar? ==> ValidName(t[p].data.meta.name)
  }

  // ---------------------------------------------------------------- reading

  function Size(d: Data): nat { match d case Bytes(text) => |text| case Sidecar(_) => 0 }

  function ReadAt(t: Tree, rel: string): Outcome<Data> {
    if InTrash(Resolve(rel)) then Err(NotFound)
    else
      match Walk(t, [], Parts(rel))
      case Err(e) => Err(if e == ENOENT then NotFound else System(e))
      case Ok(p) =>
        match t[p]
        case Dir => Err(IsDirectory)
        case File(d) => if Size(d) > MAX_READ_BYTES then Err(TooLarge) else Ok(d)
  }

  /** Open streams a file of any size. */
  function OpenAt(t: Tree, rel: string): Outcome<Data> {
    if InTrash(Resolve(rel)) then Err(NotFound)
    else
      match Walk(t, [], Parts(rel))
      case Err(e) => Err(if e == ENOENT then NotFound else System(e))
      case Ok(p) => if t[p].Dir? then Err(IsDirectory) else Ok(t[p].data)
  }

  function Children(t: Tree, p: Path): set<string> {
    set q | q in t && q != [] && Parent(q) == p :: Leaf(q)
  }

  lemma ChildrenAre(t: Tree, p: Path, n: string)
    ensures n in Children(t, p) <==> p + [n] in t
  {
    if p + [n] in t {
      assert Parent(p + [n]) == p && Leaf(p + [n]) == n;
    }
    if n in Children(t, p) {
      var q :| q in t && q != [] && Parent(q) == p && Leaf(q) == n;
      assert q == p + [n];
    }
  }

  function KindOf(n: Node): Kind { if n.Dir? then ADir else AFile }

  function Shown(t: Tree, p: Path): map<string, Kind> {
    map n | n in Children(t, p) && p + [n] in t && !(p == [] && n == TRASH) :: KindOf(t[p + [n]])
  }

  function Listed(t: Tree, p: Path): Outcome<map<string, Kind>> {
    if InTrash(p) then Err(NotFound)
    else
      match Lstat(t, p)
      case Err(e) => Err(if e == ENOENT then NotFound else System(e))
      case Ok(File(_)) => Err(NotDirectory)
      case Ok(Dir) => Ok(Shown(t, p))
  }

  // ---------------------------------------------------------------- changing the live tree

  function Target(p: Path): Outcome<()> {
    if p == [] then Err(AtRoot) else if InTrash(p) then Err(Traversal) else Ok(())
  }

  /** A whole write: no trace of the temporary name, and all of the content or none of it. */
  function Written(t: Tree, p: Path, tmp: string, fill: Fill): (Tree, Outcome<()>) {
    if Target(p).Err? then (t, Target(p))
    else
      match Lstat(t, Parent(p))
      case Err(e) => (t, Err(if e == ENOENT then NoParent else System(e)))
      case Ok(File(_)) => (t, Err(System(ENOTDIR)))
      case Ok(Dir) =>
        if Parent(p) + [tmp] in t then (t, Err(System(EEXIST)))
        else if !fill.ok then (t, Err(FillFailed))
        else if p in t && t[p].Dir? then (t, Err(System(EISDIR)))
        else (t[p := File(Bytes(fill.written))], Ok(()))
  }

  function MadeDir(t: Tree, rel: string): (Tree, Outcome<()>) {
    if Target(Resolve(rel)).Err? then (t, Target(Resolve(rel)))
    else
      match MkdirAll(t, [], Parts(rel))
      case Err(e) => (t, Err(System(e)))
      case Ok(u) => (u, Ok(()))
  }

  function RenameAt(t: Tree, src: Path, dst: Path, noReplace: bool): Outcome<Tree> {
    if src == [] || dst == [] then Err(AtRoot)
    else
      match Renameat(t, src, dst, noReplace)
      case Err(e) => Err(System(e))
      case Ok(u) => Ok(u)
  }

  function Renamed(t: Tree, src: Path, dst: Path): (Tree, Outcome<()>) {
    if src == [] || dst == [] then (t, Err(AtRoot))
    else if InTrash(src) || InTrash(dst) then (t, Err(Traversal))
    else if Lstat(t, dst).Ok? then (t, Err(Exists))
    else
      match RenameAt(t, src, dst, true)
      case Err(f) => (t, Err(if f == System(EEXIST) then Exists else f))
      case Ok(u) => (u, Ok(()))
  }

  // ---------------------------------------------------------------- the recycle bin

  predicate ValidTrashID(id: string) { ValidName(id) && '\\' !in id }

  function Entry(id: string): Path { [TRASH, id] }

  function Trashed(t: Tree, p: Path, id: string, now: int, sidecarOk: bool): (Tree, Outcome<()>) {
    if Target(p).Err? then (t, Target(p))
    else
      match Lstat(t, p)
      case Err(e) => (t, Err(if e == ENOENT then NotFound else System(e)))
      case Ok(_) =>
        match MkdirAll(t, [], Entry(id))
        case Err(e) => (t, Err(System(e)))
        case Ok(t1) => Binned(t1, p, id, now, sidecarOk)
  }

  function Binned(t: Tree, p: Path, id: string, now: int, sidecarOk: bool): (Tree, Outcome<()>)
    requires p != []
  {
    match RenameAt(t, p, Entry(id) + [PAYLOAD], true)
    case Err(f) => (RemoveAll(t, Entry(id)), Err(f))
    case Ok(u) =>
      var meta := Entry(id) + [META];
      if !sidecarOk || (meta in u && u[meta].Dir?) then (RemoveAll(u, Entry(id)), Err(SidecarFailed))
      else (u[meta := File(Sidecar(Meta(Leaf(p), Render(p), now)))], Ok(()))
  }

  function ReadMeta(t: Tree, id: string): (m: Meta)
    requires BinSane(t) && ValidTrashID(id)
    ensures ValidName(m.name)
  {
    var meta := Entry(id) + [META];
    if meta in t && t[meta].File? && t[meta].data.Sidecar? then t[meta].data.meta else Meta(id, "/", 0)
  }

  /** Where an entry came from, or its name at the root when that is not a place to restore to. */
  function Original(m: Meta): (p: Path)
    requires ValidName(m.name)
    ensures p != [] && !(InTrash(p) && m.name != TRASH)
  {
    var p := Resolve(m.originalPath);
    if p == [] || InTrash(p) then [m.name] else p
  }

  /** filepath.Ext: from the last dot of the last element. */
  function Ext(s: string): (e: string)
    ensures |e| <= |s|
  {
    if s == "" || s[|s| - 1] == '/' then ""
    else if s[|s| - 1] == '.' then "."
    else
      var e := Ext(s[..|s| - 1]);
      if e == "" then "" else e + [s[|s| - 1]]
  }

  lemma {:induction false} ExtIsSuffix(s: string)
    ensures s[|s| - |Ext(s)|..] == Ext(s)
    decreases |s|
  {
    if s != "" {
      ExtIsSuffix(s[..|s| - 1]);
    }
  }

  lemma {:induction false} ExtAfter(dir: string, n: string)
    requires '/' !in n && dir != "" && dir[|dir| - 1] == '/'
    ensures Ext(dir + n) == Ext(n)
    decreases |n|
  {
    if n == "" {
      assert dir + n == dir;
    } else {
      assert (dir + n)[|dir + n| - 1] == n[|n| - 1] && (dir + n)[..|dir + n| - 1] == dir + n[..|n| - 1];
      ExtAfter(dir, n[..|n| - 1]);
    }
  }

  /** The extension of an absolute path is that of its last component. */
  lemma ExtOfLeaf(root: string, p: Path)
    requires Clean(p) && p != []
    ensures Ext(root + Slashed(p)) == Ext(Leaf(p))
  {
    hide Ext;
    assert Leaf(p) in p;
    var dir := root + Slashed(Parent(p)) + "/";
    assert root + Slashed(p) == dir + Leaf(p);
    ExtAfter(dir, Leaf(p));
  }

  function Numbered(n: nat): string { " (restored " + Decimal(n) + ")" }

  function Suffix(i: nat): string { if i == 1 then " (restored)" else Numbered(i) }

  /** The suffix goes before the extension. */
  function Suffixed(p: Path, suffix: string): (q: Path)
    requires p != []
    ensures q != [] && Parent(q) == Parent(p)
  {
    var n := Leaf(p);
    Parent(p) + [n[..|n| - |Ext(n)|] + suffix + Ext(n)]
  }

  predicate Free(t: Tree, p: Path) { Lstat(t, p) == Err(ENOENT) }

  function FirstFree(t: Tree, p: Path, i: nat, stamp: nat): (q: Path)
    requires p != []
    ensures q != [] && Parent(q) == Parent(p)
    decreases 1000 - i
  {
    if i >= 1000 then Suffixed(p, Numbered(stamp))
    else if Free(t, Suffixed(p, Suffix(i))) then Suffixed(p, Suffix(i))
    else FirstFree(t, p, i + 1, stamp)
  }

  function NonConflicting(t: Tree, p: Path, stamp: nat): (q: Path)
    requires p != []
    ensures q != [] && Parent(q) == Parent(p)
  {
    if Free(t, p) then p else FirstFree(t, p, 1, stamp)
  }

  function Restored(t: Tree, id: string, stamp: nat): (Tree, Outcome<()>)
    requires BinSane(t)
  {
    if !ValidTrashID(id) then (t, Err(Traversal))
    else
      match Lstat(t, Entry(id) + [PAYLOAD])
      case Err(e) => (t, Err(if e == ENOENT then NotFound else System(e)))
      case Ok(_) => PutBack(t, id, NonConflicting(t, Original(ReadMeta(t, id)), stamp))
  }

  function PutBack(t: Tree, id: string, dst: Path): (Tree, Outcome<()>)
    requires dst != []
  {
    match MkdirAll(t, [], Parts(Render(Parent(dst))))
    case Err(e) => (t, Err(System(e)))
    case Ok(t1) =>
      match RenameAt(t1, Entry(id) + [PAYLOAD], Resolve(Render(dst)), true)
      case Err(f) => (t1, Err(f))
      case Ok(t2) => (RemoveAll(t2, Entry(id)), Ok(()))
  }

  // ---------------------------------------------------------------- texts the daemon builds

  /** The guard's verdict on the absolute path is the verdict on the components. */
  lemma Guarded(root: string, rel: string)
    ensures root + Slashed(Resolve(rel)) == root <==> Resolve(rel) == []
    ensures WithinTrash(root, root + Slashed(Resolve(rel))) <==> InTrash(Resolve(rel))
  {
    hide Slashed, WithinTrash, Resolve;
    ResolveIsClean(rel);
    WithinTrashIsInTrash(root, Resolve(rel));
  }

  /** relPath: back from an absolute path to the caller's form. */
  function RelPath(root: string, abs: string): string
    requires root <= abs
  {
    if abs == root then "/" else abs[|root|..]
  }

  lemma RelPathRenders(root: string, p: Path)
    ensures RelPath(root, root + Slashed(p)) == Render(p)
  {
    SlashedStarts(p);
    assert (root + Slashed(p))[|root|..] == Slashed(p);
  }

  /** A path written relative to the root reads back as itself when its ends need no trimming. */
  lemma DaemonPath(p: Path)
    requires Clean(p) && p != [] && Trimmed(Slashed(p)[1..])
    ensures Parts(Slashed(p)[1..]) == p && Resolve(Slashed(p)[1..]) == p
  {
    hide Split, CleanFrom, TrimSpace;
    SlashedStarts(p);
    var text := Slashed(p)[1..];
    assert Slashed(p) == "/" + text;
    SplitSlashed(p);
    SplitRooted(text);
    assert ([""] + p)[1..] == p && ([""] + Split(text, '/'))[1..] == Split(text, '/');
    TrimSpaceTrims(text);
    CleanFixed([], p);
    assert [] + p == p;
  }

  function EntryRel(id: string): string { TRASH + "/" + id }

  function PayloadRel(id: string): string { TRASH + "/" + id + "/" + PAYLOAD }

  lemma SlashedOn(p: Path, n: string)
    ensures Slashed(p + [n]) == Slashed(p) + "/" + n
  {
    assert Parent(p + [n]) == p && Leaf(p + [n]) == n;
  }

  lemma SlashedTrash()
    ensures Slashed([TRASH]) == "/" + TRASH
  {
    assert Parent([TRASH]) == [] && Slashed([]) == "";
  }

  lemma PayloadPath(id: string)
    requires ValidName(id)
    ensures Resolve(PayloadRel(id)) == Entry(id) + [PAYLOAD]
  {
    hide Resolve, Parts, Slashed;
    SlashedTrash();
    assert [TRASH] + [id] == Entry(id);
    SlashedOn([TRASH], id);
    SlashedOn(Entry(id), PAYLOAD);
    assert Slashed(Entry(id) + [PAYLOAD])[1..] == PayloadRel(id);
    DaemonPath(Entry(id) + [PAYLOAD]);
  }

  lemma EntryPath(id: string)
    requires ValidName(id) && Trimmed(id)
    ensures Parts(EntryRel(id)) == Entry(id)
  {
    hide Resolve, Parts, Slashed;
    SlashedTrash();
    assert [TRASH] + [id] == Entry(id);
    SlashedOn([TRASH], id);
    assert Slashed(Entry(id))[1..] == EntryRel(id);
    DaemonPath(Entry(id));
  }
}
