/** The file manager's methods, step by step as the daemon takes them: guards on absolute paths,
    system calls through parent directories, temporary files, and the tearing down of bin
    entries that fail half-way. Each is proved against the function of the tree it computes. */
module VolumeManager {
  import opened Common
  import opened Text
  import opened Paths
  import opened Volume
  import opened FileManager
  import opened TempFiles
  import opened VolumeLaws

  class Manager {
    const root: string
    var tree: Tree

    ghost predicate Valid()
      reads this
    {
      WellFormed(tree) && BinSane(tree)
    }

    constructor (root: string, tree: Tree)
      requires Inv(tree)
      ensures Valid() && this.root == root && this.tree == tree
    {
      this.root, this.tree := root, tree;
    }

    method ResolvePath(rel: string) returns (abs: string)
      ensures abs == root + Slashed(Resolve(rel))
      ensures abs == root <==> Resolve(rel) == []
      ensures WithinTrash(root, abs) <==> InTrash(Resolve(rel))
    {
      abs := SecureJoin(root, TrimSpace(rel));
      Guarded(root, rel);
    }

    method CheckWriteTarget(rel: string) returns (r: Outcome<()>)
      ensures r == Target(Resolve(rel))
    {
      hide Slashed, Resolve, WithinTrash;
      var abs := ResolvePath(rel);
      if abs == root {
        return Err(AtRoot);
      }
      if WithinTrash(root, abs) {
        return Err(Traversal);
      }
      r := Ok(());
    }

    // ---------------------------------------------------------------- reading

    method List(rel: string) returns (r: Outcome<map<string, Kind>>)
      ensures r == Listed(tree, Resolve(rel))
    {
      hide Slashed, Resolve, WithinTrash, InTrash;
      var abs := ResolvePath(rel);
      var p := Resolve(rel);
      if WithinTrash(root, abs) {
        return Err(NotFound);
      }
      match Lstat(tree, p) {
        case Err(e) => return Err(if e == ENOENT then NotFound else System(e));
        case Ok(File(_)) => return Err(NotDirectory);
        case Ok(Dir) =>
      }
      var dirents, out := Children(tree, p), map[];
      while dirents != {}
        invariant dirents <= Children(tree, p)
        invariant forall n :: n in out <==> n in Shown(tree, p) && n !in dirents
        invariant forall n <- out :: out[n] == Shown(tree, p)[n]
        decreases |dirents|
      {
        var n :| n in dirents;
        dirents := dirents - {n};
        ChildrenAre(tree, p, n);
        if abs == root && n == TRASH {
          continue;
        }
        out := out[n := KindOf(tree[p + [n]])];
      }
      assert out == Shown(tree, p);
      r := Ok(out);
    }

    method Read(rel: string) returns (r: Outcome<Data>)
      ensures r == ReadAt(tree, rel)
    {
      hide Slashed, Resolve, WithinTrash, InTrash, Parts;
      var abs := ResolvePath(rel);
      if WithinTrash(root, abs) {
        return Err(NotFound);
      }
      var handle := Walk(tree, [], Parts(rel));
      if handle.Err? {
        return Err(if handle.error == ENOENT then NotFound else System(handle.error));
      }
      var info := tree[handle.value];
      if info.Dir? {
        return Err(IsDirectory);
      }
      if Size(info.data) > MAX_READ_BYTES {
        return Err(TooLarge);
      }
      r := Ok(info.data);
    }

    method Open(rel: string) returns (r: Outcome<Data>)
      ensures r == OpenAt(tree, rel)
    {
      hide Slashed, Resolve, WithinTrash, InTrash, Parts;
      var abs := ResolvePath(rel);
      if WithinTrash(root, abs) {
        return Err(NotFound);
      }
      var handle := Walk(tree, [], Parts(rel));
      if handle.Err? {
        return Err(if handle.error == ENOENT then NotFound else System(handle.error));
      }
      var info := tree[handle.value];
      r := if info.Dir? then Err(IsDirectory) else Ok(info.data);
    }

    // ---------------------------------------------------------------- writing

    /** Opens the parent and creates a temporary file in it, exclusively. */
    method StartWriteInRoot(rel: string, suffix: string) returns (r: Outcome<PendingWrite>)
      modifies this`tree
      ensures var p, was := Resolve(rel), old(tree);
        match r
        case Ok(pw) =>
          && p != [] && pw == PendingWrite(Parent(p), ".wings-write-" + suffix, Leaf(p))
          && Lstat(was, pw.dir) == Ok(Dir)
          && pw.dir + [pw.tmpName] !in was && tree == was[pw.dir + [pw.tmpName] := File(Bytes(""))]
        case Err(f) =>
          && tree == was
          && (p == [] ==> f == AtRoot)
          && (p != [] ==> match Lstat(was, Parent(p))
                          case Err(e) => f == System(e)
                          case Ok(File(_)) => f == System(ENOTDIR)
                          case Ok(Dir) => f == System(EEXIST) && Parent(p) + [TMP_PREFIX + suffix] in was)
    {
      OperationNamesResolved(rel);
      hide Resolve, CleanText, TrimSpace, Lstat;
      match SplitParent(rel) {
        case None => return Err(AtRoot);
        case Some((parent, base)) =>
          match Lstat(tree, parent) {
            case Err(e) => return Err(System(e));
            case Ok(File(_)) => return Err(System(ENOTDIR));
            case Ok(Dir) =>
          }
          var tmpName := TMP_PREFIX + suffix;
          if parent + [tmpName] in tree {
            return Err(System(EEXIST));
          }
          tree := tree[parent + [tmpName] := File(Bytes(""))];
          return Ok(PendingWrite(parent, tmpName, base));
      }
    }

    /** A write in progress: its temporary file lies in a directory, beside a name for its target. */
    ghost predicate Pending(pw: PendingWrite)
      reads this
    {
      pw.dir + [pw.tmpName] in tree && tree[pw.dir + [pw.tmpName]].File? && ValidName(pw.base)
    }

    /** The target takes over the temporary file's contents, whole, or is a directory and stays
        one. Either way the temporary name is given up and nothing else changes. */
    method Commit(pw: PendingWrite) returns (r: Outcome<()>)
      requires Valid() && Pending(pw)
      modifies this`tree
      ensures Valid()
      ensures var tmp, target, was := pw.dir + [pw.tmpName], pw.dir + [pw.base], old(tree);
        if target in was && was[target].Dir?
        then r == Err(System(EISDIR)) && tree == was - {tmp}
        else r == Ok(()) && tree == (was - {tmp})[target := was[tmp]]
    {
      hide Renameat, RemoveAll, Clean, WellFormed;
      var tmp := pw.dir + [pw.tmpName];
      PendingPlaced(tree, pw);
      match Renameat(tree, tmp, pw.dir + [pw.base], false) {
        case Err(e) =>
          tree := RemoveAll(tree, tmp);
          r := Err(System(e));
        case Ok(u) =>
          tree := u;
          r := Ok(());
      }
    }

    /** The temporary file is given up and nothing else changes. */
    method Abort(pw: PendingWrite)
      requires Valid() && Pending(pw)
      modifies this`tree
      ensures Valid()
      ensures tree == old(tree) - {pw.dir + [pw.tmpName]}
    {
      hide RemoveAll, Clean, WellFormed;
      PendingPlaced(tree, pw);
      tree := RemoveAll(tree, pw.dir + [pw.tmpName]);
    }

    /** The temporary file never survives, whichever way the write ends. */
    method AtomicWrite(rel: string, suffix: string, fill: Fill) returns (r: Outcome<()>)
      requires Valid() && '/' !in suffix
      modifies this`tree
      ensures Valid()
      ensures (tree, r) == Written(old(tree), Resolve(rel), TMP_PREFIX + suffix, fill)
    {
      hide Resolve, Lstat, WellFormed, BinSane;
      ResolveIsClean(rel);
      WrittenKeeps(tree, Resolve(rel), TMP_PREFIX + suffix, fill);
      var target := CheckWriteTarget(rel);
      if target.Err? {
        return target;
      }
      ghost var was, p := tree, Resolve(rel);
      LstatFinds(was, Parent(p));
      var started := StartWriteInRoot(rel, suffix);
      if started.Err? {
        return Err(if started.error == System(ENOENT) then NoParent else started.error);
      }
      var pw := started.value;
      ghost var at, full := pw.dir + [pw.tmpName], File(Bytes(fill.written));
      tree := tree[pw.dir + [pw.tmpName] := File(Bytes(fill.written))];
      assert tree == was[at := full] && p == pw.dir + [pw.base];
      CleanLeaf(p);
      TmpName(was, pw.dir, suffix);
      InvFile(was, at, Bytes(fill.written));
      assert was[at := full] - {at} == was;
      if !fill.ok {
        Abort(pw);
        return Err(FillFailed);
      }
      r := Commit(pw);
    }

    method Write(rel: string, suffix: string, fill: Fill) returns (r: Outcome<()>)
      requires Valid() && '/' !in suffix
      modifies this`tree
      ensures Valid()
      ensures (tree, r) == Written(old(tree), Resolve(rel), TMP_PREFIX + suffix, fill)
    {
      r := AtomicWrite(rel, suffix, fill);
    }

    method Mkdir(rel: string) returns (r: Outcome<()>)
      requires Valid()
      modifies this`tree
      ensures Valid()
      ensures (tree, r) == MadeDir(old(tree), rel)
    {
      hide Slashed, Resolve, WithinTrash, Parts, WellFormed, BinSane;
      MadeDirKeeps(tree, rel);
      var abs := ResolvePath(rel);
      if abs == root {
        return Err(AtRoot);
      }
      if WithinTrash(root, abs) {
        return Err(Traversal);
      }
      match MkdirAll(tree, [], Parts(rel)) {
        case Err(e) => r := Err(System(e));
        case Ok(u) =>
          tree := u;
          r := Ok(());
      }
    }

    method RenameInRoot(fromRel: string, toRel: string, noReplace: bool) returns (r: Outcome<()>)
      modifies this`tree
      ensures match RenameAt(old(tree), Resolve(fromRel), Resolve(toRel), noReplace)
        case Ok(u) => tree == u && r == Ok(())
        case Err(f) => tree == old(tree) && r == Err(f)
    {
      OperationNamesResolved(fromRel);
      OperationNamesResolved(toRel);
      hide Resolve, CleanText, TrimSpace, Lstat, Renameat, Slashed;
      match SplitParent(fromRel) {
        case None => return Err(AtRoot);
        case Some((fromParent, fromBase)) =>
          match SplitParent(toRel) {
            case None => return Err(AtRoot);
            case Some((toParent, toBase)) =>
              assert fromParent + [fromBase] == Resolve(fromRel) && toParent + [toBase] == Resolve(toRel);
              match Renameat(tree, fromParent + [fromBase], toParent + [toBase], noReplace) {
                case Err(e) => r := Err(System(e));
                case Ok(u) =>
                  tree := u;
                  r := Ok(());
              }
          }
      }
    }

    method Rename(src: string, dst: string) returns (r: Outcome<()>)
      requires Valid()
      modifies this`tree
      ensures Valid()
      ensures (tree, r) == Renamed(old(tree), Resolve(src), Resolve(dst))
    {
      hide Slashed, Resolve, WithinTrash, Renameat, Lstat, WellFormed, BinSane;
      ResolveIsClean(src);
      ResolveIsClean(dst);
      RenamedKeeps(tree, Resolve(src), Resolve(dst));
      var srcAbs := ResolvePath(src);
      var dstAbs := ResolvePath(dst);
      if srcAbs == root || dstAbs == root {
        return Err(AtRoot);
      }
      if WithinTrash(root, srcAbs) || WithinTrash(root, dstAbs) {
        return Err(Traversal);
      }
      if Lstat(tree, Resolve(dst)).Ok? {
        return Err(Exists);
      }
      r := RenameInRoot(src, dst, true);
      if r == Err(System(EEXIST)) {
        r := Err(Exists);
      }
    }

    // ---------------------------------------------------------------- the recycle bin

    /** `id` is the fresh name newTrashID makes of a time and random digits. */
    method Trash(rel: string, id: string, now: int, sidecarOk: bool) returns (r: Outcome<()>)
      requires Valid() && ValidTrashID(id) && Trimmed(id)
      modifies this`tree
      ensures Valid()
      ensures (tree, r) == Trashed(old(tree), Resolve(rel), id, now, sidecarOk)
    {
      hide Slashed, Resolve, WithinTrash, Renameat, Lstat, Parts, RemoveAll, MkdirAll, WellFormed, BinSane;
      ResolveIsClean(rel);
      TrashedKeeps(tree, Resolve(rel), id, now, sidecarOk);
      var abs := ResolvePath(rel);
      if abs == root {
        return Err(AtRoot);
      }
      if WithinTrash(root, abs) {
        return Err(Traversal);
      }
      ghost var p := Resolve(rel);
      match Lstat(tree, Resolve(rel)) {
        case Err(e) => return Err(if e == ENOENT then NotFound else System(e));
        case Ok(_) =>
      }
      EntryPath(id);
      match MkdirAll(tree, [], Parts(EntryRel(id))) {
        case Err(e) => return Err(System(e));
        case Ok(u) => tree := u;
      }
      PayloadPath(id);
      var moved := RenameInRoot(rel, PayloadRel(id), true);
      if moved.Err? {
        tree := RemoveAll(tree, Entry(id));
        return moved;
      }
      RelPathRenders(root, p);
      var meta := Meta(Leaf(Resolve(rel)), RelPath(root, abs), now);
      var file := Entry(id) + [META];
      if !sidecarOk || (file in tree && tree[file].Dir?) {
        tree := RemoveAll(tree, Entry(id));
        return Err(SidecarFailed);
      }
      tree := tree[file := File(Sidecar(meta))];
      r := Ok(());
    }

    method FindNonConflicting(abs: Path, stamp: nat) returns (q: Path)
      requires abs != []
      ensures q == NonConflicting(tree, abs, stamp)
    {
      hide Lstat, Suffixed, Ext;
      if Lstat(tree, abs) == Err(ENOENT) {
        return abs;
      }
      var i := 1;
      while i < 1000
        invariant 1 <= i <= 1000
        invariant FirstFree(tree, abs, i, stamp) == FirstFree(tree, abs, 1, stamp)
      {
        var candidate := Suffixed(abs, Suffix(i));
        if Lstat(tree, candidate) == Err(ENOENT) {
          return candidate;
        }
        i := i + 1;
      }
      q := Suffixed(abs, Numbered(stamp));
    }

    method RestoreTrash(id: string, stamp: nat) returns (r: Outcome<()>)
      requires Valid()
      modifies this`tree
      ensures Valid()
      ensures (tree, r) == Restored(old(tree), id, stamp)
    {
      hide Slashed, Resolve, WithinTrash, Renameat, Lstat, Parts, RemoveAll, MkdirAll, Render, NonConflicting,
        ValidName, BinSane, WellFormed;
      RestoredKeeps(tree, id, stamp);
      if !ValidTrashID(id) {
        return Err(Traversal);
      }
      match Lstat(tree, Entry(id) + [PAYLOAD]) {
        case Err(e) => return Err(if e == ENOENT then NotFound else System(e));
        case Ok(_) =>
      }
      var meta := ReadMeta(tree, id);
      var abs := ResolvePath(meta.originalPath);
      var dst := if abs == root || WithinTrash(root, abs) then [meta.name] else Resolve(meta.originalPath);
      assert dst == Original(ReadMeta(tree, id));
      dst := FindNonConflicting(dst, stamp);
      match MkdirAll(tree, [], Parts(Render(Parent(dst)))) {
        case Err(e) => return Err(System(e));
        case Ok(u) => tree := u;
      }
      PayloadPath(id);
      r := RenameInRoot(PayloadRel(id), Render(dst), true);
      if r.Ok? {
        tree := RemoveAll(tree, Entry(id));
      }
    }
  }

  lemma TmpName(t: Tree, dir: Path, suffix: string)
    requires WellFormed(t) && dir in t && t[dir].Dir? && '/' !in suffix
    ensures Clean(dir + [TMP_PREFIX + suffix]) && Parent(dir + [TMP_PREFIX + suffix]) == dir
  {
    assert (TMP_PREFIX + suffix)[1] == 'w';
  }

  /** What the two ways to end a write do to a tree that holds its temporary file. */
  lemma PendingPlaced(t: Tree, pw: PendingWrite)
    requires Inv(t) && ValidName(pw.base)
    requires pw.dir + [pw.tmpName] in t && t[pw.dir + [pw.tmpName]].File?
    ensures var tmp, target := pw.dir + [pw.tmpName], pw.dir + [pw.base]; var rest := t - {tmp};
      && RemoveAll(t, tmp) == rest && Inv(rest)
      && Renameat(t, tmp, target, false) ==
         (if target in t && t[target].Dir? then Err(EISDIR) else Ok(rest[target := t[tmp]]))
      && (!(target in t && t[target].Dir?) ==> Inv(rest[target := t[tmp]]))
  {
    hide Renameat, RemoveAll;
    var tmp, target := pw.dir + [pw.tmpName], pw.dir + [pw.base];
    var rest := t - {tmp};
    assert Parent(tmp) == pw.dir && Leaf(tmp) == pw.tmpName && Parent(target) == pw.dir && Leaf(target) == pw.base;
    EntryPlaced(t, tmp);
    CleanLeaf(tmp);
    FileAlone(t, tmp);
    assert t == rest[tmp := t[tmp]];
    TmpCommitted(rest, target, pw.tmpName, t[tmp]);
    if !(target in t && t[target].Dir?) {
      InvFile(rest, target, t[tmp].data);
    }
  }
}
