/** Caller paths of the file manager: cleaning, the guard's resolution, and the recycle-bin
    test, from raw strings to component lists. The volume has no symbolic links, so the
    library's SecureJoin and path.Clean act on the text alone. */
module Paths {
  import opened Common
  import opened Text

  /** Components under the server root; the root itself is the empty path. */
  type Path = seq<string>

  const TRASH := ".raptor-trash"

  // ---------------------------------------------------------------- components

  /** A name a directory entry can have. */
  predicate ValidName(n: string) { n != "" && n != "." && n != ".." && '/' !in n }

  ghost predicate Clean(p: Path) { forall n <- p :: ValidName(n) }

  function Parent(p: Path): Path
    requires p != []
  {
    p[..|p| - 1]
  }

  function Leaf(p: Path): string
    requires p != []
  {
    p[|p| - 1]
  }

  /** One component applied lexically; `..` stays at the root. */
  function Step(p: Path, part: string): Path {
    if part == "" || part == "." then p
    else if part == ".." then (if p == [] then [] else Parent(p))
    else p + [part]
  }

  function CleanFrom(p: Path, parts: seq<string>): Path
    decreases |parts|
  {
    if parts == [] then p else CleanFrom(Step(p, parts[0]), parts[1..])
  }

  /** The components a caller string consists of, after trimming. */
  function Parts(rel: string): seq<string> { Split(TrimSpace(rel), '/') }

  /** What a caller string names. */
  function Resolve(rel: string): Path { CleanFrom([], Parts(rel)) }

  /** In the recycle bin, the bin directory included. */
  predicate InTrash(p: Path) { p != [] && p[0] == TRASH }

  lemma {:induction false} CleanConcat(p: Path, a: seq<string>, b: seq<string>)
    ensures CleanFrom(p, a + b) == CleanFrom(CleanFrom(p, a), b)
    decreases |a|
  {
    if a == [] {
      assert a + b == b;
    } else {
      CleanConcat(Step(p, a[0]), a[1..], b);
      assert (a + b)[1..] == a[1..] + b;
    }
  }

  /** What cleaning means, component by component: a name followed by `..` leaves no trace,
      wherever it stands, and neither do an empty component, a dot, or a `..` at the root. */
  lemma CleaningCancels(p: Path, a: seq<string>, n: string, b: seq<string>)
    ensures ValidName(n) ==> CleanFrom(p, a + [n, ".."] + b) == CleanFrom(p, a + b)
    ensures n == "" || n == "." ==> CleanFrom(p, a + [n] + b) == CleanFrom(p, a + b)
    ensures n == ".." && CleanFrom(p, a) == [] ==> CleanFrom(p, a + [n] + b) == CleanFrom(p, a + b)
  {
    var q := CleanFrom(p, a);
    CleanConcat(p, a, b);
    CleanConcat(p, a + [n], b);
    CleanConcat(p, a, [n]);
    CleanConcat(p, a + [n, ".."], b);
    CleanConcat(p, a, [n, ".."]);
    assert [n, ".."][1..] == [".."] && [n][1..] == [] && [".."][1..] == [];
    if ValidName(n) {
      assert Step(q, n) == q + [n] && Parent(q + [n]) == q;
    }
  }

  lemma {:induction false} CleanKeeps(p: Path, parts: seq<string>)
    requires Clean(p) && forall x <- parts :: '/' !in x
    ensures Clean(CleanFrom(p, parts))
    decreases |parts|
  {
    if parts != [] {
      assert parts[0] in parts;
      CleanKeeps(Step(p, parts[0]), parts[1..]);
    }
  }

  lemma {:induction false} CleanFixed(p: Path, q: Path)
    requires Clean(q)
    ensures CleanFrom(p, q) == p + q
    decreases |q|
  {
    if q != [] {
      assert q[0] in q;
      CleanFixed(p + [q[0]], q[1..]);
      assert p + [q[0]] + q[1..] == p + q;
    }
  }

  /** What the last step of a clean path is. */
  lemma CleanLeaf(p: Path)
    requires Clean(p) && p != []
    ensures ValidName(Leaf(p)) && Clean(Parent(p)) && p == Parent(p) + [Leaf(p)]
    ensures Leaf(p) != "" && Leaf(p) != "." && Leaf(p) != ".."
  {
    assert Leaf(p) in p;
  }

  lemma StepNothing(p: Path)
    ensures Step(p, "") == p
  {
  }

  /** Resolution always ends inside the root, with no `.`, `..` or empty component left. */
  lemma ResolveIsClean(rel: string)
    ensures Clean(Resolve(rel))
  {
    CleanKeeps([], Parts(rel));
  }

  // ---------------------------------------------------------------- text

  /** `/a/b` for a path, nothing for the root. */
  function Slashed(p: Path): string {
    if p == [] then "" else Slashed(Parent(p)) + "/" + Leaf(p)
  }

  /** The `/`-prefixed form used in API responses. */
  function Render(p: Path): string { if p == [] then "/" else Slashed(p) }

  /** path.Clean on a rooted path. */
  function CleanText(s: string): string { Render(CleanFrom([], Split(s, '/'))) }

  lemma {:induction false} SplitConcat(s: string, t: string)
    ensures Split(s + "/" + t, '/') == Split(s, '/') + Split(t, '/')
    decreases |s|
  {
    hide Split, Index;
    match Index(s, '/') {
      case None =>
        SplitPiece(s, t, '/');
        assert s + ['/'] + t == s + "/" + t;
      case Some(i) =>
        var head, tail := s[..i], s[i + 1..];
        SplitConcat(tail, t);
        SplitPiece(head, tail, '/');
        SplitPiece(head, tail + "/" + t, '/');
        assert s == head + ['/'] + tail && '/' !in head;
        assert s + "/" + t == head + ['/'] + (tail + "/" + t);
        assert [head] + (Split(tail, '/') + Split(t, '/')) == [head] + Split(tail, '/') + Split(t, '/');
    }
  }

  lemma SplitLast(s: string, name: string)
    requires '/' !in name
    ensures Split(s + "/" + name, '/') == Split(s, '/') + [name]
  {
    SplitConcat(s, name);
    SplitPiece(name, "", '/');
  }

  lemma {:induction false} SplitSlashed(p: Path)
    requires Clean(p)
    ensures Split(Slashed(p), '/') == [""] + p
    decreases |p|
  {
    hide Split;
    if p == [] {
      SplitPiece("", "", '/');
    } else {
      assert Leaf(p) in p;
      SplitSlashed(Parent(p));
      SplitLast(Slashed(Parent(p)), Leaf(p));
      assert p == Parent(p) + [Leaf(p)];
    }
  }

  lemma SplitRooted(s: string)
    ensures Split("/" + s, '/') == [""] + Split(s, '/')
  {
    SplitPiece("", s, '/');
    assert "" + ['/'] + s == "/" + s;
  }

  lemma CleanRooted(s: string)
    ensures CleanFrom([], Split("/" + s, '/')) == CleanFrom([], Split(s, '/'))
  {
    hide Split;
    SplitRooted(s);
    assert ([""] + Split(s, '/'))[1..] == Split(s, '/');
  }

  /** The rendered form of a clean path cleans to that path. */
  lemma CleanRendered(p: Path)
    requires Clean(p)
    ensures CleanFrom([], Split(Render(p), '/')) == p
    ensures CleanFrom([], Split(Slashed(p), '/')) == p
  {
    hide Split;
    SplitSlashed(p);
    CleanFixed([], p);
    assert ([""] + p)[1..] == p && [] + p == p;
    CleanRooted("");
    assert "/" + "" == "/";
  }

  /** Cleaning what was already cleaned changes nothing. */
  lemma CleanTextIdempotent(s: string)
    ensures CleanText(CleanText(s)) == CleanText(s)
  {
    hide Split, CleanFrom, Render;
    CleanKeeps([], Split(s, '/'));
    CleanRendered(CleanFrom([], Split(s, '/')));
  }

  /** The same on the text that is cleaned. */
  lemma TextCancels(x: string, n: string, y: string)
    requires '/' !in n
    ensures var plain := CleanFrom([], Split(x + "/" + y, '/'));
      && (ValidName(n) ==> CleanFrom([], Split(x + "/" + n + "/../" + y, '/')) == plain)
      && (n == "" || n == "." ==> CleanFrom([], Split(x + "/" + n + "/" + y, '/')) == plain)
      && (n == ".." && CleanFrom([], Split(x, '/')) == [] ==>
            CleanFrom([], Split(x + "/" + n + "/" + y, '/')) == plain)
  {
    hide Split, CleanFrom;
    var a, b := Split(x, '/'), Split(y, '/');
    SplitConcat(x, y);
    SplitLast(x, n);
    SplitConcat(x + "/" + n, y);
    assert (a + [n]) + b == a + [n] + b;
    SplitLast(x + "/" + n, "..");
    SplitConcat(x + "/" + n + "/" + "..", y);
    assert x + "/" + n + "/" + ".." + "/" + y == x + "/" + n + "/../" + y;
    assert a + [n] + [".."] == a + [n, ".."];
    CleaningCancels([], a, n, b);
  }

  lemma Regroup(a: string, b: string, c: string)
    ensures a + (b + c) == a + b + c
  {
  }

  lemma EndsWithSlash(a: string, mid: string, b: string)
    requires mid != "" && mid[0] == '/' && mid[|mid| - 1] == '/'
    ensures a + mid != "" && (a + mid)[|a + mid| - 1] == '/' && mid + b != "" && (mid + b)[0] == '/'
  {
  }

  /** Trimming stops at the slashes in the middle. */
  lemma TrimAround(x: string, mid: string, y: string)
    requires mid != "" && mid[0] == '/' && mid[|mid| - 1] == '/'
    ensures TrimSpace(x + mid + y) == TrimLeft(x) + mid + TrimRight(y)
  {
    hide TrimLeft, TrimRight;
    var l := TrimLeft(x);
    EndsWithSlash(l, mid, y);
    Regroup(x, mid, y);
    TrimLeftBefore(x, mid + y);
    Regroup(l, mid, y);
    TrimRightAfter(l + mid, y);
  }

  /** Two middles that clean alike between untrimmed ends clean alike in a caller string. */
  lemma ResolveAround(x: string, mid: string, y: string)
    requires mid != "" && mid[0] == '/' && mid[|mid| - 1] == '/'
    ensures Resolve(x + mid + y) == CleanFrom([], Split(TrimLeft(x) + mid + TrimRight(y), '/'))
  {
    hide CleanFrom, Split, TrimSpace, TrimLeft, TrimRight;
    TrimAround(x, mid, y);
  }

  /** What a caller string names does not depend on detours: `x/n/../y`, `x/./y` and `x//y`
      name what `x/y` names, and a `..` at the root is dropped. */
  lemma DetoursVanish(x: string, n: string, y: string)
    ensures ValidName(n) ==> Resolve(x + "/" + n + "/../" + y) == Resolve(x + "/" + y)
    ensures Resolve(x + "/./" + y) == Resolve(x + "/" + y) == Resolve(x + "//" + y)
    ensures Resolve("/../" + y) == Resolve("/" + y)
  {
    hide CleanFrom, Split, TrimLeft, TrimRight, Resolve;
    if ValidName(n) {
      ResolveAround(x, "/" + n + "/../", y);
      assert x + ("/" + n + "/../") + y == x + "/" + n + "/../" + y;
      var l, r := TrimLeft(x), TrimRight(y);
      assert l + ("/" + n + "/../") + r == l + "/" + n + "/../" + r;
      TextCancels(l, n, r);
    }
    ResolveAround(x, "/", y);
    DotVanishes(x, ".", y);
    DotVanishes(x, "", y);
    assert x + "/" + "." + "/" + y == x + "/./" + y && x + "/" + "" + "/" + y == x + "//" + y;
    RootDetour(y);
  }

  lemma DotVanishes(x: string, n: string, y: string)
    requires n == "" || n == "."
    ensures Resolve(x + "/" + n + "/" + y) == Resolve(x + "/" + y)
  {
    hide CleanFrom, Split, TrimLeft, TrimRight, Resolve;
    var l, r := TrimLeft(x), TrimRight(y);
    ResolveAround(x, "/" + n + "/", y);
    ResolveAround(x, "/", y);
    assert x + ("/" + n + "/") + y == x + "/" + n + "/" + y && l + ("/" + n + "/") + r == l + "/" + n + "/" + r;
    TextCancels(l, n, r);
  }

  lemma RootDetour(y: string)
    ensures Resolve("/../" + y) == Resolve("/" + y)
  {
    hide CleanFrom, Split, TrimLeft, TrimRight, Resolve;
    ResolveAround("", "/../", y);
    ResolveAround("", "/", y);
    RootCancels(TrimRight(y));
    EmptyPrefix("/../", y);
    EmptyPrefix("/", y);
    TrimLeftIs("");
  }

  lemma EmptyPrefix(mid: string, y: string)
    ensures "" + mid + y == mid + y
  {
  }

  lemma RootCancels(y: string)
    ensures CleanFrom([], Split("" + "/../" + y, '/')) == CleanFrom([], Split("" + "/" + y, '/'))
  {
    hide CleanFrom, Split;
    EmptyText();
    TextCancels("", "..", y);
    assert "" + "/" + ".." + "/" + y == "" + "/../" + y;
  }

  /** The operation's view of a caller string: splitParent cleans `"/" + rel`. */
  function SplitParent(rel: string): Option<(Path, string)> {
    var clean := CleanText("/" + TrimSpace(rel));
    if clean == "/" then None
    else
      var p := CleanFrom([], Split(clean, '/'));
      if p == [] then None else Some((Parent(p), Leaf(p)))
  }

  lemma SlashedIsRoot(p: Path)
    requires Clean(p)
    ensures Render(p) == "/" <==> p == []
  {
    if p != [] {
      assert Leaf(p) in p;
    }
  }

  /** The text the operation acts on is the path the guard resolved. */
  lemma OperationNamesResolved(rel: string)
    ensures CleanText("/" + TrimSpace(rel)) == Render(Resolve(rel))
    ensures SplitParent(rel) == (if Resolve(rel) == [] then None else Some((Parent(Resolve(rel)), Leaf(Resolve(rel)))))
  {
    hide Split, CleanFrom, Render, TrimSpace;
    CleanRooted(TrimSpace(rel));
    ResolveIsClean(rel);
    SlashedIsRoot(Resolve(rel));
    CleanRendered(Resolve(rel));
  }

  lemma JoinStep(cur: Path, part: string)
    requires Clean(cur) && '/' !in part
    ensures CleanText("/" + Slashed(cur) + "/" + part) == Render(Step(cur, part))
  {
    hide Split, Slashed, Step;
    var text := Slashed(cur) + "/" + part;
    assert "/" + Slashed(cur) + "/" + part == "/" + text;
    CleanRooted(text);
    SplitLast(Slashed(cur), part);
    CleanConcat([], Split(Slashed(cur), '/'), [part]);
    CleanRendered(cur);
    assert [part][1..] == [];
  }

  /** The guard: SecureJoin walks the components one by one on text, without links to follow. */
  method SecureJoin(root: string, unsafePath: string) returns (abs: string)
    ensures abs == root + Slashed(CleanFrom([], Split(unsafePath, '/')))
  {
    hide CleanText, Split, Slashed, CleanFrom, Step;
    var currentPath, remaining := "", unsafePath;
    ghost var cur: Path := [];
    EmptyText();
    while remaining != ""
      invariant Clean(cur) && currentPath == Slashed(cur)
      invariant CleanFrom(cur, Split(remaining, '/')) == CleanFrom([], Split(unsafePath, '/'))
      decreases |remaining|
    {
      var part: string;
      ghost var before := remaining;
      match Index(remaining, '/') {
        case None => part, remaining := remaining, "";
        case Some(i) => part, remaining := remaining[..i], remaining[i + 1..];
      }
      TakePart(cur, before);
      var nextPath := CleanText("/" + currentPath + "/" + part);
      JoinStep(cur, part);
      CleanStep(cur, part);
      cur := Step(cur, part);
      SlashedIsRoot(cur);
      currentPath := if nextPath == "/" then "" else nextPath;
    }
    EmptyText();
    abs := root + currentPath;
  }

  lemma EmptyText()
    ensures Slashed([]) == "" && Split("", '/') == [""]
    ensures forall p: Path :: CleanFrom(p, [""]) == p
  {
    forall p: Path
      ensures CleanFrom(p, [""]) == p
    {
      assert [""][1..] == [];
    }
  }

  lemma CleanStep(cur: Path, part: string)
    requires Clean(cur) && '/' !in part
    ensures Clean(Step(cur, part))
    ensures Slashed(Step(cur, part)) == if Step(cur, part) == [] then "" else Render(Step(cur, part))
  {
  }

  /** Taking the first component off the text is taking the first piece off the split. */
  lemma TakePart(cur: Path, text: string)
    ensures match Index(text, '/')
      case None => '/' !in text && CleanFrom(cur, Split(text, '/')) == CleanFrom(Step(cur, text), [""])
      case Some(i) =>
        && '/' !in text[..i]
        && CleanFrom(cur, Split(text, '/')) == CleanFrom(Step(cur, text[..i]), Split(text[i + 1..], '/'))
  {
    hide Index, Split, Step;
    match Index(text, '/') {
      case None =>
        SplitPiece(text, "", '/');
        assert [text][1..] == [];
        EmptyText();
      case Some(i) =>
        var part, rest := text[..i], text[i + 1..];
        assert text == part + ['/'] + rest;
        SplitPiece(part, rest, '/');
        assert ([part] + Split(rest, '/'))[1..] == Split(rest, '/');
    }
  }

  // ---------------------------------------------------------------- the recycle bin as text

  function TrashRoot(root: string): string { root + "/" + TRASH }

  /** The guard's test on absolute paths. */
  predicate WithinTrash(root: string, abs: string) {
    abs == TrashRoot(root) || HasPrefix(abs, TrashRoot(root) + "/")
  }

  lemma {:induction false} SlashedSplits(n: string, rest: Path)
    ensures Slashed([n] + rest) == "/" + n + Slashed(rest)
    decreases |rest|
  {
    if rest == [] {
      assert [n] + rest == [n] && Parent([n]) == [] && Slashed([]) == "";
      assert "" + "/" + n == "/" + n && "/" + n + "" == "/" + n;
    } else {
      SlashedSplits(n, Parent(rest));
      assert Parent([n] + rest) == [n] + Parent(rest) && Leaf([n] + rest) == Leaf(rest);
    }
  }

  lemma {:induction false} SlashedStarts(p: Path)
    ensures p != [] ==> Slashed(p) != "" && Slashed(p)[0] == '/'
    decreases |p|
  {
    if p != [] {
      SlashedStarts(Parent(p));
    }
  }

  /** The textual prefix test on the resolved path is exactly the component test: a sibling
      such as `.raptor-trash2` is not caught, and nothing in the bin slips through. */
  lemma WithinTrashIsInTrash(root: string, p: Path)
    requires Clean(p)
    ensures WithinTrash(root, root + Slashed(p)) <==> InTrash(p)
    ensures root + Slashed(p) == root <==> p == []
  {
    SlashedStarts(p);
    var bin := "/" + TRASH;
    assert TrashRoot(root) == root + bin && TrashRoot(root) + "/" == root + (bin + "/");
    PrefixShift(root, bin, Slashed(p));
    PrefixShift(root, bin + "/", Slashed(p));
    if p != [] {
      var n, rest := p[0], p[1..];
      assert p == [n] + rest && n in p;
      SlashedSplits(n, rest);
      SlashedStarts(rest);
      hide Slashed;
      TrashPrefix(n, Slashed(rest));
    }
  }

  lemma PrefixShift(root: string, pre: string, s: string)
    ensures root + pre <= root + s <==> pre <= s
    ensures root + s == root + pre <==> s == pre
  {
    assert (root + s)[|root|..] == s && (root + pre)[|root|..] == pre;
    assert root + pre <= root + s ==> (root + s)[..|root| + |pre|][|root|..] == s[..|pre|];
    assert pre <= s ==> root + s == root + pre + s[|pre|..];
  }

  /** The text before the first slash is determined by the whole. */
  lemma FirstPiece(a: string, u: string, b: string, v: string)
    requires '/' !in a && '/' !in b && a + "/" + u == b + "/" + v
    ensures a == b && u == v
  {
    var s, t := a + "/" + u, b + "/" + v;
    assert s[..|a|] == a && t[..|b|] == b;
    IndexIs(s, '/', |a|);
    IndexIs(t, '/', |b|);
    assert s[|a| + 1..] == u && t[|b| + 1..] == v;
  }

  lemma TrashFirst(n: string, tail: string)
    requires '/' !in n && (tail == "" || tail[0] == '/')
    requires "/" + n + tail == "/" + TRASH || "/" + TRASH + "/" <= "/" + n + tail
    ensures n == TRASH
  {
    var s, bin := "/" + n + tail, "/" + TRASH + "/";
    var more := if tail == "" then "" else tail[1..] + "/";
    var after := (s + "/")[|bin|..];
    assert s + "/" == "/" + (n + "/" + more) && (s + "/")[1..] == n + "/" + more;
    assert s + "/" == bin + after && (s + "/")[1..] == TRASH + "/" + after;
    FirstPiece(n, more, TRASH, after);
  }

  lemma TrashPrefix(n: string, tail: string)
    requires '/' !in n && (tail == "" || tail[0] == '/')
    ensures "/" + n + tail == "/" + TRASH <==> n == TRASH && tail == ""
    ensures "/" + TRASH + "/" <= "/" + n + tail <==> n == TRASH && tail != ""
  {
    if "/" + n + tail == "/" + TRASH || "/" + TRASH + "/" <= "/" + n + tail {
      TrashFirst(n, tail);
    }
    if n == TRASH {
      assert tail != "" ==> "/" + n + tail == "/" + TRASH + "/" + tail[1..];
      assert tail == "" ==> "/" + n + tail == "/" + TRASH;
    }
  }
}
