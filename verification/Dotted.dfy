/** Setting dotted keys in nested JSON maps, in place: the walk creates the maps it misses
    and the structure stays a tree, so an update is visible on its own paths only. */
module Dotted {
  import opened Common
  import opened Text
  import Keys

  /** A JSON object; anything that is not an object is opaque to the walk. */
  class JsonMap {
    var entries: map<string, Value>

    constructor ()
      ensures entries == map[]
    {
      entries := map[];
    }
  }

  datatype Value = Scalar(data: string) | Nested(child: JsonMap)

  type Path = seq<string>

  // ---------------------------------------------------------------- the heap as a graph

  type Graph = map<JsonMap, map<string, Value>>

  ghost function Snapshot(nodes: set<JsonMap>): Graph
    reads nodes
  {
    map n | n in nodes :: n.entries
  }

  ghost predicate Edge(h: Graph, older n: JsonMap, k: string, older c: JsonMap) {
    n in h && k in h[n] && h[n][k] == Nested(c)
  }

  /** No map is shared and the root is nobody's child. */
  ghost predicate Tree(h: Graph, root: JsonMap) {
    && root in h
    && (forall n, k, c :: Edge(h, n, k, c) ==> c in h && c != root)
    && (forall n, k, m, l, c :: Edge(h, n, k, c) && Edge(h, m, l, c) ==> n == m && k == l)
  }

  /** The map at the end of a path, if every step is a map. */
  ghost function Reach(h: Graph, root: JsonMap, p: Path): JsonMap? {
    if p == [] then root
    else
      var n, k := Reach(h, root, p[..|p| - 1]), p[|p| - 1];
      if n != null && n in h && k in h[n] && h[n][k].Nested? then h[n][k].child else null
  }

  datatype Reading = Absent | Found(data: string) | Object

  /** What a path reads as. */
  ghost function Read(h: Graph, root: JsonMap, p: Path): Reading {
    if p == [] then Object
    else
      var n, k := Reach(h, root, p[..|p| - 1]), p[|p| - 1];
      if n == null || n !in h || k !in h[n] then Absent
      else if h[n][k].Nested? then Object
      else Found(h[n][k].data)
  }

  lemma {:induction false} ReachInside(h: Graph, root: JsonMap, p: Path)
    requires Tree(h, root) && Reach(h, root, p) != null
    ensures Reach(h, root, p) in h
    ensures p != [] ==> Reach(h, root, p) != root
    decreases |p|
  {
    if p != [] {
      ReachInside(h, root, p[..|p| - 1]);
      assert Edge(h, Reach(h, root, p[..|p| - 1]), p[|p| - 1], Reach(h, root, p));
    }
  }

  /** Two paths to the same map are the same path. */
  lemma {:induction false} ReachUnique(h: Graph, root: JsonMap, p: Path, q: Path)
    requires Tree(h, root) && Reach(h, root, p) != null && Reach(h, root, p) == Reach(h, root, q)
    ensures p == q
    decreases |p|
  {
    ReachInside(h, root, p);
    ReachInside(h, root, q);
    if p != [] && q != [] {
      var p0, q0 := p[..|p| - 1], q[..|q| - 1];
      ReachInside(h, root, p0);
      ReachInside(h, root, q0);
      assert Edge(h, Reach(h, root, p0), p[|p| - 1], Reach(h, root, p));
      assert Edge(h, Reach(h, root, q0), q[|q| - 1], Reach(h, root, p));
      ReachUnique(h, root, p0, q0);
      assert p == p0 + [p[|p| - 1]] && q == q0 + [q[|q| - 1]];
    }
  }

  // ---------------------------------------------------------------- one write

  predicate Below(p: Path, q: Path) { p <= q }

  /** Writing key `k` of the map at `p` is invisible to every path not through `p + [k]`. */
  lemma {:induction false} ReachFrame(h: Graph, g: Graph, root: JsonMap, p: Path, k: string, q: Path)
    requires Tree(h, root) && Reach(h, root, p) != null && Reach(h, root, p) in h && !Below(p + [k], q)
    requires forall n <- h :: n in g && (n != Reach(h, root, p) ==> g[n] == h[n])
    requires forall l: string :: l != k ==>
      (l in g[Reach(h, root, p)] <==> l in h[Reach(h, root, p)]) &&
      (l in g[Reach(h, root, p)] ==> g[Reach(h, root, p)][l] == h[Reach(h, root, p)][l])
    ensures Reach(g, root, q) == Reach(h, root, q) && Read(g, root, q) == Read(h, root, q)
    decreases |q|
  {
    if q != [] {
      var q0, l := q[..|q| - 1], q[|q| - 1];
      assert q == q0 + [l];
      assert Below(p + [k], q0) ==> Below(p + [k], q);
      ReachFrame(h, g, root, p, k, q0);
      var n := Reach(h, root, q0);
      if n != null {
        ReachInside(h, root, q0);
        if n == Reach(h, root, p) {
          ReachUnique(h, root, p, q0);
        }
      }
    }
  }

  lemma NotBelowSelf(p: Path, k: string)
    ensures !Below(p + [k], p)
  {
  }

  lemma {:induction false} NothingBelow(h: Graph, root: JsonMap, p: Path, q: Path)
    requires Read(h, root, p) != Object && Below(p, q) && p != []
    ensures Reach(h, root, q) == null && (q != p ==> Read(h, root, q) == Absent)
    decreases |q|
  {
    if q != p {
      var q0 := q[..|q| - 1];
      assert Below(p, q0);
      NothingBelow(h, root, p, q0);
    }
  }

  lemma ReadAt(h: Graph, root: JsonMap, p: Path, k: string)
    requires Reach(h, root, p) != null && Reach(h, root, p) in h
    ensures var n := Reach(h, root, p);
      Read(h, root, p + [k]) ==
        if k !in h[n] then Absent else if h[n][k].Nested? then Object else Found(h[n][k].data)
    ensures var n := Reach(h, root, p);
      k in h[n] && h[n][k].Nested? ==> Reach(h, root, p + [k]) == h[n][k].child
  {
    assert (p + [k])[..|p|] == p;
  }

  /** Storing a scalar: its path reads back, everything below it is gone, the rest is as before. */
  lemma StoreScalar(h: Graph, root: JsonMap, p: Path, k: string, v: string)
    requires Tree(h, root) && Reach(h, root, p) != null
    ensures Reach(h, root, p) in h
    ensures var n := Reach(h, root, p);
      var g := h[n := h[n][k := Scalar(v)]];
      && Tree(g, root)
      && forall q: Path :: Read(g, root, q) ==
           if q == p + [k] then Found(v) else if Below(p + [k], q) then Absent else Read(h, root, q)
  {
    ReachInside(h, root, p);
    var n := Reach(h, root, p);
    var g := h[n := h[n][k := Scalar(v)]];
    assert forall m, l, c :: Edge(g, m, l, c) ==> Edge(h, m, l, c);
    NotBelowSelf(p, k);
    ReachFrame(h, g, root, p, k, p);
    ReadAt(g, root, p, k);
    forall q: Path
      ensures Read(g, root, q) ==
        if q == p + [k] then Found(v) else if Below(p + [k], q) then Absent else Read(h, root, q)
    {
      if !Below(p + [k], q) {
        ReachFrame(h, g, root, p, k, q);
      } else if q != p + [k] {
        NothingBelow(g, root, p + [k], q);
      }
    }
  }

  /** Storing a fresh empty map where there was none: only its own path reads differently. */
  lemma StoreEmpty(h: Graph, root: JsonMap, p: Path, k: string, c: JsonMap)
    requires Tree(h, root) && Reach(h, root, p) != null && c !in h && Read(h, root, p + [k]) != Object
    ensures Reach(h, root, p) in h
    ensures var n := Reach(h, root, p);
      var g := h[c := map[]][n := h[n][k := Nested(c)]];
      && Tree(g, root) && Reach(g, root, p + [k]) == c
      && forall q: Path :: Read(g, root, q) == if q == p + [k] then Object else Read(h, root, q)
  {
    ReachInside(h, root, p);
    var n := Reach(h, root, p);
    var g := h[c := map[]][n := h[n][k := Nested(c)]];
    assert forall m, l, d :: Edge(g, m, l, d) ==> Edge(h, m, l, d) || (m == n && l == k && d == c);
    ReadAt(h, root, p, k);
    NotBelowSelf(p, k);
    ReachFrame(h, g, root, p, k, p);
    ReadAt(g, root, p, k);
    forall q: Path
      ensures Read(g, root, q) == if q == p + [k] then Object else Read(h, root, q)
    {
      if !Below(p + [k], q) {
        ReachFrame(h, g, root, p, k, q);
      } else if q != p + [k] {
        NothingBelow(h, root, p + [k], q);
        EmptyBelow(g, root, p + [k], q);
      }
    }
  }

  lemma {:induction false} EmptyBelow(g: Graph, root: JsonMap, p: Path, q: Path)
    requires Below(p, q) && p != q
    requires Reach(g, root, p) != null && Reach(g, root, p) in g && g[Reach(g, root, p)] == map[]
    ensures Read(g, root, q) == Absent && Reach(g, root, q) == null
    decreases |q|
  {
    var q0 := q[..|q| - 1];
    assert Below(p, q0);
    if q0 != p {
      EmptyBelow(g, root, p, q0);
    }
  }

  // ---------------------------------------------------------------- one dotted key

  /** What one dotted update means for the reading of a path. */
  function Updated(before: Reading, q: Path, parts: Path, v: string): Reading {
    if q == parts then Found(v)
    else if Below(parts, q) then Absent
    else if Below(q, parts) then Object
    else before
  }

  method SetDotted(root: JsonMap, parts: Path, val: string, ghost nodes: set<JsonMap>)
      returns (ghost after: set<JsonMap>)
    requires Tree(Snapshot(nodes), root) && parts != []
    modifies nodes
    ensures nodes <= after && fresh(after - nodes)
    ensures Tree(Snapshot(after), root)
    ensures forall q: Path ::
        Read(Snapshot(after), root, q) == Updated(Read(old(Snapshot(nodes)), root, q), q, parts, val)
  {
    hide Reach, Read, Tree, Edge;
    ghost var h0 := Snapshot(nodes);
    ghost var h := h0;
    after := nodes;
    var cur := root;
    ReachRoot(h, root);
    for i := 0 to |parts|
      invariant nodes <= after && fresh(after - nodes) && cur in after
      invariant h == Snapshot(after) && Tree(h, root)
      invariant i < |parts| && Reach(h, root, parts[..i]) == cur
      invariant forall q: Path :: Read(h, root, q) == if Below(q, parts[..i]) then Object else Read(h0, root, q)
    {
      var p := parts[i];
      ghost var here, next := parts[..i], parts[..i + 1];
      assert next == here + [p];
      ReadAt(h, root, here, p);
      if i == |parts| - 1 {
        StoreScalar(h, root, here, p, val);
        cur.entries := cur.entries[p := Scalar(val)];
        assert Snapshot(after) == h[cur := h[cur][p := Scalar(val)]];
        assert next == parts;
        forall q: Path
          ensures Read(Snapshot(after), root, q) == Updated(Read(h0, root, q), q, parts, val)
        {
          BelowNext(q, here, p);
        }
        return;
      }
      if p in cur.entries && cur.entries[p].Nested? {
        ChildInside(h, root, cur, p);
        cur := cur.entries[p].child;
        NestedOnTheWay(h, root, h0, here, p);
      } else {
        var made := new JsonMap();
        StoreEmpty(h, root, here, p, made);
        cur.entries := cur.entries[p := Nested(made)];
        after := after + {made};
        assert Snapshot(after) == h[made := map[]][cur := h[cur][p := Nested(made)]];
        h := Snapshot(after);
        cur := made;
        forall q: Path
          ensures Below(q, next) <==> Below(q, here) || q == next
        {
          BelowNext(q, here, p);
        }
      }
    }
  }

  lemma ReachRoot(h: Graph, root: JsonMap)
    requires Tree(h, root)
    ensures root in h && Reach(h, root, []) == root && Read(h, root, []) == Object
  {
  }

  lemma ChildInside(h: Graph, root: JsonMap, n: JsonMap, k: string)
    requires Tree(h, root) && n in h && k in h[n] && h[n][k].Nested?
    ensures h[n][k].child in h
  {
    assert Edge(h, n, k, h[n][k].child);
  }

  lemma BelowNext(q: Path, here: Path, p: string)
    ensures Below(q, here + [p]) <==> Below(q, here) || q == here + [p]
  {
    if Below(q, here + [p]) && |q| <= |here| {
      assert q == (here + [p])[..|q|] == here[..|q|];
    }
  }

  lemma NestedOnTheWay(h: Graph, root: JsonMap, h0: Graph, here: Path, p: string)
    requires Read(h, root, here + [p]) == Object
    requires forall q: Path :: Read(h, root, q) == if Below(q, here) then Object else Read(h0, root, q)
    ensures forall q: Path :: Read(h, root, q) == if Below(q, here + [p]) then Object else Read(h0, root, q)
  {
    forall q: Path
      ensures Read(h, root, q) == if Below(q, here + [p]) then Object else Read(h0, root, q)
    {
      BelowNext(q, here, p);
    }
  }

  // ---------------------------------------------------------------- all dotted keys

  datatype Edit = Edit(parts: Path, val: string)

  /** The reading of a path after a series of dotted updates. */
  function ReadAfter(before: Reading, q: Path, edits: seq<Edit>): Reading {
    if edits == [] then before
    else
      var e := edits[|edits| - 1];
      Updated(ReadAfter(before, q, edits[..|edits| - 1]), q, e.parts, e.val)
  }

  function Edits(keys: seq<string>, replace: map<string, string>, coerce: string -> string): (r: seq<Edit>)
    requires forall k <- keys :: k in replace
    ensures |r| == |keys|
    ensures forall i :: 0 <= i < |keys| ==>
      keys[i] in replace && r[i] == Edit(Split(keys[i], '.'), coerce(replace[keys[i]]))
  {
    seq(|keys|, i requires 0 <= i < |keys| =>
      assert keys[i] in keys; Edit(Split(keys[i], '.'), coerce(replace[keys[i]])))
  }

  /** Every path of `g` reads as in `h` after the edits. */
  ghost predicate ReadsAs(h: Graph, g: Graph, root: JsonMap, edits: seq<Edit>) {
    forall q: Path :: Read(g, root, q) == ReadAfter(Read(h, root, q), q, edits)
  }

  lemma NoEdits(h: Graph, root: JsonMap)
    ensures ReadsAs(h, h, root, [])
  {
  }

  lemma OneMoreEdit(h0: Graph, h: Graph, g: Graph, root: JsonMap, edits: seq<Edit>, i: nat)
    requires i < |edits| && ReadsAs(h0, h, root, edits[..i])
    requires forall q: Path :: Read(g, root, q) == Updated(Read(h, root, q), q, edits[i].parts, edits[i].val)
    ensures ReadsAs(h0, g, root, edits[..i + 1])
  {
    hide Read, Updated;
    assert edits[..i + 1][..i] == edits[..i] && edits[..i + 1][i] == edits[i];
  }

  /** The merge on an already parsed document; `coerce` is the typing of the new values. */
  method MergeJSON(root: JsonMap, replace: map<string, string>, coerce: string -> string, ghost nodes: set<JsonMap>)
      returns (ghost after: set<JsonMap>)
    requires Tree(Snapshot(nodes), root)
    modifies nodes
    ensures Tree(Snapshot(after), root) && nodes <= after && fresh(after - nodes)
    ensures ReadsAs(old(Snapshot(nodes)), Snapshot(after), root, Edits(Keys.Sorted(replace.Keys), replace, coerce))
  {
    hide Read, Tree, Updated, Split, ReadAfter, ReadsAs;
    ghost var h0 := Snapshot(nodes);
    after := nodes;
    var keys := Keys.SortedKeys(replace);
    ghost var edits := Edits(keys, replace, coerce);
    NoEdits(h0, root);
    for i := 0 to |keys|
      invariant Tree(Snapshot(after), root) && nodes <= after && fresh(after - nodes)
      invariant ReadsAs(h0, Snapshot(after), root, edits[..i])
    {
      assert keys[i] in keys;
      ghost var h := Snapshot(after);
      after := SetDotted(root, Split(keys[i], '.'), coerce(replace[keys[i]]), after);
      OneMoreEdit(h0, h, Snapshot(after), root, edits, i);
    }
    assert edits[..|keys|] == edits;
  }

  /** No component path is a prefix of another. */
  ghost predicate PrefixFree(edits: seq<Edit>) {
    forall i, j :: 0 <= i < |edits| && 0 <= j < |edits| && i != j ==> !Below(edits[i].parts, edits[j].parts)
  }

  /** For a prefix-free set each path has one meaning, whatever the order: a replaced path
      reads its value, what was below it is gone, what leads to it is an object, and a path
      unrelated to every replaced one reads as before. */
  lemma {:induction false} ClosedForm(before: Reading, q: Path, edits: seq<Edit>)
    requires PrefixFree(edits)
    ensures forall e <- edits :: q == e.parts ==> ReadAfter(before, q, edits) == Found(e.val)
    ensures forall e <- edits :: Below(e.parts, q) && q != e.parts ==> ReadAfter(before, q, edits) == Absent
    ensures forall e <- edits :: Below(q, e.parts) && q != e.parts ==> ReadAfter(before, q, edits) == Object
    ensures (forall e <- edits :: !Below(e.parts, q) && !Below(q, e.parts)) ==> ReadAfter(before, q, edits) == before
    decreases |edits|
  {
    hide Below, PrefixFree;
    if edits != [] {
      var init, last := edits[..|edits| - 1], edits[|edits| - 1];
      assert edits == init + [last];
      PrefixFreeInit(init, last);
      ClosedForm(before, q, init);
      BelowBoth(q, last.parts);
      BelowBoth(q, q);
      forall e | e in init
        ensures Below(e.parts, q) ==> !Below(q, last.parts) && !Below(last.parts, q)
        ensures Below(q, e.parts) ==> !Below(last.parts, q)
      {
        LastApart(init, last, e);
        Comparable(e.parts, last.parts, q);
      }
    }
  }

  lemma PrefixFreeInit(init: seq<Edit>, last: Edit)
    requires PrefixFree(init + [last])
    ensures PrefixFree(init)
  {
    hide Below;
    var edits := init + [last];
    assert forall i :: 0 <= i < |init| ==> init[i] == edits[i];
  }

  lemma BelowBoth(p: Path, q: Path)
    ensures Below(p, q) && Below(q, p) <==> p == q
  {
  }

  lemma LastApart(init: seq<Edit>, last: Edit, e: Edit)
    requires PrefixFree(init + [last]) && e in init
    ensures !Below(e.parts, last.parts) && !Below(last.parts, e.parts)
  {
    hide Below;
    var edits := init + [last];
    var i :| 0 <= i < |init| && init[i] == e;
    assert edits[i] == e && edits[|init|] == last;
  }

  /** Prefixes of one path are comparable, and being a prefix is transitive. */
  lemma Comparable(a: Path, b: Path, q: Path)
    ensures Below(a, q) && Below(b, q) ==> Below(a, b) || Below(b, a)
    ensures Below(a, q) && Below(q, b) ==> Below(a, b)
    ensures Below(b, q) && Below(q, a) ==> Below(b, a)
  {
    if Below(a, q) && Below(b, q) {
      assert a == q[..|a|] && b == q[..|b|];
    }
  }

  lemma SameEdits(a: seq<Edit>, b: seq<Edit>)
    requires multiset(a) == multiset(b)
    ensures forall e: Edit :: e in a <==> e in b
  {
    assert forall e: Edit :: (e in a <==> e in multiset(a)) && (e in b <==> e in multiset(b));
  }

  lemma FreeInAnyOrder(a: seq<Edit>, b: seq<Edit>)
    requires PrefixFree(a) && multiset(a) == multiset(b)
    ensures PrefixFree(b)
  {
    SameEdits(a, b);
    forall i, j | 0 <= i < |b| && 0 <= j < |b| && i != j
      ensures !Below(b[i].parts, b[j].parts)
    {
      TwoOccurrences(b, i, j);
      OnceOnly(a, b[i]);
      assert b[i] in a && b[j] in a;
    }
  }

  lemma TwoOccurrences(b: seq<Edit>, i: nat, j: nat)
    requires i < |b| && j < |b| && i != j
    ensures b[i] == b[j] ==> multiset(b)[b[i]] >= 2
  {
    var rest := Without(b, i);
    assert b[j] in rest ==> multiset(rest)[b[j]] >= 1;
  }

  /** One position taken out; every other position is still there. */
  lemma Without(a: seq<Edit>, i: nat) returns (rest: seq<Edit>)
    requires i < |a|
    ensures multiset(a) == multiset(rest) + multiset{a[i]}
    ensures forall j :: 0 <= j < |a| && j != i ==> a[j] in rest
  {
    rest := a[..i] + a[i + 1..];
    assert a == a[..i] + [a[i]] + a[i + 1..];
    forall j | 0 <= j < |a| && j != i
      ensures a[j] in rest
    {
      assert a[j] == rest[if j < i then j else j - 1];
    }
  }

  lemma {:induction false} OnceOnly(a: seq<Edit>, e: Edit)
    requires PrefixFree(a)
    ensures multiset(a)[e] <= 1
    decreases |a|
  {
    if a != [] {
      var init, last := a[..|a| - 1], a[|a| - 1];
      OnceOnly(init, e);
      assert a == init + [last];
      assert forall i :: 0 <= i < |init| ==> init[i] != last;
      assert last !in init;
      assert last !in multiset(init);
    }
  }

  ghost predicate OrderFree(a: seq<Edit>) {
    forall b: seq<Edit>, before: Reading, q: Path ::
      multiset(b) == multiset(a) ==> ReadAfter(before, q, b) == ReadAfter(before, q, a)
  }

  lemma AnyOrder(a: seq<Edit>, b: seq<Edit>, before: Reading, q: Path)
    requires PrefixFree(a) && multiset(b) == multiset(a)
    ensures ReadAfter(before, q, b) == ReadAfter(before, q, a)
  {
    FreeInAnyOrder(a, b);
    SameEdits(a, b);
    ClosedForm(before, q, a);
    ClosedForm(before, q, b);
  }

  /** The exact condition under which the order of the keys does not matter. */
  lemma OrderFreeIff(a: seq<Edit>)
    requires forall i, j :: 0 <= i < j < |a| ==> a[i].parts != a[j].parts
    ensures OrderFree(a) <==> PrefixFree(a)
  {
    if PrefixFree(a) {
      forall b: seq<Edit>, before: Reading, q: Path | multiset(b) == multiset(a)
        ensures ReadAfter(before, q, b) == ReadAfter(before, q, a)
      {
        AnyOrder(a, b, before, q);
      }
    } else {
      var i, j :| 0 <= i < |a| && 0 <= j < |a| && i != j && Below(a[i].parts, a[j].parts);
      LastWins(a, i, j);
    }
  }

  /** With one path below another, the later of the two updates decides. */
  lemma LastWins(a: seq<Edit>, i: nat, j: nat)
    requires i < |a| && j < |a| && i != j && Below(a[i].parts, a[j].parts) && a[i].parts != a[j].parts
    ensures !OrderFree(a)
  {
    hide Below, ReadAfter, Updated, OrderFree;
    var rest := PutLast(a, i, j);
    var b, c := rest + [a[i]] + [a[j]], rest + [a[j]] + [a[i]];
    var q := a[j].parts;
    AfterLast(rest + [a[i]], a[j], q);
    AfterLast(rest + [a[j]], a[i], q);
    OrderFreeAt(a, b, q);
    OrderFreeAt(a, c, q);
  }

  lemma OrderFreeAt(a: seq<Edit>, b: seq<Edit>, q: Path)
    requires multiset(b) == multiset(a)
    ensures OrderFree(a) ==> ReadAfter(Absent, q, b) == ReadAfter(Absent, q, a)
  {
    hide ReadAfter;
  }

  /** Two chosen updates moved to the end, in either order. */
  lemma PutLast(a: seq<Edit>, i: nat, j: nat) returns (rest: seq<Edit>)
    requires i < |a| && j < |a| && i != j
    ensures multiset(rest + [a[i]] + [a[j]]) == multiset(a) && multiset(rest + [a[j]] + [a[i]]) == multiset(a)
  {
    var most := Without(a, i);
    assert a[j] in most;
    var k :| 0 <= k < |most| && most[k] == a[j];
    rest := Without(most, k);
    assert multiset(rest + [a[i]] + [a[j]]) == multiset(rest) + multiset{a[i]} + multiset{a[j]};
    assert multiset(rest + [a[j]] + [a[i]]) == multiset(rest) + multiset{a[j]} + multiset{a[i]};
  }

  lemma AfterLast(init: seq<Edit>, e: Edit, q: Path)
    ensures q == e.parts ==> ReadAfter(Absent, q, init + [e]) == Found(e.val)
    ensures q != e.parts && Below(e.parts, q) ==> ReadAfter(Absent, q, init + [e]) == Absent
  {
    assert (init + [e])[..|init|] == init;
  }

  /** Distinct dotted keys are distinct paths, so the condition above applies to every merge. */
  lemma EditsAreDistinct(replace: map<string, string>, coerce: string -> string)
    ensures var edits := Edits(Keys.Sorted(replace.Keys), replace, coerce);
      forall i, j :: 0 <= i < j < |edits| ==> edits[i].parts != edits[j].parts
  {
    var keys := Keys.Sorted(replace.Keys);
    forall i, j | 0 <= i < j < |keys|
      ensures Split(keys[i], '.') != Split(keys[j], '.')
    {
      Keys.LessTotal(keys[i], keys[j]);
      JoinSplit(keys[i], '.');
      JoinSplit(keys[j], '.');
    }
  }

  /** On the text of the keys: when none of the paths is a prefix of another, the path named by
      `a.b.c` reads the value given with that text. */
  lemma TextReads(replace: map<string, string>, coerce: string -> string, before: Reading, p: Path)
    requires p != [] && (forall k <- p :: '.' !in k) && Join(p, '.') in replace
    requires PrefixFree(Edits(Keys.Sorted(replace.Keys), replace, coerce))
    ensures ReadAfter(before, p, Edits(Keys.Sorted(replace.Keys), replace, coerce)) ==
      Found(coerce(replace[Join(p, '.')]))
  {
    hide ReadAfter, Join, Split, Keys.Sorted;
    var keys := Keys.Sorted(replace.Keys);
    var edits := Edits(keys, replace, coerce);
    SplitJoin(p, '.');
    ClosedForm(before, p, edits);
    var i :| 0 <= i < |keys| && keys[i] == Join(p, '.');
    assert edits[i] in edits;
  }

  /** Two keys whose order shows: one names an object that the other writes into. */
  lemma OrderShows(v: string, w: string)
    ensures !OrderFree([Edit(["a"], v), Edit(["a", "b"], w)])
  {
    var edits := [Edit(["a"], v), Edit(["a", "b"], w)];
    assert Below(edits[0].parts, edits[1].parts);
    OrderFreeIff(edits);
  }
}
