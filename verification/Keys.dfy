/** Sorted key lists: the deterministic order in which replacements are applied. */
module Keys {
  /** Byte-wise string order; on valid text it is the order of code points. */
  predicate Less(a: string, b: string) {
    if b == "" then false
    else if a == "" then true
    else if a[0] != b[0] then a[0] < b[0]
    else Less(a[1..], b[1..])
  }

  /** The first character in which two strings differ decides; a proper prefix comes first. */
  lemma {:induction false} LessAt(a: string, b: string, i: nat)
    requires i <= |a| && i <= |b| && a[..i] == b[..i]
    ensures i < |a| && i < |b| && a[i] != b[i] ==> (Less(a, b) <==> a[i] < b[i])
    ensures i == |a| ==> (Less(a, b) <==> |a| < |b|)
    ensures i == |b| ==> !Less(a, b)
    decreases i
  {
    if i > 0 {
      assert a[0] == a[..i][0] == b[0];
      assert a[1..][..i - 1] == a[..i][1..] && b[1..][..i - 1] == b[..i][1..];
      LessAt(a[1..], b[1..], i - 1);
    }
  }

  lemma {:induction false} LessTotal(a: string, b: string)
    ensures a != b ==> Less(a, b) || Less(b, a)
    ensures !(Less(a, b) && Less(b, a)) && !Less(a, a)
    decreases |a|
  {
    if a != "" && b != "" {
      LessTotal(a[1..], b[1..]);
      LessTotal(a[1..], a[1..]);
      assert a == [a[0]] + a[1..] && b == [b[0]] + b[1..];
    } else if a != "" {
      LessTotal(a[1..], a[1..]);
    }
  }

  lemma {:induction false} LessTrans(a: string, b: string, c: string)
    requires Less(a, b) && Less(b, c)
    ensures Less(a, c)
    decreases |a|
  {
    if a != "" && a[0] == b[0] && b[0] == c[0] {
      LessTrans(a[1..], b[1..], c[1..]);
    }
  }

  ghost predicate Ascending(keys: seq<string>) {
    forall i, j :: 0 <= i < j < |keys| ==> Less(keys[i], keys[j])
  }

  /** The keys of `s`, each once, in ascending order. */
  ghost predicate IsSorted(keys: seq<string>, s: set<string>) {
    Ascending(keys) && forall k: string :: k in keys <==> k in s
  }

  /** There is only one such list. */
  lemma {:induction false} SortedUnique(a: seq<string>, b: seq<string>, s: set<string>)
    requires IsSorted(a, s) && IsSorted(b, s)
    ensures a == b
    decreases |a|
  {
    if a == [] {
      HeadIn(b);
    } else {
      assert a[0] in b;
      var j :| 0 <= j < |b| && b[j] == a[0];
      assert b[0] in b && b[0] in a;
      var i :| 0 <= i < |a| && a[i] == b[0];
      LessTotal(a[0], b[0]);
      assert a[0] == b[0];
      TailSorted(a, s);
      TailSorted(b, s);
      SortedUnique(a[1..], b[1..], s - {a[0]});
      assert a == [a[0]] + a[1..] && b == [b[0]] + b[1..];
    }
  }

  lemma HeadIn(a: seq<string>)
    ensures a == [] || a[0] in a
  {
  }

  lemma TailSorted(a: seq<string>, s: set<string>)
    requires IsSorted(a, s) && a != []
    ensures IsSorted(a[1..], s - {a[0]})
  {
    LessTotal(a[0], a[0]);
    assert forall k :: k in a <==> k == a[0] || k in a[1..];
    assert forall i :: 0 < i < |a| ==> a[i] != a[0];
  }

  function Insert(keys: seq<string>, k: string): (r: seq<string>)
    ensures forall x: string :: x in r <==> x in keys || x == k
  {
    if keys == [] then [k]
    else if Less(k, keys[0]) then
      assert forall x :: x in [k] + keys <==> x == k || x in keys;
      [k] + keys
    else
      assert forall x :: x in keys <==> x == keys[0] || x in keys[1..];
      [keys[0]] + Insert(keys[1..], k)
  }

  lemma {:induction false} InsertAscends(keys: seq<string>, k: string)
    requires Ascending(keys) && k !in keys
    ensures Ascending(Insert(keys, k))
    decreases |keys|
  {
    if keys == [] {
    } else if Less(k, keys[0]) {
      forall j | 0 < j < |keys|
        ensures Less(k, keys[j])
      {
        LessTrans(k, keys[0], keys[j]);
      }
    } else {
      LessTotal(k, keys[0]);
      InsertAscends(keys[1..], k);
      forall x | x in Insert(keys[1..], k)
        ensures Less(keys[0], x)
      {
        if x != k {
          var j :| 0 <= j < |keys| - 1 && keys[1..][j] == x;
          assert keys[j + 1] == x;
        }
      }
    }
  }

  ghost function Sorted(s: set<string>): (keys: seq<string>)
    ensures IsSorted(keys, s)
  {
    if s == {} then []
    else
      var k :| k in s;
      InsertAscends(Sorted(s - {k}), k);
      Insert(Sorted(s - {k}), k)
  }

  method SortedKeys(m: map<string, string>) returns (keys: seq<string>)
    ensures keys == Sorted(m.Keys)
  {
    keys := [];
    var todo := m.Keys;
    while todo != {}
      invariant todo <= m.Keys && Ascending(keys)
      invariant forall k: string :: k in keys <==> k in m.Keys - todo
      decreases todo
    {
      var k :| k in todo;
      todo := todo - {k};
      InsertAscends(keys, k);
      keys := Insert(keys, k);
    }
    SortedUnique(keys, Sorted(m.Keys), m.Keys);
  }
}
