/** What a properties merge means: the old file overridden by the replacements, and when
    merging twice is the same as merging once. */
module PropertiesTheorems {
  import opened Common
  import opened Text
  import opened Properties
  import Keys

  // ---------------------------------------------------------------- carriage returns

  predicate EndsCR(s: string) { s != "" && s[|s| - 1] == '\r' }

  function StripCR(s: string): string { if EndsCR(s) then s[..|s| - 1] else s }

  /** What CRLF normalisation leaves of joined lines: all but the last lose one trailing CR. */
  function DropCR(lines: seq<string>): (r: seq<string>)
    ensures |r| == |lines|
    ensures forall i :: 0 <= i < |lines| ==> r[i] == if i < |lines| - 1 then StripCR(lines[i]) else lines[i]
  {
    seq(|lines|, i requires 0 <= i < |lines| => if i < |lines| - 1 then StripCR(lines[i]) else lines[i])
  }

  lemma PairHasFeed(p: string)
    ensures "\r\n" <= p ==> p[0] == '\r' && p[1] == '\n' && '\n' in p
  {
  }

  lemma {:induction false} NormalisedPlain(p: string)
    requires '\n' !in p
    ensures Normalised(p) == p
    decreases |p|
  {
    if p != "" {
      assert p == [p[0]] + p[1..];
      PairHasFeed(p);
      NormalisedPlain(p[1..]);
    }
  }

  lemma NormalisedChar(c: char, s: string)
    requires c != '\r' || s == "" || s[0] != '\n'
    ensures Normalised([c] + s) == [c] + Normalised(s)
  {
    var x := [c] + s;
    assert x[1..] == s && (s != "" ==> x[1] == s[0]);
    PairHasFeed(x);
  }

  lemma NormalisedPair(s: string)
    ensures Normalised("\r\n" + s) == "\n" + Normalised(s)
  {
    assert ("\r\n" + s)[2..] == s;
  }

  lemma {:induction false} NormalisedLine(p: string, rest: string)
    requires '\n' !in p
    ensures Normalised(p + "\n" + rest) == StripCR(p) + "\n" + Normalised(rest)
    decreases |p|
  {
    hide Normalised, StripCR;
    NothingStripped();
    if p == "" {
      NormalisedChar('\n', rest);
      assert p + "\n" + rest == ['\n'] + rest && StripCR(p) == "";
    } else if p == "\r" {
      NormalisedPair(rest);
      assert p + "\n" + rest == "\r\n" + rest && StripCR(p) == "";
    } else {
      var tail := p[1..] + "\n" + rest;
      assert p + "\n" + rest == [p[0]] + tail;
      NextChar(p, rest);
      NormalisedChar(p[0], tail);
      NormalisedLine(p[1..], rest);
      StripAfter(p);
      assert [p[0]] + (StripCR(p[1..]) + "\n" + Normalised(rest)) == StripCR(p) + "\n" + Normalised(rest);
    }
  }

  lemma NothingStripped()
    ensures StripCR("") == "" && StripCR("\r") == ""
  {
  }

  lemma NextChar(p: string, rest: string)
    requires p != "" && '\n' !in p && p != "\r"
    ensures p[0] != '\r' || (p[1..] + "\n" + rest)[0] != '\n'
  {
    if p[0] == '\r' {
      assert |p| > 1 && p[1] in p;
    }
  }

  lemma StripAfter(p: string)
    requires p != "" && p != "\r"
    ensures StripCR(p) == [p[0]] + StripCR(p[1..])
  {
  }

  ghost predicate Feedless(lines: seq<string>) { forall l <- lines :: '\n' !in l }

  lemma {:induction false} NormalisedJoin(lines: seq<string>)
    requires |lines| >= 1 && Feedless(lines)
    ensures Normalised(Join(lines, '\n')) == Join(DropCR(lines), '\n')
    decreases |lines|
  {
    if |lines| == 1 {
      NormalisedPlain(lines[0]);
      assert DropCR(lines) == lines;
    } else {
      NormalisedLine(lines[0], Join(lines[1..], '\n'));
      NormalisedJoin(lines[1..]);
      assert DropCR(lines)[1..] == DropCR(lines[1..]);
    }
  }

  /** The lines a second pass reads. */
  lemma LinesOfJoin(lines: seq<string>)
    requires |lines| >= 1 && Feedless(lines)
    ensures Lines(Join(lines, '\n')) == DropCR(lines) && Feedless(DropCR(lines))
  {
    hide Split, Join, Normalised, StripCR, DropCR;
    NormalisedJoin(lines);
    DropCRFeedless(lines);
    SplitJoin(DropCR(lines), '\n');
  }

  lemma DropCRFeedless(lines: seq<string>)
    requires Feedless(lines)
    ensures Feedless(DropCR(lines))
  {
    hide StripCR;
    forall l | l in DropCR(lines)
      ensures '\n' !in l
    {
      var i :| 0 <= i < |lines| && DropCR(lines)[i] == l;
      assert lines[i] in lines;
      StripFeedless(lines[i]);
    }
  }

  lemma StripFeedless(line: string)
    requires '\n' !in line
    ensures '\n' !in StripCR(line)
  {
  }

  lemma StripKeepsEntry(line: string)
    ensures KeyOf(StripCR(line)) == KeyOf(line) && EntryOf(StripCR(line)) == EntryOf(line)
  {
    hide TrimSpace;
    if EndsCR(line) {
      var short := StripCR(line);
      assert line == short + ['\r'];
      TrimSpaceTrailing(short, '\r');
      match Index(short, '=') {
        case Some(eq) =>
          assert line[..eq] == short[..eq] && line[eq + 1..] == short[eq + 1..] + ['\r'];
          IndexIs(line, '=', eq);
          TrimSpaceTrailing(short[eq + 1..], '\r');
        case None =>
      }
    }
  }

  // ---------------------------------------------------------------- entries

  lemma {:induction false} EntriesPointwise(a: seq<string>, b: seq<string>)
    requires |a| == |b| && forall i :: 0 <= i < |a| ==> EntryOf(a[i]) == EntryOf(b[i])
    ensures Entries(a) == Entries(b)
    decreases |a|
  {
    if a != [] {
      EntriesPointwise(a[..|a| - 1], b[..|b| - 1]);
    }
  }

  lemma {:induction false} EntriesConcat(a: seq<string>, b: seq<string>)
    ensures Entries(a + b) == Entries(a) + Entries(b)
    decreases |b|
  {
    hide EntryOf;
    if b == [] {
      assert a + b == a;
    } else {
      var init := b[..|b| - 1];
      EntriesConcat(a, init);
      assert (a + b)[..|a + b| - 1] == a + init && (a + b)[|a + b| - 1] == b[|b| - 1];
    }
  }

  lemma RewrittenEntry(line: string, replace: map<string, string>)
    requires Writable(replace)
    ensures EntryOf(Rewritten(line, replace)) ==
      match EntryOf(line)
      case Some((k, v)) => Some((k, if k in replace then TrimSpace(replace[k]) else v))
      case None => None
  {
    hide KeyOf, EntryOf, Trimmed, TrimSpace, Index;
    EntryKey(line);
    match KeyOf(line) {
      case Some(k) => if k in replace { KeyLine(k, replace[k]); }
      case None =>
    }
  }

  lemma {:induction false} RewrittenEntries(lines: seq<string>, replace: map<string, string>)
    requires Writable(replace)
    ensures Entries(RewriteAll(lines, replace)) == Override(Entries(lines), replace)
    decreases |lines|
  {
    hide EntryOf, Rewritten, Writable;
    if lines == [] {
      assert RewriteAll(lines, replace) == [];
    } else {
      var init, last := lines[..|lines| - 1], lines[|lines| - 1];
      RewrittenEntries(init, replace);
      RewrittenEntry(last, replace);
      assert RewriteAll(lines, replace)[..|lines| - 1] == RewriteAll(init, replace);
    }
  }

  lemma {:induction false} AppendedEntries(keys: seq<string>, seen: set<string>, replace: map<string, string>)
    requires Writable(replace)
    ensures Entries(Appended(keys, seen, replace)) == Missing(keys, seen, replace)
    decreases |keys|
  {
    if keys != [] {
      var init, k := keys[..|keys| - 1], keys[|keys| - 1];
      AppendedEntries(init, seen, replace);
      if k in replace && k !in seen {
        KeyLine(k, replace[k]);
        assert Appended(keys, seen, replace)[..|Appended(init, seen, replace)|] == Appended(init, seen, replace);
      } else {
        assert Appended(keys, seen, replace) == Appended(init, seen, replace);
      }
    }
  }

  // ---------------------------------------------------------------- the merged lines

  lemma {:induction false} AppendedLine(keys: seq<string>, seen: set<string>, replace: map<string, string>, i: nat)
      returns (k: string)
    requires i < |Appended(keys, seen, replace)|
    ensures k in replace && Appended(keys, seen, replace)[i] == k + "=" + replace[k]
    decreases |keys|
  {
    var init := keys[..|keys| - 1];
    if i < |Appended(init, seen, replace)| {
      k := AppendedLine(init, seen, replace, i);
    } else {
      k := keys[|keys| - 1];
    }
  }

  lemma {:induction false} AppendedHas(keys: seq<string>, seen: set<string>, replace: map<string, string>, k: string)
      returns (i: nat)
    requires k in keys && k in replace && k !in seen
    ensures i < |Appended(keys, seen, replace)| && Appended(keys, seen, replace)[i] == k + "=" + replace[k]
    decreases |keys|
  {
    var init := keys[..|keys| - 1];
    if k == keys[|keys| - 1] {
      i := |Appended(init, seen, replace)|;
    } else {
      i := AppendedHas(init, seen, replace, k);
    }
  }

  /** A merged line is an old line left alone, or the written form of a replaced key. */
  lemma OutLineKind(existing: string, replace: map<string, string>, i: nat) returns (written: Option<string>)
    requires i < |OutLines(existing, replace)|
    ensures var base, l := BaseLines(existing), OutLines(existing, replace)[i];
      match written
      case Some(k) => k in replace && l == k + "=" + replace[k]
      case None =>
        && i < |base| && l == base[i] && Rewritten(base[i], replace) == base[i]
        && (KeyOf(l).Some? ==> KeyOf(l).value !in replace)
  {
    hide KeyOf;
    var base := BaseLines(existing);
    var more := Appended(Keys.Sorted(replace.Keys), Seen(base, replace), replace);
    if i < |base| {
      written := match KeyOf(base[i]) case Some(k) => (if k in replace then Some(k) else None) case None => None;
    } else {
      var k := AppendedLine(Keys.Sorted(replace.Keys), Seen(base, replace), replace, i - |base|);
      assert OutLines(existing, replace)[i] == more[i - |base|];
      written := Some(k);
    }
  }

  lemma OutLinesFeedless(existing: string, replace: map<string, string>)
    requires Writable(replace)
    ensures Feedless(OutLines(existing, replace))
  {
    hide KeyOf, Appended, Seen, Rewritten;
    var out := OutLines(existing, replace);
    forall l | l in out
      ensures '\n' !in l
    {
      var i :| 0 <= i < |out| && out[i] == l;
      var k := OutLineKind(existing, replace, i);
      if k.None? {
        assert BaseLines(existing)[i] in BaseLines(existing);
      }
    }
  }

  lemma EmptyOutLines(existing: string, replace: map<string, string>)
    requires Writable(replace)
    ensures Merged(existing, replace) == "" <==> OutLines(existing, replace) == []
    ensures OutLines(existing, replace) == [] ==> existing == "" && replace == map[]
  {
    var base, out := BaseLines(existing), OutLines(existing, replace);
    if existing == "" {
      forall k | k in replace
        ensures out != []
      {
        var i := AppendedHas(Keys.Sorted(replace.Keys), Seen(base, replace), replace, k);
        assert |out| > i;
      }
    }
    if |out| == 1 {
      var k := OutLineKind(existing, replace, 0);
      if k.None? {
        JoinSplit(Normalised(existing), '\n');
        assert base[0] != "";
      }
    }
  }

  lemma EmptyReadsAlike(existing: string, replace: map<string, string>)
    ensures Entries(BaseLines(existing)) == Entries(Lines(existing))
    ensures Seen(BaseLines(existing), replace) == Seen(Lines(existing), replace)
    ensures existing == "" ==> BaseLines(existing) == [] && Entries(Lines("")) == [] && Seen(Lines(""), replace) == {}
  {
    EmptyHasNoKeys(replace);
    assert [""][..0] == [];
  }

  /** Reading the merged file gives the old entries with replaced values, then the missing
      keys in sorted order. */
  lemma MergedEntries(existing: string, replace: map<string, string>)
    requires Writable(replace)
    ensures Entries(Lines(Merged(existing, replace))) ==
      Override(Entries(Lines(existing)), replace) +
      Missing(Keys.Sorted(replace.Keys), Seen(Lines(existing), replace), replace)
  {
    var base, out := BaseLines(existing), OutLines(existing, replace);
    var keys := Keys.Sorted(replace.Keys);
    EmptyReadsAlike(existing, replace);
    hide Lines, EntryOf, Appended, Missing, Override, Seen, Rewritten, Writable, Entries;
    RewrittenEntries(base, replace);
    AppendedEntries(keys, Seen(base, replace), replace);
    EntriesConcat(RewriteAll(base, replace), Appended(keys, Seen(base, replace), replace));
    EmptyOutLines(existing, replace);
    if out != [] {
      OutLinesFeedless(existing, replace);
      LinesOfJoin(out);
      forall i | 0 <= i < |out|
        ensures EntryOf(DropCR(out)[i]) == EntryOf(out[i])
      {
        StripKeepsEntry(out[i]);
      }
      EntriesPointwise(DropCR(out), out);
    }
  }

  // ---------------------------------------------------------------- override

  function ValuesOf(entries: seq<(string, string)>, key: string): seq<string> {
    if entries == [] then []
    else
      ValuesOf(entries[..|entries| - 1], key) +
      (if entries[|entries| - 1].0 == key then [entries[|entries| - 1].1] else [])
  }

  lemma {:induction false} ValuesConcat(a: seq<(string, string)>, b: seq<(string, string)>, key: string)
    ensures ValuesOf(a + b, key) == ValuesOf(a, key) + ValuesOf(b, key)
    decreases |b|
  {
    if b == [] {
      assert a + b == a;
    } else {
      ValuesConcat(a, b[..|b| - 1], key);
      assert (a + b)[..|a + b| - 1] == a + b[..|b| - 1];
    }
  }

  lemma {:induction false} ValuesOverride(es: seq<(string, string)>, replace: map<string, string>, key: string)
    ensures |ValuesOf(Override(es, replace), key)| == |ValuesOf(es, key)|
    ensures key !in replace ==> ValuesOf(Override(es, replace), key) == ValuesOf(es, key)
    ensures key in replace ==> forall v <- ValuesOf(Override(es, replace), key) :: v == TrimSpace(replace[key])
    decreases |es|
  {
    if es != [] {
      ValuesOverride(es[..|es| - 1], replace, key);
      assert Override(es, replace)[..|es| - 1] == Override(es[..|es| - 1], replace);
    }
  }

  lemma MissingStep(init: seq<string>, k: string, seen: set<string>, replace: map<string, string>)
    ensures Missing(init + [k], seen, replace) ==
      Missing(init, seen, replace) + (if k in replace && k !in seen then [(k, TrimSpace(replace[k]))] else [])
  {
    hide TrimSpace;
    assert (init + [k])[..|init|] == init;
  }

  lemma NoValues(key: string)
    ensures ValuesOf([], key) == []
  {
  }

  lemma ValuesOfOne(e: (string, string), key: string)
    ensures ValuesOf([e], key) == if e.0 == key then [e.1] else []
  {
    assert [e][..0] == [];
  }

  lemma {:induction false} ValuesMissing(keys: seq<string>, seen: set<string>, replace: map<string, string>,
                                         key: string)
    requires Keys.Ascending(keys)
    ensures ValuesOf(Missing(keys, seen, replace), key) ==
      if key in keys && key in replace && key !in seen then [TrimSpace(replace[key])] else []
    decreases |keys|
  {
    hide TrimSpace, ValuesOf;
    if keys == [] {
      NoValues(key);
    } else {
      var init, k := keys[..|keys| - 1], keys[|keys| - 1];
      assert keys == init + [k];
      ValuesMissing(init, seen, replace, key);
      LastIsNew(keys);
      MissingStep(init, k, seen, replace);
      if k in replace && k !in seen {
        ValuesConcat(Missing(init, seen, replace), [(k, TrimSpace(replace[k]))], key);
        ValuesOfOne((k, TrimSpace(replace[k])), key);
      } else {
        assert Missing(init, seen, replace) + [] == Missing(init, seen, replace);
      }
    }
  }

  lemma LastIsNew(keys: seq<string>)
    requires Keys.Ascending(keys) && keys != []
    ensures keys[|keys| - 1] !in keys[..|keys| - 1]
  {
    forall i | 0 <= i < |keys| - 1
      ensures keys[i] != keys[|keys| - 1]
    {
      Keys.LessTotal(keys[i], keys[|keys| - 1]);
    }
  }

  lemma EntryKey(line: string)
    ensures EntryOf(line).Some? <==> KeyOf(line).Some?
    ensures EntryOf(line).Some? ==> KeyOf(line) == Some(EntryOf(line).value.0)
  {
    hide TrimSpace, Index;
  }

  lemma {:induction false} SeenHasValues(lines: seq<string>, replace: map<string, string>, key: string)
    ensures key in Seen(lines, replace) <==> key in replace && ValuesOf(Entries(lines), key) != []
    decreases |lines|
  {
    hide EntryOf, KeyOf;
    if lines != [] {
      var init := lines[..|lines| - 1];
      SeenHasValues(init, replace, key);
      EntryKey(lines[|lines| - 1]);
      match EntryOf(lines[|lines| - 1]) {
        case Some(e) =>
          assert Entries(lines)[..|Entries(init)|] == Entries(init);
        case None =>
          assert Entries(lines) == Entries(init);
      }
    }
  }

  /** Comments, blanks and unrelated entries stay where they were, line for line; a carriage
      return at the end of one is lost where another line follows. */
  lemma LinesStay(existing: string, replace: map<string, string>, i: nat)
    requires Writable(replace) && i < |BaseLines(existing)|
    ensures var line, out := BaseLines(existing)[i], Lines(Merged(existing, replace));
      && i < |out|
      && (KeyOf(line).None? || KeyOf(line).value !in replace ==>
            out[i] == if i < |out| - 1 then StripCR(line) else line)
  {
    hide KeyOf, BaseLines, Appended, Seen, Lines;
    OutLinesFeedless(existing, replace);
    LinesOfJoin(OutLines(existing, replace));
  }

  /** The merged file reads as the old file overridden by the replacements: a replaced key is
      present and carries only its new value, once per old occurrence or once at the end; every
      other key keeps exactly the values it had. */
  lemma MergeOverrides(existing: string, replace: map<string, string>, key: string)
    requires Writable(replace)
    ensures var before := ValuesOf(Entries(Lines(existing)), key);
      var after := ValuesOf(Entries(Lines(Merged(existing, replace))), key);
      if key !in replace then after == before
      else
        && |after| == (if before == [] then 1 else |before|)
        && forall v <- after :: v == TrimSpace(replace[key])
  {
    hide Lines, Entries, Seen, Merged, Missing, TrimSpace, Writable, Override, Keys.Less, ValuesOf;
    var keys, lines := Keys.Sorted(replace.Keys), Lines(existing);
    var seen := Seen(lines, replace);
    MergedEntries(existing, replace);
    ValuesConcat(Override(Entries(lines), replace), Missing(keys, seen, replace), key);
    ValuesOverride(Entries(lines), replace, key);
    ValuesMissing(keys, seen, replace, key);
    SeenHasValues(lines, replace, key);
  }

  // ---------------------------------------------------------------- on the text of the lines

  ghost predicate Blank(s: string) { forall c <- s :: IsSpace(c) }

  lemma {:induction false} TrimLeftBlank(s: string, t: string)
    requires Blank(s)
    ensures TrimLeft(s + t) == TrimLeft(t)
    decreases |s|
  {
    if s == "" {
      assert s + t == t;
    } else {
      assert s[0] in s && (s + t)[0] == s[0] && (s + t)[1..] == s[1..] + t;
      TrimLeftBlank(s[1..], t);
    }
  }

  lemma {:induction false} TrimRightBlank(t: string, s: string)
    requires Blank(s)
    ensures TrimRight(t + s) == TrimRight(t)
    decreases |s|
  {
    if s == "" {
      assert t + s == t;
    } else {
      var n := |s| - 1;
      assert s[n] in s && (t + s)[|t + s| - 1] == s[n] && (t + s)[..|t + s| - 1] == t + s[..n];
      TrimRightBlank(t, s[..n]);
    }
  }

  lemma Regroup(a: string, b: string, c: string)
    ensures a + (b + c) == a + b + c
  {
  }

  lemma VisibleStart(t: string, more: string)
    requires t != "" && !IsSpace(t[0])
    ensures TrimLeft(t + more) == t + more && t + more != "" && (t + more)[0] == t[0]
  {
  }

  lemma VisibleEnd(t: string)
    requires t != "" && !IsSpace(t[|t| - 1])
    ensures TrimRight(t) == t
  {
  }

  lemma AllBlank(s: string)
    requires Blank(s)
    ensures TrimSpace(s) == ""
  {
    hide IsSpace, TrimLeft, TrimRight, Blank;
    TrimLeftBlank(s, "");
    NothingAdded(s);
    NothingToTrim();
  }

  lemma NothingAdded(s: string)
    ensures s + "" == s
  {
  }

  lemma NothingToTrim()
    ensures TrimLeft("") == "" && TrimRight("") == ""
  {
  }

  /** Trimming takes away the blanks around a text and nothing else. */
  lemma TrimsBlanks(pre: string, t: string, post: string)
    requires Blank(pre) && Blank(post) && Trimmed(t)
    ensures TrimSpace(pre + t + post) == t
  {
    hide IsSpace, TrimLeft, TrimRight, Blank;
    Regroup(pre, t, post);
    TrimLeftBlank(pre, t + post);
    if t == "" {
      assert t + post == post;
      AllBlank(post);
    } else {
      VisibleStart(t, post);
      TrimRightBlank(t, post);
      VisibleEnd(t);
    }
  }

  /** How a line is read: the text before the first `=`, without the blanks around it, is its key
      and the text after it, trimmed, its value, unless the first visible character is `#` or `!`. */
  lemma LineReads(pre: string, key: string, post: string, v: string)
    requires Blank(pre) && Blank(post) && Trimmed(key) && '=' !in pre + key + post
    ensures var line := pre + key + post + "=" + v;
      if key != "" && (key[0] == '#' || key[0] == '!') then KeyOf(line) == None
      else KeyOf(line) == Some(key) && EntryOf(line) == Some((key, TrimSpace(v)))
  {
    hide IsSpace, TrimSpace, Blank, Trimmed, Index;
    var left := pre + key + post;
    var line := left + "=" + v;
    assert line == pre + key + post + "=" + v;
    assert line[..|left|] == left && line[|left|] == '=' && line[|left| + 1..] == v;
    IndexIs(line, '=', |left|);
    TrimsBlanks(pre, key, post);
    LineStarts(pre, key, post, v);
    StartsWithMark(TrimSpace(line));
  }

  lemma LineStarts(pre: string, key: string, post: string, v: string)
    requires Blank(pre) && Blank(post) && Trimmed(key)
    ensures var t := TrimSpace(pre + key + post + "=" + v);
      t != "" && t[0] == if key == "" then '=' else key[0]
  {
    hide IsSpace, TrimLeft, TrimRight, TrimSpace, Blank;
    var tail := post + ("=" + v);
    Regroup(pre + key, post, "=" + v);
    Regroup(pre + key + post, "=", v);
    Regroup(pre, key, tail);
    EqualsVisible();
    if key == "" {
      Regroup(pre, post, "=" + v);
      assert pre + key == pre;
      BlanksJoin(pre, post);
      FirstKept(pre + post, "=", v);
    } else {
      FirstKept(pre, key, tail);
    }
  }

  lemma EqualsVisible()
    ensures !IsSpace('=')
  {
  }

  lemma BlanksJoin(a: string, b: string)
    requires Blank(a) && Blank(b)
    ensures Blank(a + b)
  {
    hide IsSpace;
  }

  lemma FirstKept(pre: string, t: string, tail: string)
    requires Blank(pre) && t != "" && !IsSpace(t[0])
    ensures TrimSpace(pre + (t + tail)) != "" && TrimSpace(pre + (t + tail))[0] == t[0]
  {
    hide IsSpace, TrimLeft, Blank;
    TrimLeftBlank(pre, t + tail);
    VisibleStart(t, tail);
    StartStays(t + tail);
  }

  lemma {:induction false} StartStays(s: string)
    requires s != "" && !IsSpace(s[0])
    ensures TrimRight(s) != "" && TrimRight(s)[0] == s[0]
    decreases |s|
  {
    hide IsSpace;
    if IsSpace(s[|s| - 1]) {
      StartStays(s[..|s| - 1]);
    }
  }

  lemma StartsWithMark(t: string)
    requires t != ""
    ensures HasPrefix(t, "#") <==> t[0] == '#'
    ensures HasPrefix(t, "!") <==> t[0] == '!'
  {
    assert t[..1] == [t[0]];
  }

  /** An entry line of a replaced key, blanks around the key and all, becomes exactly `key=value`
      at its place; a key without a line gets exactly that line after all the old ones. */
  lemma LinesReplaced(existing: string, replace: map<string, string>, key: string)
    requires Writable(replace) && key in replace
    ensures var base, out := BaseLines(existing), Lines(Merged(existing, replace));
      var line := key + "=" + replace[key];
      && |base| <= |out|
      && (forall i :: 0 <= i < |base| && KeyOf(base[i]) == Some(key) ==> out[i] == line)
      && ((forall i :: 0 <= i < |base| ==> KeyOf(base[i]) != Some(key)) ==>
            exists j :: |base| <= j < |out| && out[j] == line)
  {
    hide KeyOf, BaseLines, Appended, Seen, Lines, StripCR, EndsCR, Writable, Keys.Sorted, Merged, OutLines;
    var base, out := BaseLines(existing), OutLines(existing, replace);
    WrittenLine(key, replace);
    NotStripped(key + "=" + replace[key]);
    MergedLines(existing, replace, key);
    forall i | 0 <= i < |base| && KeyOf(base[i]) == Some(key)
      ensures out[i] == key + "=" + replace[key]
    {
      RewrittenAt(existing, replace, i, key);
    }
    if forall i :: 0 <= i < |base| ==> KeyOf(base[i]) != Some(key) {
      var j := AppendedAt(existing, replace, key);
    }
  }

  lemma MergedLines(existing: string, replace: map<string, string>, key: string)
    requires Writable(replace) && key in replace
    ensures Lines(Merged(existing, replace)) == DropCR(OutLines(existing, replace))
    ensures |BaseLines(existing)| <= |OutLines(existing, replace)|
  {
    hide Lines, BaseLines, Appended, Seen, Keys.Sorted;
    var k := HasLine(existing, replace, key);
    OutLinesFeedless(existing, replace);
    LinesOfJoin(OutLines(existing, replace));
  }

  lemma RewrittenAt(existing: string, replace: map<string, string>, i: nat, key: string)
    requires i < |BaseLines(existing)| && KeyOf(BaseLines(existing)[i]) == Some(key) && key in replace
    ensures i < |OutLines(existing, replace)| && OutLines(existing, replace)[i] == key + "=" + replace[key]
  {
    hide KeyOf, BaseLines, Appended, Seen, Keys.Sorted;
  }

  lemma AppendedAt(existing: string, replace: map<string, string>, key: string) returns (j: nat)
    requires key in replace
    requires forall i :: 0 <= i < |BaseLines(existing)| ==> KeyOf(BaseLines(existing)[i]) != Some(key)
    ensures |BaseLines(existing)| <= j < |OutLines(existing, replace)|
    ensures OutLines(existing, replace)[j] == key + "=" + replace[key]
  {
    hide KeyOf, BaseLines, Appended, Seen, Keys.Sorted;
    var base := BaseLines(existing);
    if key in Seen(base, replace) {
      var i := SeenWitness(base, replace, key);
      assert false;
    }
    j := AppendedHas(Keys.Sorted(replace.Keys), Seen(base, replace), replace, key);
    j := |base| + j;
  }

  lemma NotStripped(line: string)
    requires !EndsCR(line)
    ensures StripCR(line) == line
  {
  }

  // ---------------------------------------------------------------- merging twice

  /** A line ending in a lone CR that the merge keeps and that another line will follow. Its
      CR and the joining newline look like CRLF to the next merge. */
  ghost predicate StrayCR(existing: string, replace: map<string, string>) {
    var base := BaseLines(existing);
    exists i :: 0 <= i < |base| && EndsCR(base[i]) && Rewritten(base[i], replace) == base[i] &&
      (i < |base| - 1 || Appended(Keys.Sorted(replace.Keys), Seen(base, replace), replace) != [])
  }

  lemma WrittenLine(k: string, replace: map<string, string>)
    requires Writable(replace) && k in replace
    ensures KeyOf(k + "=" + replace[k]) == Some(k) && !EndsCR(k + "=" + replace[k])
  {
    hide KeyOf, EntryOf, TrimSpace, Trimmed;
    var v := replace[k];
    KeyLine(k, v);
    if v != "" {
      assert (k + "=" + v)[|k + "=" + v| - 1] == v[|v| - 1] && v[|v| - 1] in v;
    }
  }

  /** Each merged line is settled: rewriting it again changes nothing. */
  lemma SettledLine(existing: string, replace: map<string, string>, i: nat)
    requires Writable(replace) && i < |OutLines(existing, replace)|
    ensures var l := OutLines(existing, replace)[i];
      Rewritten(l, replace) == l && (KeyOf(l).Some? && KeyOf(l).value in replace ==> !EndsCR(l))
  {
    hide KeyOf, OutLines;
    var k := OutLineKind(existing, replace, i);
    if k.Some? {
      WrittenLine(k.value, replace);
    }
  }

  /** A second merge only strips what CRLF normalisation strips. */
  lemma SecondMerge(existing: string, replace: map<string, string>)
    requires Writable(replace) && OutLines(existing, replace) != []
    ensures OutLines(Merged(existing, replace), replace) == DropCR(OutLines(existing, replace))
  {
    var base, out := BaseLines(existing), OutLines(existing, replace);
    var again := DropCR(out);
    EmptyOutLines(existing, replace);
    OutLinesFeedless(existing, replace);
    LinesOfJoin(out);
    assert BaseLines(Merged(existing, replace)) == again;
    hide Lines, BaseLines, Join;
    forall i | 0 <= i < |out|
      ensures Rewritten(again[i], replace) == again[i]
    {
      SettledLine(existing, replace, i);
      StripKeepsEntry(out[i]);
    }
    assert RewriteAll(again, replace) == again;
    NothingMissing(existing, replace);
    NoneAppended(Keys.Sorted(replace.Keys), Seen(again, replace), replace);
  }

  lemma {:induction false} NoneAppended(keys: seq<string>, seen: set<string>, replace: map<string, string>)
    requires forall k <- keys :: k in replace ==> k in seen
    ensures Appended(keys, seen, replace) == []
    decreases |keys|
  {
    if keys != [] {
      NoneAppended(keys[..|keys| - 1], seen, replace);
    }
  }

  lemma {:induction false} SeenMember(lines: seq<string>, replace: map<string, string>, i: nat, k: string)
    requires i < |lines| && KeyOf(lines[i]) == Some(k) && k in replace
    ensures k in Seen(lines, replace)
    decreases |lines|
  {
    hide KeyOf;
    if i < |lines| - 1 {
      SeenMember(lines[..|lines| - 1], replace, i, k);
    }
  }

  lemma {:induction false} SeenWitness(lines: seq<string>, replace: map<string, string>, k: string) returns (i: nat)
    requires k in Seen(lines, replace)
    ensures i < |lines| && KeyOf(lines[i]) == Some(k) && k in replace
    decreases |lines|
  {
    var n := |lines| - 1;
    if k in Seen(lines[..n], replace) {
      i := SeenWitness(lines[..n], replace, k);
    } else {
      i := n;
    }
  }

  lemma HasLine(existing: string, replace: map<string, string>, k: string) returns (i: nat)
    requires k in replace
    ensures i < |OutLines(existing, replace)| && OutLines(existing, replace)[i] == k + "=" + replace[k]
  {
    hide KeyOf, Appended, BaseLines, Seen;
    var base := BaseLines(existing);
    if k in Seen(base, replace) {
      i := SeenWitness(base, replace, k);
    } else {
      var j := AppendedHas(Keys.Sorted(replace.Keys), Seen(base, replace), replace, k);
      i := |base| + j;
    }
  }

  /** After one merge every replaced key has its line. */
  lemma NothingMissing(existing: string, replace: map<string, string>)
    requires Writable(replace)
    ensures forall k <- replace :: k in Seen(DropCR(OutLines(existing, replace)), replace)
  {
    hide KeyOf, OutLines, Seen, Writable, StripCR, EndsCR;
    var out := OutLines(existing, replace);
    forall k | k in replace
      ensures k in Seen(DropCR(out), replace)
    {
      WrittenLine(k, replace);
      var i := HasLine(existing, replace, k);
      StripKeepsEntry(out[i]);
      SeenMember(DropCR(out), replace, i, k);
    }
  }

  lemma JoinInjective(a: seq<string>, b: seq<string>)
    requires |a| >= 1 && |b| >= 1 && Feedless(a) && Feedless(b) && Join(a, '\n') == Join(b, '\n')
    ensures a == b
  {
    SplitJoin(a, '\n');
    SplitJoin(b, '\n');
  }

  /** Merging twice equals merging once exactly when the first merge leaves no stray CR. */
  lemma MergeTwiceIff(existing: string, replace: map<string, string>)
    requires Writable(replace)
    ensures Merged(Merged(existing, replace), replace) == Merged(existing, replace) <==> !StrayCR(existing, replace)
  {
    hide Lines, BaseLines, KeyOf, Seen, Appended, Join, Rewritten;
    var base, out := BaseLines(existing), OutLines(existing, replace);
    EmptyOutLines(existing, replace);
    if out != [] {
      SecondMerge(existing, replace);
      OutLinesFeedless(existing, replace);
      LinesOfJoin(out);
      hide Feedless, Writable;
      if Merged(Merged(existing, replace), replace) == Merged(existing, replace) {
        JoinInjective(DropCR(out), out);
      }
      StrayIff(existing, replace);
    }
  }

  lemma StrayIff(existing: string, replace: map<string, string>)
    requires Writable(replace)
    ensures DropCR(OutLines(existing, replace)) == OutLines(existing, replace) <==> !StrayCR(existing, replace)
  {
    hide BaseLines, KeyOf, Seen, Appended, Writable;
    var base, out := BaseLines(existing), OutLines(existing, replace);
    var more := Appended(Keys.Sorted(replace.Keys), Seen(base, replace), replace);
    forall i | 0 <= i < |out|
      ensures DropCR(out)[i] != out[i] <==> i < |out| - 1 && EndsCR(out[i])
      ensures EndsCR(out[i]) ==> i < |base| && Rewritten(base[i], replace) == base[i]
    {
      if EndsCR(out[i]) {
        KeepsCR(existing, replace, i);
      }
    }
    hide Rewritten;
    assert forall i :: 0 <= i < |base| ==> out[i] == Rewritten(base[i], replace);
    assert |out| == |base| + |more|;
  }

  /** Only an old line that was not rewritten can end in a CR. */
  lemma KeepsCR(existing: string, replace: map<string, string>, i: nat)
    requires Writable(replace) && i < |OutLines(existing, replace)| && EndsCR(OutLines(existing, replace)[i])
    ensures i < |BaseLines(existing)| && Rewritten(BaseLines(existing)[i], replace) == BaseLines(existing)[i]
  {
    hide KeyOf, OutLines;
    var k := OutLineKind(existing, replace, i);
    if k.Some? {
      WrittenLine(k.value, replace);
    }
  }

  /** A file that a merge changes twice: its first line ends in two carriage returns. */
  lemma StrayExample()
    ensures Merged(Merged("a\r\r\nb", map[]), map[]) != Merged("a\r\r\nb", map[])
  {
    hide Normalised, Split, KeyOf, Appended, Seen, Merged;
    var text := "a\r\r\nb";
    assert text == ['a'] + "\r\r\nb" && "\r\r\nb" == ['\r'] + "\r\nb" && "\r\nb" == "\r\n" + "b";
    NormalisedChar('a', "\r\r\nb");
    NormalisedChar('\r', "\r\nb");
    NormalisedPair("b");
    NormalisedPlain("b");
    assert Normalised(text) == "a\r" + ['\n'] + "b";
    SplitPiece("a\r", "b", '\n');
    SplitPiece("b", "", '\n');
    var base := BaseLines(text);
    assert base == ["a\r", "b"];
    KeylessLine("a\r");
    assert EndsCR(base[0]) && Rewritten(base[0], map[]) == base[0];
    MergeTwiceIff(text, map[]);
  }

  lemma KeylessLine(line: string)
    requires '=' !in line
    ensures KeyOf(line).None?
  {
    hide TrimSpace;
  }
}
