/** What an ini merge means: the printed file parses back to the file in memory, the
    replacements override it, and merging twice is merging once. */
module IniTheorems {
  import opened Common
  import opened Text
  import opened Ini
  import Keys

  // ---------------------------------------------------------------- lines that survive printing

  lemma TrimAroundEq(a: string, b: string)
    ensures TrimSpace(a + "=" + b) == TrimLeft(a) + "=" + TrimRight(b)
  {
    hide TrimLeft, TrimRight;
    assert a + "=" + b == a + ("=" + b);
    TrimLeftBefore(a, "=" + b);
    assert TrimLeft(a) + ("=" + b) == (TrimLeft(a) + "=") + b;
    TrimRightAfter(TrimLeft(a) + "=", b);
  }

  /** The visible text of `s` ends at `n`. */
  predicate EndsAt(s: string, n: nat) {
    n <= |s| && (n > 0 ==> !IsSpace(s[n - 1])) && forall i :: n <= i < |s| ==> IsSpace(s[i])
  }

  lemma TrimRightEnds(s: string)
    ensures EndsAt(s, |TrimRight(s)|)
  {
    hide IsSpace, TrimRight;
    var r := TrimRight(s);
    TrimRightIs(s);
    assert r != "" ==> r[|r| - 1] == s[|r| - 1];
  }

  lemma EndsAtOnce(s: string, m: nat, n: nat)
    requires EndsAt(s, m) && EndsAt(s, n)
    ensures m == n
  {
    hide IsSpace;
  }

  lemma LastKept(s: string)
    requires TrimRight(s) != ""
    ensures |TrimRight(s)| <= |s| && TrimRight(s)[|TrimRight(s)| - 1] == s[|TrimRight(s)| - 1]
  {
    hide IsSpace, TrimRight;
    TrimRightIs(s);
  }

  lemma TrimmedEnds(b: string) returns (n: nat)
    requires TrimSpace(b) != ""
    ensures 0 < n <= |b| && EndsAt(b, n) && TrimSpace(b)[|TrimSpace(b)| - 1] == b[n - 1]
  {
    hide IsSpace, TrimLeft, TrimRight, EndsAt;
    var l := TrimLeft(b);
    TrimLeftIs(b);
    TrimRightIs(l);
    n := |b| - |l| + |TrimRight(l)|;
    TrimRightEnds(l);
    SuffixEnds(b, |b| - |l|, |TrimRight(l)|);
    LastKept(l);
  }

  /** The last visible character does not depend on what is trimmed in front. */
  lemma LastVisible(b: string)
    requires TrimSpace(b) != ""
    ensures TrimRight(b) != "" && TrimSpace(b)[|TrimSpace(b)| - 1] == TrimRight(b)[|TrimRight(b)| - 1]
  {
    hide IsSpace, TrimSpace, TrimRight, EndsAt;
    var n := TrimmedEnds(b);
    TrimRightEnds(b);
    EndsAtOnce(b, n, |TrimRight(b)|);
    LastKept(b);
  }

  lemma SuffixEnds(b: string, off: nat, n: nat)
    requires off <= |b| && n > 0 && EndsAt(b[off..], n)
    ensures EndsAt(b, off + n)
  {
    hide IsSpace;
    forall i | off + n <= i < |b|
      ensures IsSpace(b[i])
    {
      assert b[i] == b[off..][i - off];
    }
  }

  predicate StartsWith(s: string, c: char) { s != "" && s[0] == c }

  predicate EndsWith(s: string, c: char) { s != "" && s[|s| - 1] == c }

  lemma PrefixChar(t: string, c: char)
    ensures HasPrefix(t, [c]) <==> StartsWith(t, c)
    ensures HasSuffix(t, [c]) <==> EndsWith(t, c)
  {
    if t != "" {
      assert t[..1] == [t[0]] && t[|t| - 1..] == [t[|t| - 1]];
    }
  }

  /** The reading of a trimmed line, told from its first and last characters. */
  lemma ClassifyByEdges(line: string)
    ensures var t := TrimSpace(line);
      Classify(line) ==
        if t == "" || StartsWith(t, ';') || StartsWith(t, '#') then Skip
        else if StartsWith(t, '[') && EndsWith(t, ']') then Header(TrimSpace(t[1..|t| - 1]))
        else match Index(line, '=')
          case Some(eq) => Entry(TrimSpace(line[..eq]), TrimSpace(line[eq + 1..]))
          case None => Skip
  {
    hide TrimSpace, Index, HasPrefix, HasSuffix;
    var t := TrimSpace(line);
    PrefixChar(t, ';');
    PrefixChar(t, '#');
    PrefixChar(t, '[');
    PrefixChar(t, ']');
    assert ";" == [';'] && "#" == ['#'] && "[" == ['['] && "]" == [']'];
  }

  /** Keys and values whose line reads back as the same entry. */
  predicate PlainEntry(k: string, v: string) {
    && Trimmed(k) && Trimmed(v) && '=' !in k
    && !StartsWith(k, ';') && !StartsWith(k, '#')
    && !(StartsWith(k, '[') && EndsWith(v, ']'))
  }

  /** How a line with a first `=` is read. */
  lemma ClassifyEq(a: string, b: string)
    requires '=' !in a
    ensures var t := TrimLeft(a) + "=" + TrimRight(b);
      Classify(a + "=" + b) ==
        if StartsWith(t, ';') || StartsWith(t, '#') then Skip
        else if StartsWith(t, '[') && EndsWith(t, ']') then Header(TrimSpace(t[1..|t| - 1]))
        else Entry(TrimSpace(a), TrimSpace(b))
  {
    hide TrimSpace, TrimLeft, TrimRight, Index, Classify;
    var line := a + "=" + b;
    assert line[..|a|] == a && line[|a|] == '=' && line[|a| + 1..] == b;
    IndexIs(line, '=', |a|);
    TrimAroundEq(a, b);
    ClassifyByEdges(line);
  }

  /** The exact condition for a `key=value` line to read back as that entry. */
  lemma PlainIff(k: string, v: string)
    requires '=' !in k
    ensures Classify(k + "=" + v) == Entry(k, v) <==> PlainEntry(k, v)
  {
    hide TrimSpace, TrimLeft, TrimRight, Index, Classify, Trimmed, StartsWith, EndsWith;
    TrimSpaceTrims(k);
    TrimSpaceTrims(v);
    if Trimmed(k) && Trimmed(v) {
      PlainTrimmed(k, v);
    } else {
      ClassifyEq(k, v);
    }
  }

  lemma PlainTrimmed(k: string, v: string)
    requires '=' !in k && Trimmed(k) && Trimmed(v)
    ensures Classify(k + "=" + v) == Entry(k, v) <==> PlainEntry(k, v)
  {
    hide TrimSpace, TrimLeft, TrimRight, Index, Classify, Trimmed, StartsWith, EndsWith;
    ClassifyEq(k, v);
    TrimSpaceTrims(k);
    TrimSpaceTrims(v);
    EdgesOf(k, v);
  }

  lemma EdgesOf(k: string, v: string)
    requires Trimmed(k) && Trimmed(v)
    ensures TrimLeft(k) == k && TrimRight(v) == v
    ensures StartsWith(k + "=" + v, ';') <==> StartsWith(k, ';')
    ensures StartsWith(k + "=" + v, '#') <==> StartsWith(k, '#')
    ensures StartsWith(k + "=" + v, '[') <==> StartsWith(k, '[')
    ensures EndsWith(k + "=" + v, ']') <==> EndsWith(v, ']')
  {
    EdgesTrim(k, v);
    hide TrimLeft, TrimRight, IsSpace;
    var t := k + "=" + v;
    assert k != "" ==> t[0] == k[0];
    assert v != "" ==> t[|t| - 1] == v[|v| - 1];
  }

  lemma EdgesTrim(k: string, v: string)
    requires Trimmed(k) && Trimmed(v)
    ensures TrimLeft(k) == k && TrimRight(v) == v
  {
  }

  /** Whatever the parser took for an entry prints as a line it takes for the same entry. */
  lemma ParsedIsPlain(line: string, k: string, v: string)
    requires Classify(line) == Entry(k, v)
    ensures PlainEntry(k, v)
    ensures '\n' !in line ==> '\n' !in k && '\n' !in v
  {
    hide TrimSpace, Index, Classify, PlainEntry;
    ClassifyByEdges(line);
    var eq := Index(line, '=').value;
    var a, b := line[..eq], line[eq + 1..];
    assert line == a + "=" + b;
    PlainFromEq(a, b);
    TrimWithin(a);
    TrimWithin(b);
  }

  lemma PlainFromEq(a: string, b: string)
    requires '=' !in a && Classify(a + "=" + b).Entry?
    ensures PlainEntry(TrimSpace(a), TrimSpace(b))
  {
    hide TrimSpace, TrimLeft, TrimRight, Classify, Trimmed;
    ClassifyEq(a, b);
    var k, v := TrimSpace(a), TrimSpace(b);
    TrimSpaceTrims(a);
    TrimSpaceTrims(b);
    TrimWithin(a);
    FirstVisible(a);
    var t := TrimLeft(a) + "=" + TrimRight(b);
    assert k != "" ==> k[0] == t[0];
    if v != "" {
      LastVisible(b);
      assert v[|v| - 1] == t[|t| - 1];
    }
  }

  lemma FirstVisible(a: string)
    ensures TrimSpace(a) != "" ==> TrimLeft(a) != "" && TrimSpace(a)[0] == TrimLeft(a)[0]
  {
    hide TrimLeft, TrimRight;
    TrimRightIs(TrimLeft(a));
  }

  lemma TrimWithin(s: string)
    ensures forall c <- TrimSpace(s) :: c in s
  {
    hide IsSpace, TrimLeft, TrimRight;
    var l := TrimLeft(s);
    TrimLeftIs(s);
    TrimRightIs(l);
    assert forall c <- l :: c in s;
    assert forall c <- TrimRight(l) :: c in l;
  }

  lemma HeaderReadsBack(s: string)
    requires Trimmed(s)
    ensures Classify("[" + s + "]") == Header(s)
  {
    hide TrimSpace, Index, Classify;
    var t := "[" + s + "]";
    assert Trimmed(t);
    TrimSpaceTrims(t);
    TrimSpaceTrims(s);
    hide Trimmed;
    assert t[1..|t| - 1] == s;
    ClassifyByEdges(t);
  }

  lemma ParsedHeader(line: string, s: string)
    requires Classify(line) == Header(s)
    ensures Trimmed(s) && ('\n' !in line ==> '\n' !in s)
  {
    hide TrimSpace, Index, Classify, Trimmed;
    ClassifyByEdges(line);
    var t := TrimSpace(line);
    TrimSpaceTrims(t[1..|t| - 1]);
    TrimWithin(line);
    TrimWithin(t[1..|t| - 1]);
  }

  // ---------------------------------------------------------------- files that survive printing

  ghost predicate PlainPairs(kvs: seq<Pair>) {
    forall e <- kvs :: PlainEntry(e.0, e.1) && '\n' !in e.0 && '\n' !in e.1
  }

  ghost predicate Printable(f: File) {
    && WellFormed(f)
    && (forall s <- f.data :: Trimmed(s) && '\n' !in s && PlainPairs(f.data[s]))
  }

  lemma AcceptKeeps(p: Parser, line: string)
    requires Printable(p.file) && p.cur in p.file.data && '\n' !in line
    ensures var q := Accept(p, Classify(line));
      Printable(q.file) && q.cur in q.file.data
  {
    hide Classify, PlainEntry, Trimmed;
    match Classify(line) {
      case Skip =>
      case Header(s) => ParsedHeader(line, s);
      case Entry(k, v) => ParsedIsPlain(line, k, v);
    }
    var q := Accept(p, Classify(line));
    assert forall s: string :: s in q.file.data <==> s in q.file.order;
  }

  lemma {:induction false} ParseKeeps(lines: seq<string>)
    requires forall l <- lines :: '\n' !in l
    ensures var p := ParseFrom(START, lines);
      Printable(p.file) && p.cur in p.file.data
    decreases |lines|
  {
    if lines != [] {
      ParseKeeps(lines[..|lines| - 1]);
      AcceptKeeps(ParseFrom(START, lines[..|lines| - 1]), lines[|lines| - 1]);
    }
  }

  /** What a replacement must look like to be written into an ini file. */
  ghost predicate Writable(replace: map<string, string>) {
    forall d <- replace ::
      var (s, k) := Target(d);
      Trimmed(s) && '\n' !in s && PlainEntry(k, replace[d]) && '\n' !in k && '\n' !in replace[d]
  }

  lemma {:induction false} SetInPlain(kvs: seq<Pair>, k: string, v: string)
    requires PlainPairs(kvs) && PlainEntry(k, v) && '\n' !in k && '\n' !in v
    ensures PlainPairs(SetIn(kvs, k, v)) && SetIn(kvs, k, v) != []
    decreases |kvs|
  {
    hide PlainEntry;
    if kvs != [] && kvs[0].0 != k {
      assert PlainPairs(kvs[1..]);
      SetInPlain(kvs[1..], k, v);
      assert kvs[0] in kvs;
    }
  }

  lemma SetKeeps(f: File, s: string, k: string, v: string)
    requires Printable(f) && Trimmed(s) && '\n' !in s && PlainEntry(k, v) && '\n' !in k && '\n' !in v
    ensures Printable(Set(f, s, k, v))
  {
    var g := Open(f, s);
    assert PlainPairs(Section(g, s));
    SetInPlain(Section(g, s), k, v);
    hide PlainEntry, Trimmed, PlainPairs, SetIn;
    var h := Set(f, s, k, v);
    assert forall x: string :: x in h.data <==> x in h.order;
  }

  lemma {:induction false} SetAllKeeps(f: File, keys: seq<string>, replace: map<string, string>)
    requires Printable(f) && Writable(replace)
    ensures Printable(SetAll(f, keys, replace))
    decreases |keys|
  {
    if keys != [] {
      SetAllKeeps(f, keys[..|keys| - 1], replace);
      var d := keys[|keys| - 1];
      if d in replace {
        SetKeeps(SetAll(f, keys[..|keys| - 1], replace), Target(d).0, Target(d).1, replace[d]);
      }
    }
  }

  // ---------------------------------------------------------------- printing and parsing back

  lemma {:induction false} ParseConcat(p: Parser, a: seq<string>, b: seq<string>)
    ensures ParseFrom(p, a + b) == ParseFrom(ParseFrom(p, a), b)
    decreases |b|
  {
    hide Accept, Classify;
    if b == [] {
      assert a + b == a;
    } else {
      ParseConcat(p, a, b[..|b| - 1]);
      assert (a + b)[..|a + b| - 1] == a + b[..|b| - 1];
    }
  }

  lemma EntryReadsBack(kvs: seq<Pair>, i: nat)
    requires PlainPairs(kvs) && i < |kvs|
    ensures Classify(kvs[i].0 + "=" + kvs[i].1) == Entry(kvs[i].0, kvs[i].1)
  {
    hide Classify;
    assert kvs[i] in kvs;
    PlainIff(kvs[i].0, kvs[i].1);
  }

  lemma {:induction false} ParseEntries(p: Parser, kvs: seq<Pair>)
    requires PlainPairs(kvs) && p.cur in p.file.data
    ensures ParseFrom(p, EntryLines(kvs)) ==
      Parser(File(p.file.order, p.file.data[p.cur := p.file.data[p.cur] + kvs]), p.cur)
    decreases |kvs|
  {
    hide Classify, PlainEntry;
    if kvs == [] {
      assert p.file.data[p.cur] + [] == p.file.data[p.cur];
    } else {
      var init, e := kvs[..|kvs| - 1], kvs[|kvs| - 1];
      EntryReadsBack(kvs, |kvs| - 1);
      ParseEntries(p, init);
      hide PlainPairs;
      var lines := EntryLines(kvs);
      assert lines[..|lines| - 1] == EntryLines(init) && lines[|lines| - 1] == e.0 + "=" + e.1;
      assert p.file.data[p.cur] + init + [e] == p.file.data[p.cur] + kvs;
    }
  }

  /** The sections that a printed file keeps. */
  function Kept(order: seq<string>, f: File): seq<string> {
    if order == [] then []
    else
      var s := order[|order| - 1];
      Kept(order[..|order| - 1], f) + (if s == "" || Section(f, s) != [] then [s] else [])
  }

  /** The file without its empty sections. */
  ghost function Compact(order: seq<string>, f: File): File {
    File(Kept(order, f), map s | s in Kept(order, f) :: Section(f, s))
  }

  lemma {:induction false} KeptFrom(order: seq<string>, f: File)
    ensures forall s <- Kept(order, f) :: s in order
    ensures forall s <- order :: s == "" || Section(f, s) != [] ==> s in Kept(order, f)
    decreases |order|
  {
    if order != [] {
      KeptFrom(order[..|order| - 1], f);
    }
  }

  lemma GlobalLines(f: File)
    ensures FileLines([""], f) == EntryLines(Section(f, ""))
  {
    hide Section;
    assert [""][..0] == [] && FileLines([], f) == [];
  }

  lemma GlobalCompact(f: File)
    ensures Compact([""], f) == File([""], map["" := Section(f, "")])
  {
    hide Section;
    assert [""][..0] == [] && Kept([], f) == [] && Kept([""], f) == [""];
    assert Compact([""], f).data == map["" := Section(f, "")];
  }

  lemma GlobalPlain(f: File)
    requires Printable(f)
    ensures PlainPairs(Section(f, ""))
  {
    hide PlainPairs;
    assert "" in f.order;
  }

  lemma ReparseGlobal(f: File)
    requires Printable(f)
    ensures ParseFrom(START, FileLines([""], f)) == Parser(Compact([""], f), "")
  {
    hide Classify, PlainPairs, Printable, ParseFrom, EntryLines, FileLines, Compact, Section;
    var kvs := Section(f, "");
    GlobalPlain(f);
    GlobalLines(f);
    GlobalCompact(f);
    ParseEntries(START, kvs);
    assert [] + kvs == kvs;
  }

  lemma ParseSection(p: Parser, s: string, kvs: seq<Pair>)
    requires s != "" && Trimmed(s) && s !in p.file.data && kvs != [] && PlainPairs(kvs)
    ensures ParseFrom(p, SectionLines(s, kvs)) == Parser(File(p.file.order + [s], p.file.data[s := kvs]), s)
  {
    hide Classify, PlainPairs, Trimmed, ParseFrom, EntryLines;
    var head := "[" + s + "]";
    HeaderReadsBack(s);
    ParseOne(p, head);
    ParseConcat(p, [head], EntryLines(kvs));
    var q := Parser(File(p.file.order + [s], p.file.data[s := []]), s);
    ParseEntries(q, kvs);
    assert [] + kvs == kvs && q.file.data[s := kvs] == p.file.data[s := kvs];
  }

  lemma ParseOne(p: Parser, line: string)
    ensures ParseFrom(p, [line]) == Accept(p, Classify(line))
  {
    hide Classify, Accept;
    assert [line][..0] == [] && ParseFrom(p, []) == p;
  }

  /** Parsing the lines of the first `n` sections restores exactly those sections. */
  lemma {:induction false} ReparsePrefix(f: File, n: nat)
    requires Printable(f) && 1 <= n <= |f.order|
    ensures var p := ParseFrom(START, FileLines(f.order[..n], f));
      p.file == Compact(f.order[..n], f) && p.cur in p.file.data
    decreases n
  {
    hide Classify, PlainPairs, Trimmed, Compact;
    if n == 1 {
      ReparseGlobal(f);
      assert f.order[..1] == [""];
      CompactHasGlobal(f);
    } else {
      var s, before := f.order[n - 1], f.order[..n - 1];
      assert f.order[..n] == before + [s] && (before + [s])[..n - 1] == before;
      ReparsePrefix(f, n - 1);
      ParseConcat(START, FileLines(before, f), SectionLines(s, Section(f, s)));
      assert forall i :: 0 <= i < n - 1 ==> f.order[i] != s;
      assert s in f.order && s !in before && s != "";
      ReparseSection(f, ParseFrom(START, FileLines(before, f)), before, s);
    }
  }

  lemma CompactHasGlobal(f: File)
    ensures "" in Compact([""], f).data
  {
    assert [""][..0] == [] && Kept([""], f) == [""];
  }

  lemma ReparseSection(f: File, p: Parser, before: seq<string>, s: string)
    requires Printable(f) && s in f.data && s != "" && s !in before && p.file == Compact(before, f)
    requires p.cur in p.file.data
    ensures var q := ParseFrom(p, SectionLines(s, Section(f, s)));
      q.file == Compact(before + [s], f) && q.cur in q.file.data
  {
    var kvs := Section(f, s);
    assert PlainPairs(kvs) && Trimmed(s);
    hide PlainPairs, Trimmed, Printable, Kept, Accept, Classify, EntryLines;
    KeptFrom(before, f);
    CompactNext(f, before, s);
    if kvs != [] {
      ParseSection(p, s, kvs);
    }
  }

  lemma KeptNext(f: File, before: seq<string>, s: string)
    requires s != ""
    ensures Kept(before + [s], f) == if Section(f, s) == [] then Kept(before, f) else Kept(before, f) + [s]
  {
    hide Section;
    assert (before + [s])[..|before|] == before;
  }

  lemma CompactNext(f: File, before: seq<string>, s: string)
    requires s != "" && s !in before
    ensures Compact(before + [s], f) ==
      if Section(f, s) == [] then Compact(before, f)
      else File(Kept(before, f) + [s], Compact(before, f).data[s := Section(f, s)])
  {
    hide Kept, Section;
    KeptFrom(before, f);
    KeptNext(f, before, s);
    if Section(f, s) != [] {
      assert Compact(before + [s], f).data == Compact(before, f).data[s := Section(f, s)];
    }
  }

  lemma {:induction false} EntryLinesFeedless(kvs: seq<Pair>)
    requires PlainPairs(kvs)
    ensures forall l <- EntryLines(kvs) :: '\n' !in l
    decreases |kvs|
  {
    hide PlainEntry;
    if kvs != [] {
      assert kvs[|kvs| - 1] in kvs;
      EntryLinesFeedless(kvs[..|kvs| - 1]);
    }
  }

  lemma {:induction false} FileLinesFeedless(order: seq<string>, f: File)
    requires Printable(f) && forall s <- order :: s in f.data
    ensures forall l <- FileLines(order, f) :: '\n' !in l
    decreases |order|
  {
    if order != [] {
      var s := order[|order| - 1];
      FileLinesFeedless(order[..|order| - 1], f);
      EntryLinesFeedless(f.data[s]);
    }
  }

  /** The printed file parses back to the file in memory, minus its empty sections. */
  lemma ParsePrint(f: File)
    requires Printable(f)
    ensures Parse(Print(f)) == Compact(f.order, f)
  {
    var lines := FileLines(f.order, f);
    FileLinesFeedless(f.order, f);
    SplitJoin(lines + [""], '\n');
    assert (lines + [""])[..|lines|] == lines;
    assert f.order[..|f.order|] == f.order;
    ReparsePrefix(f, |f.order|);
    BlankIsSkipped();
  }

  lemma BlankIsSkipped()
    ensures Classify("") == Skip
  {
  }

  lemma {:induction false} KeptLines(order: seq<string>, f: File, g: File)
    requires forall s <- Kept(order, f) :: Section(g, s) == Section(f, s)
    ensures FileLines(Kept(order, f), g) == FileLines(order, f)
    decreases |order|
  {
    if order != [] {
      var init, s := order[..|order| - 1], order[|order| - 1];
      KeptLines(init, f, g);
      if s == "" || Section(f, s) != [] {
        assert Kept(order, f)[..|Kept(init, f)|] == Kept(init, f);
        assert s in Kept(order, f);
      } else {
        assert Kept(order, f) == Kept(init, f);
      }
    }
  }

  /** Empty sections leave no trace in the text. */
  lemma PrintCompact(f: File)
    ensures Print(Compact(f.order, f)) == Print(f)
  {
    KeptLines(f.order, f, Compact(f.order, f));
  }

  lemma ParsedIsPrintable(text: string)
    ensures Printable(Parse(text))
  {
    ParseKeeps(Split(text, '\n'));
  }

  lemma MergedFileIsPrintable(existing: string, replace: map<string, string>)
    requires Writable(replace)
    ensures Printable(SetAll(Parse(existing), Keys.Sorted(replace.Keys), replace))
  {
    ParsedIsPrintable(existing);
    SetAllKeeps(Parse(existing), Keys.Sorted(replace.Keys), replace);
  }

  // ---------------------------------------------------------------- override

  /** All values of a key in a section, in order; the first is the one a reader takes. */
  function ValuesIn(kvs: seq<Pair>, k: string): seq<string> {
    if kvs == [] then []
    else (if kvs[0].0 == k then [kvs[0].1] else []) + ValuesIn(kvs[1..], k)
  }

  function KeysIn(kvs: seq<Pair>): seq<string> {
    if kvs == [] then [] else [kvs[0].0] + KeysIn(kvs[1..])
  }

  /** The values after one replacement: the first one is new, later duplicates stay. */
  function Overridden(values: seq<string>, v: string): seq<string> {
    [v] + (if values == [] then [] else values[1..])
  }

  lemma {:induction false} HasValues(kvs: seq<Pair>, k: string)
    ensures k in KeysIn(kvs) <==> ValuesIn(kvs, k) != []
    decreases |kvs|
  {
    if kvs != [] {
      HasValues(kvs[1..], k);
    }
  }

  lemma {:induction false} SetInKeys(kvs: seq<Pair>, k: string, v: string)
    ensures k in KeysIn(kvs) ==> KeysIn(SetIn(kvs, k, v)) == KeysIn(kvs)
    decreases |kvs|
  {
    if kvs != [] {
      assert ([(k, v)] + kvs[1..])[1..] == kvs[1..];
      SetInKeys(kvs[1..], k, v);
      assert ([kvs[0]] + SetIn(kvs[1..], k, v))[1..] == SetIn(kvs[1..], k, v);
    }
  }

  lemma {:induction false} SetInValues(kvs: seq<Pair>, k: string, v: string, x: string)
    ensures ValuesIn(SetIn(kvs, k, v), x) == if x == k then Overridden(ValuesIn(kvs, k), v) else ValuesIn(kvs, x)
    decreases |kvs|
  {
    if kvs == [] {
      assert [(k, v)][1..] == [];
    } else if kvs[0].0 == k {
      assert ([(k, v)] + kvs[1..])[1..] == kvs[1..];
      assert ([kvs[0].1] + ValuesIn(kvs[1..], k))[1..] == ValuesIn(kvs[1..], k);
    } else {
      SetInValues(kvs[1..], k, v, x);
      assert ([kvs[0]] + SetIn(kvs[1..], k, v))[1..] == SetIn(kvs[1..], k, v);
      assert [] + ValuesIn(kvs[1..], k) == ValuesIn(kvs[1..], k);
    }
  }

  /** A section is determined by its keys in order and the values of each key. */
  lemma {:induction false} Determined(a: seq<Pair>, b: seq<Pair>)
    requires KeysIn(a) == KeysIn(b) && forall k: string :: ValuesIn(a, k) == ValuesIn(b, k)
    ensures a == b
    decreases |a|
  {
    if a == [] || b == [] {
      assert |KeysIn(a)| == |KeysIn(b)|;
    } else {
      var k := a[0].0;
      assert KeysIn(a)[0] == KeysIn(b)[0] && KeysIn(a)[1..] == KeysIn(b)[1..];
      assert ValuesIn(a, k)[0] == ValuesIn(b, k)[0];
      forall x: string
        ensures ValuesIn(a[1..], x) == ValuesIn(b[1..], x)
      {
        assert ValuesIn(a, x) == ValuesIn(b, x);
        if x == k {
          assert ValuesIn(a, x)[1..] == ValuesIn(a[1..], x) && ValuesIn(b, x)[1..] == ValuesIn(b[1..], x);
        } else {
          assert [] + ValuesIn(a[1..], x) == ValuesIn(a[1..], x) && [] + ValuesIn(b[1..], x) == ValuesIn(b[1..], x);
        }
      }
      Determined(a[1..], b[1..]);
      assert a == [a[0]] + a[1..] && b == [b[0]] + b[1..];
    }
  }

  /** The replacement that ends up in force for a section and key: the last one in sorted
      order whose dotted form names it (`.k` and `k` both name the global `k`). */
  function Final(keys: seq<string>, replace: map<string, string>, s: string, k: string): Option<string> {
    if keys == [] then None
    else
      var d := keys[|keys| - 1];
      if d in replace && Target(d) == (s, k) then Some(replace[d]) else Final(keys[..|keys| - 1], replace, s, k)
  }

  lemma SetSection(f: File, s: string, k: string, v: string, x: string)
    ensures Section(Set(f, s, k, v), x) == if x == s then SetIn(Section(f, s), k, v) else Section(f, x)
  {
    hide SetIn;
  }

  lemma {:induction false} SetAllValues(f: File, keys: seq<string>, replace: map<string, string>, s: string, k: string)
    ensures var before, after := ValuesIn(Section(f, s), k), ValuesIn(Section(SetAll(f, keys, replace), s), k);
      match Final(keys, replace, s, k)
      case Some(v) => after == Overridden(before, v)
      case None => after == before
    decreases |keys|
  {
    hide Section, Set, SetIn, ValuesIn, KeysIn, Target;
    if keys != [] {
      var init, d := keys[..|keys| - 1], keys[|keys| - 1];
      var g := SetAll(f, init, replace);
      SetAllValues(f, init, replace, s, k);
      if d in replace {
        var (ds, dk) := Target(d);
        SetSection(g, ds, dk, replace[d], s);
        SetInValues(Section(g, ds), dk, replace[d], k);
      }
    }
  }

  lemma CompactSection(f: File, s: string)
    requires WellFormed(f)
    ensures Section(Compact(f.order, f), s) == Section(f, s)
  {
    KeptFrom(f.order, f);
  }

  /** Reading the merged file: a replaced `section.key` has its new value at its first
      occurrence and keeps its later duplicates; every other key keeps exactly its values. */
  lemma MergeOverrides(existing: string, replace: map<string, string>, s: string, k: string)
    requires Writable(replace)
    ensures
      var before := ValuesIn(Section(Parse(existing), s), k);
      var after := ValuesIn(Section(Parse(Merged(existing, replace)), s), k);
      match Final(Keys.Sorted(replace.Keys), replace, s, k)
      case Some(v) => after == Overridden(before, v)
      case None => after == before
  {
    hide Parse, Print, Compact, Printable, Section, ValuesIn, SetAll, Final, Keys.Sorted;
    var f := SetAll(Parse(existing), Keys.Sorted(replace.Keys), replace);
    MergedFileIsPrintable(existing, replace);
    ParsePrint(f);
    WellFormedIfPrintable(f);
    CompactSection(f, s);
    SetAllValues(Parse(existing), Keys.Sorted(replace.Keys), replace, s, k);
  }

  lemma WellFormedIfPrintable(f: File)
    requires Printable(f)
    ensures WellFormed(f)
  {
    hide PlainPairs, Trimmed;
  }

  // ---------------------------------------------------------------- on the text of the keys

  /** The texts that name key `k` of section `s`: `s.k`, and `k` alone for the global section. */
  lemma NamedBy(d: string, s: string, k: string)
    ensures Target(d) == (s, k) <==> ('.' !in s && d == s + "." + k) || (s == "" && '.' !in d && d == k)
  {
    hide Index;
    match Index(d, '.') {
      case Some(i) => assert d == d[..i] + "." + d[i + 1..];
      case None =>
    }
    if '.' !in s && d == s + "." + k {
      assert d[..|s|] == s && d[|s| + 1..] == k;
      IndexIs(d, '.', |s|);
    }
  }

  /** The text that decides about key `k` of section `s`, if one is given. A global key can be
      given as `.k` and as `k`; the one that comes later in the order of the texts wins, which is
      `k` when it starts above the dot, and `.k` otherwise. */
  function Deciding(replace: map<string, string>, s: string, k: string): (d: Option<string>)
    ensures d.Some? ==> d.value in replace
  {
    if s != "" then (if '.' !in s && s + "." + k in replace then Some(s + "." + k) else None)
    else if '.' !in k && k in replace && ("." + k !in replace || (k != "" && k[0] > '.')) then Some(k)
    else if "." + k in replace then Some("." + k)
    else None
  }

  lemma {:induction false} FinalNone(keys: seq<string>, replace: map<string, string>, s: string, k: string)
    requires forall d <- keys :: d in replace ==> Target(d) != (s, k)
    ensures Final(keys, replace, s, k) == None
    decreases |keys|
  {
    hide Target;
    if keys != [] {
      FinalNone(keys[..|keys| - 1], replace, s, k);
    }
  }

  lemma {:induction false} FinalIs(keys: seq<string>, replace: map<string, string>, s: string, k: string, d: string)
    requires Keys.Ascending(keys) && d in keys && d in replace && Target(d) == (s, k)
    requires forall e <- keys :: e in replace && Target(e) == (s, k) ==> e == d || Keys.Less(e, d)
    ensures Final(keys, replace, s, k) == Some(replace[d])
    decreases |keys|
  {
    hide Target, Keys.Less;
    var init, e := keys[..|keys| - 1], keys[|keys| - 1];
    if e != d {
      var i :| 0 <= i < |init| && keys[i] == d;
      assert Keys.Less(d, e) && init[i] == d;
      Keys.LessTotal(d, e);
      FinalIs(init, replace, s, k, d);
    }
  }

  lemma DotOrder(k: string)
    requires '.' !in k
    ensures Keys.Less("." + k, k) <==> k != "" && k[0] > '.'
    ensures Keys.Less(k, "." + k) <==> !(k != "" && k[0] > '.')
  {
    if k != "" {
      Keys.LessAt("." + k, k, 0);
      Keys.LessAt(k, "." + k, 0);
    }
  }

  lemma FinalDecides(replace: map<string, string>, s: string, k: string)
    ensures Final(Keys.Sorted(replace.Keys), replace, s, k) ==
      match Deciding(replace, s, k) case Some(d) => Some(replace[d]) case None => None
  {
    hide Target, Keys.Less, Keys.Sorted, Final;
    var keys := Keys.Sorted(replace.Keys);
    forall d: string
      ensures Target(d) == (s, k) <==> ('.' !in s && d == s + "." + k) || (s == "" && '.' !in d && d == k)
    {
      NamedBy(d, s, k);
    }
    assert s == "" ==> s + "." + k == "." + k;
    match Deciding(replace, s, k) {
      case Some(d) =>
        if '.' !in k {
          DotOrder(k);
        }
        FinalIs(keys, replace, s, k, d);
      case None => FinalNone(keys, replace, s, k);
    }
  }

  /** Which text decides: `s.k` for a key of section `s`; for a global key, whichever of `k` and
      `.k` is given. */
  lemma DecidedBy(replace: map<string, string>, s: string, k: string)
    ensures s != "" && '.' !in s && s + "." + k in replace ==> Deciding(replace, s, k) == Some(s + "." + k)
    ensures '.' !in k && k in replace && "." + k !in replace ==> Deciding(replace, "", k) == Some(k)
    ensures "." + k in replace && k !in replace ==> Deciding(replace, "", k) == Some("." + k)
    ensures '.' !in k && k in replace && "." + k in replace ==>
      Deciding(replace, "", k) == Some(if Keys.Less("." + k, k) then k else "." + k)
  {
    if '.' !in k {
      DotOrder(k);
    }
  }

  /** The merge on the text of the replacements: a key that a text decides about has the value given
      with that text in place of its first one, and keeps the others; any other keeps all its values. */
  lemma MergeByText(existing: string, replace: map<string, string>, s: string, k: string)
    requires Writable(replace)
    ensures
      var before := ValuesIn(Section(Parse(existing), s), k);
      var after := ValuesIn(Section(Parse(Merged(existing, replace)), s), k);
      match Deciding(replace, s, k)
      case Some(d) => after == [replace[d]] + (if before == [] then [] else before[1..])
      case None => after == before
  {
    hide Parse, Merged, Section, ValuesIn, Writable, Final, Keys.Sorted, Deciding;
    FinalDecides(replace, s, k);
    MergeOverrides(existing, replace, s, k);
  }

  // ---------------------------------------------------------------- order

  lemma {:induction false} KeysKept(kvs: seq<Pair>, k: string, v: string)
    ensures KeysIn(kvs) <= KeysIn(SetIn(kvs, k, v))
    decreases |kvs|
  {
    if kvs == [] {
    } else if kvs[0].0 == k {
      assert ([(k, v)] + kvs[1..])[1..] == kvs[1..];
    } else {
      KeysKept(kvs[1..], k, v);
      assert ([kvs[0]] + SetIn(kvs[1..], k, v))[1..] == SetIn(kvs[1..], k, v);
    }
  }

  lemma {:induction false} SetAllOrder(f: File, keys: seq<string>, replace: map<string, string>, s: string)
    ensures f.order <= SetAll(f, keys, replace).order
    ensures KeysIn(Section(f, s)) <= KeysIn(Section(SetAll(f, keys, replace), s))
    decreases |keys|
  {
    hide KeysIn, SetIn, Section, Target;
    if keys != [] {
      var init, d := keys[..|keys| - 1], keys[|keys| - 1];
      var g := SetAll(f, init, replace);
      SetAllOrder(f, init, replace, s);
      if d in replace {
        SetSection(g, Target(d).0, Target(d).1, replace[d], s);
        KeysKept(Section(g, s), Target(d).1, replace[d]);
      }
    }
  }

  /** The merge keeps the order of sections and of the keys in them: new ones come after all the
      old ones, and sections left without entries disappear. */
  lemma MergeKeepsOrder(existing: string, replace: map<string, string>, s: string) returns (added: seq<string>)
    requires Writable(replace)
    ensures var before, after := Parse(existing), Parse(Merged(existing, replace));
      && after.order == Kept(before.order + added, after)
      && KeysIn(Section(before, s)) <= KeysIn(Section(after, s))
  {
    hide Parse, Print, Printable, Section, SetAll, Keys.Sorted, Writable, KeysIn, Kept;
    var f, g := Parse(existing), SetAll(Parse(existing), Keys.Sorted(replace.Keys), replace);
    MergedFileIsPrintable(existing, replace);
    ParsePrint(g);
    WellFormedIfPrintable(g);
    SetAllOrder(f, Keys.Sorted(replace.Keys), replace, s);
    added := g.order[|f.order|..];
    assert f.order + added == g.order;
    CompactSection(g, s);
    KeptAlike(g.order, g, Compact(g.order, g));
  }

  lemma {:induction false} KeptAlikeOn(order: seq<string>, f: File, g: File)
    requires forall s: string :: Section(f, s) == Section(g, s)
    ensures Kept(order, f) == Kept(order, g)
    decreases |order|
  {
    hide Section;
    if order != [] {
      KeptAlikeOn(order[..|order| - 1], f, g);
    }
  }

  lemma KeptAlike(order: seq<string>, f: File, g: File)
    requires WellFormed(f) && g == Compact(f.order, f)
    ensures Kept(order, f) == Kept(order, g)
  {
    hide Kept, Section, Compact;
    forall s: string
      ensures Section(f, s) == Section(g, s)
    {
      CompactSection(f, s);
    }
    KeptAlikeOn(order, f, g);
  }

  // ---------------------------------------------------------------- merging twice

  /** Every replaced key is already there. */
  ghost predicate AllPresent(f: File, keys: seq<string>, replace: map<string, string>) {
    forall d <- keys :: d in replace ==> Target(d).0 in f.data && Target(d).1 in KeysIn(f.data[Target(d).0])
  }

  lemma {:induction false} SetAllShape(f: File, keys: seq<string>, replace: map<string, string>)
    requires AllPresent(f, keys, replace)
    ensures var g := SetAll(f, keys, replace);
      g.order == f.order && g.data.Keys == f.data.Keys && forall s <- f.data :: KeysIn(g.data[s]) == KeysIn(f.data[s])
    decreases |keys|
  {
    hide SetIn, KeysIn, Target;
    if keys != [] {
      var init, d := keys[..|keys| - 1], keys[|keys| - 1];
      SetAllShape(f, init, replace);
      if d in replace {
        var g := SetAll(f, init, replace);
        var (ds, dk) := Target(d);
        assert d in keys;
        SetInKeys(g.data[ds], dk, replace[d]);
      }
    }
  }

  lemma {:induction false} FinalIsSome(keys: seq<string>, replace: map<string, string>, d: string)
    requires d in keys && d in replace
    ensures Final(keys, replace, Target(d).0, Target(d).1).Some?
    decreases |keys|
  {
    if d != keys[|keys| - 1] {
      FinalIsSome(keys[..|keys| - 1], replace, d);
    }
  }

  /** Setting the same replacements on a file that carries them changes nothing. */
  lemma SetAllAgain(f: File, g: File, keys: seq<string>, replace: map<string, string>)
    requires forall s: string :: Section(g, s) == Section(SetAll(f, keys, replace), s)
    requires AllPresent(g, keys, replace)
    ensures SetAll(g, keys, replace) == g
  {
    hide SetIn, KeysIn, Target, SetAll, ValuesIn, Final, AllPresent;
    SetAllShape(g, keys, replace);
    var h := SetAll(g, keys, replace);
    forall s | s in g.data
      ensures h.data[s] == g.data[s]
    {
      forall k: string
        ensures ValuesIn(h.data[s], k) == ValuesIn(g.data[s], k)
      {
        SetAllValues(f, keys, replace, s, k);
        SetAllValues(g, keys, replace, s, k);
      }
      Determined(h.data[s], g.data[s]);
    }
    assert h.data == g.data;
  }

  lemma MergedHasAll(f: File, g: File, keys: seq<string>, replace: map<string, string>)
    requires forall s: string :: Section(g, s) == Section(SetAll(f, keys, replace), s)
    ensures AllPresent(g, keys, replace)
  {
    hide SetIn, KeysIn, Target, SetAll, ValuesIn, Final;
    forall d | d in keys && d in replace
      ensures Target(d).0 in g.data && Target(d).1 in KeysIn(g.data[Target(d).0])
    {
      var (s, k) := Target(d);
      FinalIsSome(keys, replace, d);
      SetAllValues(f, keys, replace, s, k);
      HasValues(Section(g, s), k);
      NoKeys(k);
    }
  }

  lemma NoKeys(k: string)
    ensures ValuesIn([], k) == []
  {
  }

  /** Merging twice is byte for byte the same as merging once. */
  lemma MergeTwice(existing: string, replace: map<string, string>)
    requires Writable(replace)
    ensures Merged(Merged(existing, replace), replace) == Merged(existing, replace)
  {
    hide Parse, Print, Compact, Printable, Section, SetAll, Keys.Sorted, AllPresent, Writable;
    var keys := Keys.Sorted(replace.Keys);
    var f := SetAll(Parse(existing), keys, replace);
    MergedFileIsPrintable(existing, replace);
    ParsePrint(f);
    WellFormedIfPrintable(f);
    var g := Compact(f.order, f);
    forall s: string
      ensures Section(g, s) == Section(f, s)
    {
      CompactSection(f, s);
    }
    MergedHasAll(Parse(existing), g, keys, replace);
    SetAllAgain(Parse(existing), g, keys, replace);
    PrintCompact(f);
  }
}
