/** Merging `section.key` replacements into an ini file: parse, set, print again. */
module Ini {
  import opened Common
  import opened Text
  import Keys

  type Pair = (string, string)

  /** The in-memory file: sections in order of first appearance, the global one first. */
  datatype File = File(order: seq<string>, data: map<string, seq<Pair>>)

  // ---------------------------------------------------------------- parsing

  datatype Line = Skip | Header(section: string) | Entry(key: string, val: string)

  function Classify(line: string): Line {
    var t := TrimSpace(line);
    if t == "" || HasPrefix(t, ";") || HasPrefix(t, "#") then Skip
    else if HasPrefix(t, "[") && HasSuffix(t, "]") then Header(TrimSpace(t[1..|t| - 1]))
    else
      match Index(line, '=')
      case Some(eq) => Entry(TrimSpace(line[..eq]), TrimSpace(line[eq + 1..]))
      case None => Skip
  }

  datatype Parser = Parser(file: File, cur: string)

  const START := Parser(File([""], map["" := []]), "")

  function Section(f: File, s: string): seq<Pair> { if s in f.data then f.data[s] else [] }

  /** Makes room for a section that has not appeared yet. */
  function Open(f: File, s: string): File {
    if s in f.data then f else File(f.order + [s], f.data[s := []])
  }

  function Accept(p: Parser, line: Line): Parser {
    match line
    case Skip => p
    case Header(s) => Parser(Open(p.file, s), s)
    case Entry(k, v) => p.(file := p.file.(data := p.file.data[p.cur := Section(p.file, p.cur) + [(k, v)]]))
  }

  function ParseFrom(p: Parser, lines: seq<string>): Parser {
    if lines == [] then p
    else Accept(ParseFrom(p, lines[..|lines| - 1]), Classify(lines[|lines| - 1]))
  }

  function Parse(text: string): File { ParseFrom(START, Split(text, '\n')).file }

  // ---------------------------------------------------------------- setting

  function SetIn(kvs: seq<Pair>, k: string, v: string): seq<Pair> {
    if kvs == [] then [(k, v)]
    else if kvs[0].0 == k then [(k, v)] + kvs[1..]
    else [kvs[0]] + SetIn(kvs[1..], k, v)
  }

  function Set(f: File, s: string, k: string, v: string): File {
    var g := Open(f, s);
    g.(data := g.data[s := SetIn(Section(g, s), k, v)])
  }

  /** Section and key of a replacement: split at the first dot, if there is one. */
  function Target(dotted: string): Pair {
    match Index(dotted, '.')
    case Some(i) => (dotted[..i], dotted[i + 1..])
    case None => ("", dotted)
  }

  function SetAll(f: File, keys: seq<string>, replace: map<string, string>): File {
    if keys == [] then f
    else
      var g, d := SetAll(f, keys[..|keys| - 1], replace), keys[|keys| - 1];
      if d in replace then Set(g, Target(d).0, Target(d).1, replace[d]) else g
  }

  // ---------------------------------------------------------------- printing

  function EntryLines(kvs: seq<Pair>): seq<string> {
    if kvs == [] then []
    else EntryLines(kvs[..|kvs| - 1]) + [kvs[|kvs| - 1].0 + "=" + kvs[|kvs| - 1].1]
  }

  /** Empty sections are not printed; the global section has no header. */
  function SectionLines(s: string, kvs: seq<Pair>): seq<string> {
    if kvs == [] then [] else (if s == "" then [] else ["[" + s + "]"]) + EntryLines(kvs)
  }

  function FileLines(order: seq<string>, f: File): seq<string> {
    if order == [] then []
    else FileLines(order[..|order| - 1], f) + SectionLines(order[|order| - 1], Section(f, order[|order| - 1]))
  }

  /** Each line ends in a newline. */
  function Unlines(lines: seq<string>): string { Join(lines + [""], '\n') }

  function Print(f: File): string { Unlines(FileLines(f.order, f)) }

  ghost function Merged(existing: string, replace: map<string, string>): string {
    Print(SetAll(Parse(existing), Keys.Sorted(replace.Keys), replace))
  }

  lemma {:induction false} UnlinesAppend(lines: seq<string>, l: string)
    ensures Unlines(lines + [l]) == Unlines(lines) + l + "\n"
    decreases |lines|
  {
    var all := lines + [l] + [""];
    if lines == [] {
      assert all == [l, ""] && lines + [""] == [""];
      assert all[1..] == [""];
      assert Join([""], '\n') == "";
    } else {
      UnlinesAppend(lines[1..], l);
      assert all[1..] == lines[1..] + [l] + [""] && (lines + [""])[1..] == lines[1..] + [""];
    }
  }

  /** Sections and table agree, with no section twice and the global one in front. */
  ghost predicate WellFormed(f: File) {
    && |f.order| > 0 && f.order[0] == ""
    && (forall i, j :: 0 <= i < j < |f.order| ==> f.order[i] != f.order[j])
    && (forall s: string :: s in f.data <==> s in f.order)
  }

  // ---------------------------------------------------------------- the merge

  method ParseText(text: string) returns (order: seq<string>, data: map<string, seq<Pair>>)
    ensures File(order, data) == Parse(text)
  {
    hide TrimSpace, Index, Split;
    order, data := [""], map["" := []];
    var cur := "";
    var lines := Split(text, '\n');
    for i := 0 to |lines|
      invariant Parser(File(order, data), cur) == ParseFrom(START, lines[..i])
      invariant cur in data
    {
      assert lines[..i + 1][..i] == lines[..i];
      var line := lines[i];
      assert ParseFrom(START, lines[..i + 1]) == Accept(ParseFrom(START, lines[..i]), Classify(line));
      var t := TrimSpace(line);
      if t == "" || HasPrefix(t, ";") || HasPrefix(t, "#") {
        continue;
      }
      if HasPrefix(t, "[") && HasSuffix(t, "]") {
        cur := TrimSpace(t[1..|t| - 1]);
        if cur !in data {
          order := order + [cur];
          data := data[cur := []];
        }
        continue;
      }
      match Index(line, '=') {
        case Some(eq) =>
          data := data[cur := data[cur] + [(TrimSpace(line[..eq]), TrimSpace(line[eq + 1..]))]];
        case None =>
      }
    }
    assert lines[..|lines|] == lines;
  }

  /** Overwrites the first entry of the key in place, or appends one. */
  method SetEntry(order: seq<string>, data: map<string, seq<Pair>>, section: string, key: string, val: string)
      returns (order': seq<string>, data': map<string, seq<Pair>>)
    ensures File(order', data') == Set(File(order, data), section, key, val)
  {
    order', data' := order, data;
    if section !in data' {
      order' := order' + [section];
      data' := data'[section := []];
    }
    var kvs := data'[section];
    hide SetIn;
    for i := 0 to |kvs|
      invariant forall j :: 0 <= j < i ==> kvs[j].0 != key
    {
      if kvs[i].0 == key {
        data' := data'[section := kvs[i := (key, val)]];
        SetInReplaces(kvs, i, key, val);
        return;
      }
    }
    SetInAppends(kvs, key, val);
    data' := data'[section := kvs + [(key, val)]];
  }

  lemma {:induction false} SetInReplaces(kvs: seq<Pair>, i: nat, key: string, val: string)
    requires i < |kvs| && kvs[i].0 == key && forall j :: 0 <= j < i ==> kvs[j].0 != key
    ensures SetIn(kvs, key, val) == kvs[i := (key, val)]
    decreases |kvs|
  {
    if i > 0 {
      SetInReplaces(kvs[1..], i - 1, key, val);
    }
  }

  lemma {:induction false} SetInAppends(kvs: seq<Pair>, key: string, val: string)
    requires forall p <- kvs :: p.0 != key
    ensures SetIn(kvs, key, val) == kvs + [(key, val)]
    decreases |kvs|
  {
    if kvs != [] {
      assert forall p <- kvs[1..] :: p in kvs;
      SetInAppends(kvs[1..], key, val);
    }
  }

  lemma NothingSet(f: File, replace: map<string, string>)
    ensures SetAll(f, [], replace) == f
  {
  }

  lemma SetAllStep(f: File, keys: seq<string>, i: nat, replace: map<string, string>)
    requires i < |keys| && keys[i] in replace
    ensures SetAll(f, keys[..i + 1], replace) ==
      Set(SetAll(f, keys[..i], replace), Target(keys[i]).0, Target(keys[i]).1, replace[keys[i]])
  {
    hide Set, Target;
    assert keys[..i + 1][..i] == keys[..i];
  }

  method MergeINI(existing: string, replace: map<string, string>) returns (text: string)
    ensures text == Merged(existing, replace)
  {
    hide SetAll, Set, Parse, Target, Print;
    var order, data := ParseText(existing);
    var keys := Keys.SortedKeys(replace);
    NothingSet(Parse(existing), replace);
    for i := 0 to |keys|
      invariant File(order, data) == SetAll(Parse(existing), keys[..i], replace)
    {
      assert keys[i] in keys;
      SetAllStep(Parse(existing), keys, i, replace);
      var target := Target(keys[i]);
      order, data := SetEntry(order, data, target.0, target.1, replace[keys[i]]);
    }
    assert keys[..|keys|] == keys;
    text := Emit(order, data);
  }

  method Emit(order: seq<string>, data: map<string, seq<Pair>>) returns (text: string)
    ensures text == Print(File(order, data))
  {
    ghost var f := File(order, data);
    text := "";
    for i := 0 to |order|
      invariant text == Unlines(FileLines(order[..i], f))
    {
      assert order[..i + 1][..i] == order[..i];
      var s := order[i];
      ghost var done := FileLines(order[..i], f);
      if s !in data || |data[s]| == 0 {
        assert done + [] == done;
        continue;
      }
      text := EmitSection(text, s, data[s], done);
    }
    assert order[..|order|] == order;
  }

  lemma NoEntryLines(done: seq<string>)
    ensures done + EntryLines([]) == done
  {
  }

  lemma EntryLinesStep(done: seq<string>, kvs: seq<Pair>, j: nat)
    requires j < |kvs|
    ensures done + EntryLines(kvs[..j + 1]) == done + EntryLines(kvs[..j]) + [kvs[j].0 + "=" + kvs[j].1]
  {
    assert kvs[..j + 1][..j] == kvs[..j];
  }

  /** The inner part of the printing loop, after the lines already emitted. */
  method EmitSection(before: string, s: string, kvs: seq<Pair>, ghost lines: seq<string>) returns (text: string)
    requires before == Unlines(lines) && kvs != []
    ensures text == Unlines(lines + SectionLines(s, kvs))
  {
    hide Unlines, EntryLines;
    text := before;
    ghost var done := lines;
    if s != "" {
      done := lines + ["[" + s + "]"];
      UnlinesAppend(lines, "[" + s + "]");
      text := text + ("[" + s + "]") + "\n";
    }
    NoEntryLines(done);
    for j := 0 to |kvs|
      invariant text == Unlines(done + EntryLines(kvs[..j]))
    {
      var l := kvs[j].0 + "=" + kvs[j].1;
      UnlinesAppend(done + EntryLines(kvs[..j]), l);
      EntryLinesStep(done, kvs, j);
      text := text + l + "\n";
    }
    assert kvs[..|kvs|] == kvs;
    assert done + EntryLines(kvs) == lines + SectionLines(s, kvs);
  }
}
