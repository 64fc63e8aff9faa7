/** Merging replacements into a `key=value` properties file. */
module Properties {
  import opened Common
  import opened Text
  import Keys

  // ---------------------------------------------------------------- lines

  /** The key of an entry line; comments, blank lines and lines without `=` have none. */
  function KeyOf(line: string): Option<string> {
    var t := TrimSpace(line);
    if t == "" || HasPrefix(t, "#") || HasPrefix(t, "!") then None
    else
      match Index(line, '=')
      case None => None
      case Some(eq) => Some(TrimSpace(line[..eq]))
  }

  function Rewritten(line: string, replace: map<string, string>): string {
    match KeyOf(line)
    case Some(k) => if k in replace then k + "=" + replace[k] else line
    case None => line
  }

  function RewriteAll(lines: seq<string>, replace: map<string, string>): (r: seq<string>)
    ensures |r| == |lines| && forall i :: 0 <= i < |lines| ==> r[i] == Rewritten(lines[i], replace)
  {
    seq(|lines|, i requires 0 <= i < |lines| => Rewritten(lines[i], replace))
  }

  /** The replaced keys that some line carries. */
  function Seen(lines: seq<string>, replace: map<string, string>): set<string> {
    if lines == [] then {}
    else
      Seen(lines[..|lines| - 1], replace) +
      (match KeyOf(lines[|lines| - 1])
       case Some(k) => if k in replace then {k} else {}
       case None => {})
  }

  function Appended(keys: seq<string>, seen: set<string>, replace: map<string, string>): seq<string> {
    if keys == [] then []
    else
      var k := keys[|keys| - 1];
      Appended(keys[..|keys| - 1], seen, replace) + (if k in replace && k !in seen then [k + "=" + replace[k]] else [])
  }

  function Normalised(text: string): string { ReplaceAll(text, "\r\n", "\n") }

  function Lines(text: string): seq<string> { Split(Normalised(text), '\n') }

  /** The lines of the file to rewrite; an empty file has none. */
  function BaseLines(text: string): seq<string> { if text == "" then [] else Lines(text) }

  ghost function OutLines(existing: string, replace: map<string, string>): seq<string> {
    RewriteAll(BaseLines(existing), replace) +
    Appended(Keys.Sorted(replace.Keys), Seen(BaseLines(existing), replace), replace)
  }

  /** Old lines in place, replaced ones rewritten, missing keys appended in sorted order. */
  ghost function Merged(existing: string, replace: map<string, string>): string {
    Join(OutLines(existing, replace), '\n')
  }

  method MergeProperties(existing: string, replace: map<string, string>) returns (text: string)
    ensures text == Merged(existing, replace)
  {
    hide Split, Join, ReplaceAll, Rewritten, KeyOf, Seen, RewriteAll;
    var lines, seen := RewriteLines(Split(ReplaceAll(existing, "\r\n", "\n"), '\n'), replace);
    if existing == "" {
      EmptyHasNoKeys(replace);
      lines := [];
    }
    var out := AppendMissing(lines, seen, replace);
    text := Join(out, '\n');
  }

  lemma NothingAppended(lines: seq<string>, seen: set<string>, replace: map<string, string>)
    ensures lines + Appended([], seen, replace) == lines
  {
  }

  lemma AppendedStep(lines: seq<string>, keys: seq<string>, i: nat, seen: set<string>, replace: map<string, string>)
    requires i < |keys| && keys[i] in replace
    ensures lines + Appended(keys[..i + 1], seen, replace) ==
      lines + Appended(keys[..i], seen, replace) + (if keys[i] in seen then [] else [keys[i] + "=" + replace[keys[i]]])
  {
    assert keys[..i + 1][..i] == keys[..i];
  }

  /** The last loop of the merge: one line per missing key, in sorted order. */
  method AppendMissing(lines: seq<string>, seen: set<string>, replace: map<string, string>) returns (out: seq<string>)
    ensures out == lines + Appended(Keys.Sorted(replace.Keys), seen, replace)
  {
    hide Appended;
    out := lines;
    var keys := Keys.SortedKeys(replace);
    NothingAppended(lines, seen, replace);
    for i := 0 to |keys|
      invariant out == lines + Appended(keys[..i], seen, replace)
    {
      assert keys[i] in keys;
      AppendedStep(lines, keys, i, seen, replace);
      if keys[i] !in seen {
        out := out + [keys[i] + "=" + replace[keys[i]]];
      }
    }
    assert keys[..|keys|] == keys;
  }

  /** The first loop of the merge: overwrites entry lines in place and notes their keys. */
  method RewriteLines(was: seq<string>, replace: map<string, string>) returns (lines: seq<string>, seen: set<string>)
    ensures lines == RewriteAll(was, replace) && seen == Seen(was, replace)
  {
    hide TrimSpace, Index, IsSpace, RewriteAll;
    lines, seen := was, {};
    for i := 0 to |lines|
      invariant |lines| == |was| && seen == Seen(was[..i], replace)
      invariant forall j :: 0 <= j < i ==> lines[j] == Rewritten(was[j], replace)
      invariant forall j :: i <= j < |was| ==> lines[j] == was[j]
    {
      assert was[..i + 1][..i] == was[..i];
      var line := lines[i];
      assert line == was[i];
      var t := TrimSpace(line);
      if t == "" || HasPrefix(t, "#") || HasPrefix(t, "!") {
        continue;
      }
      match Index(line, '=') {
        case None =>
        case Some(eq) =>
          var key := TrimSpace(line[..eq]);
          if key in replace {
            lines := lines[i := key + "=" + replace[key]];
            seen := seen + {key};
          }
      }
    }
    assert was[..|was|] == was;
  }

  lemma EmptyHasNoKeys(replace: map<string, string>)
    ensures Lines("") == [""] && Seen([""], replace) == {} && Seen([], replace) == {}
  {
    assert [""][..0] == [];
  }

  // ---------------------------------------------------------------- reading back

  /** The entries a reader sees, in file order, values trimmed. */
  function EntryOf(line: string): Option<(string, string)> {
    match KeyOf(line)
    case None => None
    case Some(k) =>
      match Index(line, '=')
      case None => None
      case Some(eq) => Some((k, TrimSpace(line[eq + 1..])))
  }

  function Entries(lines: seq<string>): seq<(string, string)> {
    if lines == [] then []
    else
      Entries(lines[..|lines| - 1]) +
      (match EntryOf(lines[|lines| - 1]) case Some(e) => [e] case None => [])
  }

  function Override(entries: seq<(string, string)>, replace: map<string, string>): (r: seq<(string, string)>)
    ensures |r| == |entries|
  {
    seq(|entries|, i requires 0 <= i < |entries| =>
      if entries[i].0 in replace then (entries[i].0, TrimSpace(replace[entries[i].0])) else entries[i])
  }

  /** The pairs a reader sees for missing keys. */
  function Missing(keys: seq<string>, seen: set<string>, replace: map<string, string>): seq<(string, string)> {
    if keys == [] then []
    else
      var k := keys[|keys| - 1];
      Missing(keys[..|keys| - 1], seen, replace) +
      (if k in replace && k !in seen then [(k, TrimSpace(replace[k]))] else [])
  }

  predicate OneLine(s: string) { '\n' !in s && '\r' !in s }

  /** Keys that can be written as the left side of an entry line, and one-line values. */
  ghost predicate Writable(replace: map<string, string>) {
    forall k <- replace ::
      Trimmed(k) && '=' !in k && OneLine(k) && !HasPrefix(k, "#") && !HasPrefix(k, "!") && OneLine(replace[k])
  }

  lemma KeyLine(k: string, v: string)
    requires Trimmed(k) && '=' !in k && !HasPrefix(k, "#") && !HasPrefix(k, "!")
    ensures KeyOf(k + "=" + v) == Some(k)
    ensures EntryOf(k + "=" + v) == Some((k, TrimSpace(v)))
  {
    var line := k + "=" + v;
    assert line[..|k|] == k && line[|k| + 1..] == v && line[|k|] == '=';
    IndexIs(line, '=', |k|);
    TrimSpaceTrims(k);
    TrimStartsAlike(line, |k|);
  }

  /** Trimming keeps the first visible character. */
  lemma TrimStartsAlike(line: string, eq: nat)
    requires eq < |line| && line[eq] == '=' && Trimmed(line[..eq])
    ensures TrimSpace(line) != "" && TrimSpace(line)[0] == line[0]
    ensures TrimSpace(line)[0] == (if eq > 0 then line[..eq][0] else '=')
  {
    assert !IsSpace(line[0]);
    assert TrimLeft(line) == line;
    TrimRightIs(line);
    assert IsSpace(line[0]) || TrimRight(line) != "";
  }
}
