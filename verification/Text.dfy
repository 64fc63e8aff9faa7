/** The string functions of Go's standard library that the daemon relies on. */
module Text {
  import opened Common

  predicate HasPrefix(s: string, p: string) { p <= s }

  predicate HasSuffix(s: string, p: string) { |p| <= |s| && s[|s| - |p|..] == p }

  /** Replaces the non-overlapping occurrences of `pat`, leftmost first. */
  function ReplaceAll(s: string, pat: string, sub: string): string
    requires pat != ""
    decreases |s|
  {
    if s == "" then ""
    else if pat <= s then sub + ReplaceAll(s[|pat|..], pat, sub)
    else [s[0]] + ReplaceAll(s[1..], pat, sub)
  }

  /** Position of the first `c`, if any. */
  function Index(s: string, c: char): (r: Option<nat>)
    ensures r.Some? ==> r.value < |s| && s[r.value] == c && c !in s[..r.value]
    ensures r.None? ==> c !in s
  {
    if s == "" then None
    else if s[0] == c then Some(0)
    else
      match Index(s[1..], c)
      case Some(i) =>
        assert s[..i + 1] == [s[0]] + s[1..][..i];
        Some(i + 1)
      case None => None
  }

  /** The pieces between separators; always at least one. */
  function Split(s: string, sep: char): (parts: seq<string>)
    ensures |parts| >= 1 && forall p <- parts :: sep !in p
  {
    match Index(s, sep)
    case None => [s]
    case Some(i) => [s[..i]] + Split(s[i + 1..], sep)
  }

  function Join(parts: seq<string>, sep: char): string {
    if parts == [] then ""
    else if |parts| == 1 then parts[0]
    else parts[0] + [sep] + Join(parts[1..], sep)
  }

  lemma {:induction false} IndexIs(s: string, c: char, i: nat)
    requires i < |s| && s[i] == c && c !in s[..i]
    ensures Index(s, c) == Some(i)
    decreases i
  {
    if i > 0 {
      assert s[0] == s[..i][0];
      assert forall x <- s[1..][..i - 1] :: x in s[..i];
      IndexIs(s[1..], c, i - 1);
    }
  }

  lemma SplitPiece(p: string, rest: string, sep: char)
    requires sep !in p
    ensures Split(p, sep) == [p]
    ensures Split(p + [sep] + rest, sep) == [p] + Split(rest, sep)
  {
    var s := p + [sep] + rest;
    assert s[..|p|] == p && s[|p| + 1..] == rest;
    IndexIs(s, sep, |p|);
  }

  /** Pieces without separators come back from their joined text. */
  lemma {:induction false} SplitJoin(parts: seq<string>, sep: char)
    requires |parts| >= 1 && forall p <- parts :: sep !in p
    ensures Split(Join(parts, sep), sep) == parts
    decreases |parts|
  {
    hide Index, Split;
    if |parts| == 1 {
      SplitPiece(parts[0], "", sep);
      assert parts == [parts[0]];
    } else {
      SplitJoin(parts[1..], sep);
      SplitPiece(parts[0], Join(parts[1..], sep), sep);
      assert parts == [parts[0]] + parts[1..];
    }
  }

  lemma {:induction false} JoinSplit(s: string, sep: char)
    ensures Join(Split(s, sep), sep) == s
    decreases |s|
  {
    hide Index, Split;
    match Index(s, sep) {
      case None => SplitPiece(s, "", sep);
      case Some(i) =>
        var head, tail := s[..i], s[i + 1..];
        JoinSplit(tail, sep);
        assert s == head + [sep] + tail;
        SplitPiece(head, tail, sep);
        assert ([head] + Split(tail, sep))[1..] == Split(tail, sep);
    }
  }

  /** A number as %d prints it. */
  function Decimal(n: nat): (s: string)
    ensures s != "" && forall c <- s :: '0' <= c <= '9'
  {
    var digit := ['0' + (n % 10) as char];
    if n < 10 then digit else Decimal(n / 10) + digit
  }

  /** `digits` is the decimal numeral of `n`: it has that value and no zero in front. */
  ghost predicate Reads(digits: string, n: nat) {
    && digits != "" && (forall c <- digits :: '0' <= c <= '9') && Value(digits) == n
    && (digits[0] == '0' ==> digits == "0")
  }

  function Value(digits: string): int {
    if digits == "" then 0 else 10 * Value(digits[..|digits| - 1]) + (digits[|digits| - 1] as int - '0' as int)
  }

  lemma {:induction false} DecimalReads(n: nat)
    ensures Reads(Decimal(n), n)
    ensures n > 0 ==> Decimal(n)[0] != '0'
    decreases n
  {
    var digit := ['0' + (n % 10) as char];
    if n < 10 {
      assert Value(digit[..0]) == 0;
    } else {
      DecimalReads(n / 10);
      assert (Decimal(n / 10) + digit)[..|Decimal(n / 10)|] == Decimal(n / 10);
    }
  }

  // ---------------------------------------------------------------- white space

  /** Unicode white space, as Go's unicode.IsSpace. */
  predicate IsSpace(c: char) {
    var n := c as int;
    || (9 <= n <= 13) || n == 32 || n == 0x85 || n == 0xA0 || n == 0x1680
    || (0x2000 <= n <= 0x200A) || n == 0x2028 || n == 0x2029 || n == 0x202F || n == 0x205F || n == 0x3000
  }

  function TrimLeft(s: string): string {
    if s != "" && IsSpace(s[0]) then TrimLeft(s[1..]) else s
  }

  function TrimRight(s: string): string {
    if s != "" && IsSpace(s[|s| - 1]) then TrimRight(s[..|s| - 1]) else s
  }

  /** What trimming the front takes away: the white space there, and no more. */
  lemma {:induction false} TrimLeftIs(s: string)
    ensures var r := TrimLeft(s);
      && |r| <= |s| && r == s[|s| - |r|..] && (r != "" ==> !IsSpace(r[0]))
      && forall i :: 0 <= i < |s| - |r| ==> IsSpace(s[i])
    decreases |s|
  {
    hide IsSpace;
    if s != "" && IsSpace(s[0]) {
      TrimLeftIs(s[1..]);
    }
  }

  lemma {:induction false} TrimRightIs(s: string)
    ensures var r := TrimRight(s);
      && |r| <= |s| && r == s[..|r|] && (r != "" ==> !IsSpace(r[|r| - 1]))
      && forall i :: |r| <= i < |s| ==> IsSpace(s[i])
    decreases |s|
  {
    hide IsSpace;
    if s != "" && IsSpace(s[|s| - 1]) {
      TrimRightIs(s[..|s| - 1]);
    }
  }

  function TrimSpace(s: string): string { TrimRight(TrimLeft(s)) }

  /** Nothing to trim at either end. */
  predicate Trimmed(s: string) { s == "" || (!IsSpace(s[0]) && !IsSpace(s[|s| - 1])) }

  lemma TrimSpaceTrims(s: string)
    ensures Trimmed(TrimSpace(s))
    ensures Trimmed(s) ==> TrimSpace(s) == s
    ensures TrimSpace(TrimSpace(s)) == TrimSpace(s)
  {
    var l := TrimLeft(s);
    var r := TrimRight(l);
    TrimLeftIs(s);
    TrimRightIs(l);
    if r != "" {
      assert r[0] == l[0];
    }
  }

  lemma {:induction false} TrimLeftBefore(a: string, t: string)
    requires t != "" && !IsSpace(t[0])
    ensures TrimLeft(a + t) == TrimLeft(a) + t
    decreases |a|
  {
    if a == "" {
      assert a + t == t;
    } else {
      assert (a + t)[0] == a[0] && (a + t)[1..] == a[1..] + t;
      TrimLeftBefore(a[1..], t);
    }
  }

  lemma {:induction false} TrimRightAfter(t: string, b: string)
    requires t != "" && !IsSpace(t[|t| - 1])
    ensures TrimRight(t + b) == t + TrimRight(b)
    decreases |b|
  {
    if b == "" {
      assert t + b == t;
    } else {
      assert (t + b)[|t + b| - 1] == b[|b| - 1] && (t + b)[..|t + b| - 1] == t + b[..|b| - 1];
      TrimRightAfter(t, b[..|b| - 1]);
    }
  }

  lemma {:induction false} TrimLeftTrailing(s: string, c: char)
    requires IsSpace(c)
    ensures TrimRight(TrimLeft(s + [c])) == TrimRight(TrimLeft(s))
    decreases |s|
  {
    if s == "" {
      assert "" + [c] == [c] && [c][1..] == "" && TrimLeft("") == "";
    } else if IsSpace(s[0]) {
      assert (s + [c])[1..] == s[1..] + [c];
      TrimLeftTrailing(s[1..], c);
    } else {
      assert (s + [c])[..|s|] == s;
    }
  }

  /** Trailing white space does not matter to TrimSpace. */
  lemma TrimSpaceTrailing(s: string, c: char)
    requires IsSpace(c)
    ensures TrimSpace(s + [c]) == TrimSpace(s)
  {
    TrimLeftTrailing(s, c);
  }
}
