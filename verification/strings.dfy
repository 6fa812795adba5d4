/** Character classes and string operations used by the pages: Python's `str.strip`,
    the `\d` and `\s` classes of its regular expressions, SQL `LIKE '%x%'` as a
    plain substring test, a codepoint order standing in for the collation of
    `ORDER BY`, and `str.join`. */
module Strings {

  /** `\d` restricted to the ASCII digits. */
  predicate IsDigit(c: char) {
    '0' <= c <= '9'
  }

  /** `\s` and `str.strip` restricted to ASCII: the space, tab to carriage return, and
      the four separators 0x1C to 0x1F, the ten ASCII characters Python counts as whitespace. */
  predicate IsSpace(c: char) {
    c == ' ' || '\t' <= c <= '\r' || '\U{1C}' <= c <= '\U{1F}'
  }

  ghost predicate AllSpace(s: string) {
    forall i :: 0 <= i < |s| ==> IsSpace(s[i])
  }

  ghost predicate AllDigits(s: string) {
    forall i :: 0 <= i < |s| ==> IsDigit(s[i])
  }

  /** Neither starts nor ends with whitespace. */
  ghost predicate Trimmed(s: string) {
    |s| == 0 || (!IsSpace(s[0]) && !IsSpace(s[|s| - 1]))
  }

  /** Drops the leading whitespace (`str.lstrip`, also the regex `^\s*`). */
  function TrimStart(s: string): (r: string)
    ensures |r| <= |s| && r == s[|s| - |r|..]
    ensures AllSpace(s[..|s| - |r|])
    ensures |r| == 0 || !IsSpace(r[0])
  {
    if |s| > 0 && IsSpace(s[0]) then TrimStart(s[1..]) else s
  }

  /** Drops the trailing whitespace (`str.rstrip`). */
  function TrimEnd(s: string): (r: string)
    ensures |r| <= |s| && r == s[..|r|]
    ensures AllSpace(s[|r|..])
    ensures |r| == 0 || !IsSpace(r[|r| - 1])
  {
    if |s| > 0 && IsSpace(s[|s| - 1]) then TrimEnd(s[..|s| - 1]) else s
  }

  /** `r` is `s[i..j]` and everything of `s` around it is whitespace. */
  ghost predicate Middle(s: string, r: string, i: int, j: int) {
    0 <= i <= j <= |s| && r == s[i..j] && AllSpace(s[..i]) && AllSpace(s[j..])
  }

  /** `str.strip`: the result is the middle of `s` between two whitespace runs. */
  function Trim(s: string): (r: string)
    ensures Trimmed(r)
    ensures exists i, j :: Middle(s, r, i, j)
  {
    var a := TrimStart(s);
    var r := TrimEnd(a);
    TrimFacts(s, a, r);
    r
  }

  lemma TrimFacts(s: string, a: string, r: string)
    requires |a| <= |s| && a == s[|s| - |a|..] && AllSpace(s[..|s| - |a|])
    requires |r| <= |a| && r == a[..|r|] && AllSpace(a[|r|..])
    requires |r| == 0 || !IsSpace(r[|r| - 1])
    requires |a| == 0 || !IsSpace(a[0])
    ensures Trimmed(r)
    ensures Middle(s, r, |s| - |a|, |s| - |a| + |r|)
  {
    var i := |s| - |a|;
    var j := i + |r|;
    assert r == s[i..j];
    assert s[j..] == a[|r|..];
  }

  /** Drops the leading run of digits (the regex `^\d+`, or nothing when there is none). */
  function TrimDigits(s: string): (r: string)
    ensures |r| <= |s| && r == s[|s| - |r|..]
    ensures AllDigits(s[..|s| - |r|])
    ensures |r| == 0 || !IsDigit(r[0])
  {
    if |s| > 0 && IsDigit(s[0]) then TrimDigits(s[1..]) else s
  }

  /** `needle` occurs in `hay` starting at position `i`. */
  predicate OccursAt(hay: string, needle: string, i: int) {
    0 <= i && i + |needle| <= |hay| && hay[i..i + |needle|] == needle
  }

  /** `needle` occurs somewhere in `hay`: SQL `hay LIKE '%needle%'` without wildcards. */
  predicate Contains(hay: string, needle: string) {
    exists i :: 0 <= i <= |hay| - |needle| && OccursAt(hay, needle, i)
  }

  lemma ContainsSelf(s: string)
    ensures Contains(s, s)
    ensures Contains(s, "")
  {
    assert OccursAt(s, s, 0);
    assert OccursAt(s, "", 0);
  }

  /** Codepoint-wise lexicographic order; a proper prefix comes first. */
  predicate LexLess(a: string, b: string) {
    if |a| == 0 then |b| > 0
    else if |b| == 0 then false
    else if a[0] != b[0] then a[0] < b[0]
    else LexLess(a[1..], b[1..])
  }

  lemma {:induction false} LexIrreflexive(a: string)
    ensures !LexLess(a, a)
  {
    if |a| > 0 {
      LexIrreflexive(a[1..]);
    }
  }

  lemma {:induction false} LexTransitive(a: string, b: string, c: string)
    requires LexLess(a, b) && LexLess(b, c)
    ensures LexLess(a, c)
  {
    if |a| > 0 && a[0] == b[0] && b[0] == c[0] {
      LexTransitive(a[1..], b[1..], c[1..]);
    }
  }

  lemma {:induction false} LexTotal(a: string, b: string)
    ensures a == b || LexLess(a, b) || LexLess(b, a)
  {
    if |a| > 0 && |b| > 0 && a[0] == b[0] {
      LexTotal(a[1..], b[1..]);
      if a[1..] == b[1..] {
        assert a == [a[0]] + a[1..] && b == [b[0]] + b[1..];
      }
    }
  }

  /** Python's `sep.join(parts)`. */
  function Join(sep: string, parts: seq<string>): string {
    if |parts| == 0 then ""
    else if |parts| == 1 then parts[0]
    else parts[0] + sep + Join(sep, parts[1..])
  }

  /** Position of the first `c` in `s`, or `|s|` when there is none. */
  function IndexOf(c: char, s: string): (i: nat)
    ensures i <= |s|
    ensures c !in s[..i]
    ensures i < |s| <==> c in s
    ensures i < |s| ==> s[i] == c
  {
    if |s| == 0 then 0
    else if s[0] == c then 0
    else
      var i := 1 + IndexOf(c, s[1..]);
      assert s[..i] == [s[0]] + s[1..][..i - 1];
      i
  }

  /** Python's `s.split(c)`: the pieces between the occurrences of `c`. */
  function Split(c: char, s: string): (r: seq<string>)
    ensures |r| > 0
    ensures forall k :: 0 <= k < |r| ==> c !in r[k]
    decreases |s|
  {
    var i := IndexOf(c, s);
    if i == |s| then [s] else [s[..i]] + Split(c, s[i + 1..])
  }

  /** `split` undoes `join` when no part contains the separator. */
  lemma {:induction false} SplitJoin(c: char, parts: seq<string>)
    requires |parts| > 0
    requires forall k :: 0 <= k < |parts| ==> c !in parts[k]
    ensures Split(c, Join([c], parts)) == parts
  {
    if |parts| == 1 {
      assert IndexOf(c, parts[0]) == |parts[0]|;
    } else {
      var rest := Join([c], parts[1..]);
      assert Join([c], parts) == parts[0] + [c] + rest;
      SplitCons(c, parts[0], rest);
      SplitJoin(c, parts[1..]);
    }
  }

  /** A piece free of `c` followed by `c` splits off as the first piece. */
  lemma SplitCons(c: char, p: string, rest: string)
    requires c !in p
    ensures Split(c, p + [c] + rest) == [p] + Split(c, rest)
  {
    var s := p + [c] + rest;
    assert s == p + ([c] + rest);
    IndexOfPrefix(c, p, [c] + rest);
    assert s[..|p|] == p;
    assert s[|p| + 1..] == rest;
  }

  /** Searching past a prefix free of `c` lands on the first `c` after it. */
  lemma {:induction false} IndexOfPrefix(c: char, p: string, t: string)
    requires c !in p
    requires |t| > 0 && t[0] == c
    ensures IndexOf(c, p + t) == |p|
  {
    if |p| > 0 {
      assert (p + t)[1..] == p[1..] + t;
      IndexOfPrefix(c, p[1..], t);
    }
  }
}
