/** String operations of the JavaScript runtime that the modelled code relies on,
    re-stated over `seq<char>`: whitespace and `trim`, prefix and suffix tests,
    `indexOf`, `replace` with a string pattern (first occurrence only), `split`
    and `join`, and ASCII case folding. */
module Strings {
  import opened Results

  /** ECMAScript WhiteSpace and LineTerminator code points: exactly the characters
      matched by the regular-expression class `\s` and removed by `trim()`. */
  predicate IsSpace(c: char) {
    || c == ' ' || c == '\t' || c == '\n' || c == '\r'
    || c == '\U{0B}' || c == '\U{0C}' || c == '\U{A0}' || c == '\U{1680}'
    || ('\U{2000}' <= c <= '\U{200A}')
    || c == '\U{2028}' || c == '\U{2029}' || c == '\U{202F}' || c == '\U{205F}'
    || c == '\U{3000}' || c == '\U{FEFF}'
  }

  predicate AllSpace(s: string) {
    forall i :: 0 <= i < |s| ==> IsSpace(s[i])
  }

  predicate StartsWith(s: string, prefix: string) {
    prefix <= s
  }

  predicate EndsWith(s: string, suffix: string) {
    |suffix| <= |s| && s[|s| - |suffix|..] == suffix
  }

  /** `trimStart()`: the longest suffix of `s` that does not begin with whitespace. */
  function TrimStart(s: string): (r: string)
    ensures |r| <= |s| && r == s[|s| - |r|..]
    ensures r == [] || !IsSpace(r[0])
    ensures forall i :: 0 <= i < |s| - |r| ==> IsSpace(s[i])
    decreases |s|
  {
    if |s| > 0 && IsSpace(s[0]) then TrimStart(s[1..]) else s
  }

  /** `trimEnd()`: the longest prefix of `s` that does not end with whitespace. */
  function TrimEnd(s: string): (r: string)
    ensures |r| <= |s| && r == s[..|r|]
    ensures r == [] || !IsSpace(r[|r| - 1])
    ensures forall i :: |r| <= i < |s| ==> IsSpace(s[i])
    decreases |s|
  {
    if |s| > 0 && IsSpace(s[|s| - 1]) then TrimEnd(s[..|s| - 1]) else s
  }

  /** `trim()`: whitespace removed from both ends. */
  function Trim(s: string): (r: string)
    ensures r == [] || (!IsSpace(r[0]) && !IsSpace(r[|r| - 1]))
    ensures r == [] <==> AllSpace(s)
  {
    TrimEnd(TrimStart(s))
  }

  /** A string without whitespace at either end is left alone by `trim()`. */
  lemma TrimIdentity(s: string)
    requires s == [] || (!IsSpace(s[0]) && !IsSpace(s[|s| - 1]))
    ensures Trim(s) == s
  {
  }

  /** ASCII lower-casing, the case folding of a regular expression with the `i`
      flag but without the `u` flag when the pattern is ASCII. */
  function LowerChar(c: char): char {
    if 'A' <= c <= 'Z' then (c as int + 32) as char else c
  }

  function Lower(s: string): (r: string)
    ensures |r| == |s|
    ensures forall i :: 0 <= i < |s| ==> r[i] == LowerChar(s[i])
  {
    seq(|s|, i requires 0 <= i < |s| => LowerChar(s[i]))
  }

  predicate EqualsIgnoreCase(a: string, b: string) {
    Lower(a) == Lower(b)
  }

  predicate OccursAt(s: string, pattern: string, i: nat) {
    i + |pattern| <= |s| && s[i..i + |pattern|] == pattern
  }

  predicate Contains(s: string, pattern: string) {
    exists i: nat :: i <= |s| && OccursAt(s, pattern, i)
  }

  /** `s.indexOf(pattern, from)`: the leftmost occurrence at or after `from`. */
  function IndexOfFrom(s: string, pattern: string, from: nat): (r: Option<nat>)
    ensures r.Some? ==> from <= r.value && OccursAt(s, pattern, r.value)
    ensures r.Some? ==> forall j: nat :: from <= j < r.value ==> !OccursAt(s, pattern, j)
    ensures r.None? ==> forall j: nat :: from <= j ==> !OccursAt(s, pattern, j)
    decreases |s| - from
  {
    if from + |pattern| > |s| then None
    else if OccursAt(s, pattern, from) then Some(from)
    else IndexOfFrom(s, pattern, from + 1)
  }

  /** The search from `from` stops at the first occurrence. */
  lemma IndexOfFromFirst(s: string, pattern: string, from: nat, j: nat)
    requires from <= j && OccursAt(s, pattern, j)
    requires forall m: nat :: from <= m < j ==> !OccursAt(s, pattern, m)
    ensures IndexOfFrom(s, pattern, from) == Some(j)
  {
  }

  function IndexOf(s: string, pattern: string): (r: Option<nat>)
    ensures r.Some? <==> Contains(s, pattern)
    ensures r.Some? ==> OccursAt(s, pattern, r.value)
    ensures r.Some? ==> forall j: nat :: j < r.value ==> !OccursAt(s, pattern, j)
  {
    IndexOfFrom(s, pattern, 0)
  }

  /** `s.replace(pattern, replacement)` with a string pattern: only the leftmost
      occurrence is replaced; without an occurrence `s` is returned unchanged. */
  function ReplaceFirst(s: string, pattern: string, replacement: string): (r: string)
    ensures !Contains(s, pattern) ==> r == s
  {
    match IndexOf(s, pattern)
    case None => s
    case Some(i) => s[..i] + replacement + s[i + |pattern|..]
  }

  /** When `s` begins with the pattern, `replace` removes exactly that prefix. */
  lemma ReplacePrefix(s: string, prefix: string, replacement: string)
    requires StartsWith(s, prefix)
    ensures ReplaceFirst(s, prefix, replacement) == replacement + s[|prefix|..]
  {
    assert OccursAt(s, prefix, 0);
  }

  /** When the leftmost occurrence is known, `replace` splices there. */
  lemma ReplaceAt(s: string, pattern: string, replacement: string, i: nat)
    requires OccursAt(s, pattern, i)
    requires forall j: nat :: j < i ==> !OccursAt(s, pattern, j)
    ensures ReplaceFirst(s, pattern, replacement) == s[..i] + replacement + s[i + |pattern|..]
  {
    var r := IndexOf(s, pattern);
    assert r.Some?;
  }

  /** `parts.join(sep)`. */
  function JoinWith(parts: seq<string>, sep: string): (r: string)
    ensures |parts| > 0 ==> StartsWith(r, parts[0])
    ensures |parts| > 1 ==> r == parts[0] + sep + JoinWith(parts[1..], sep)
  {
    if |parts| == 0 then ""
    else if |parts| == 1 then parts[0]
    else parts[0] + sep + JoinWith(parts[1..], sep)
  }

  /** `s.split(sep)` for a one-character separator: never empty, empty pieces kept. */
  function Split(s: string, sep: char): (parts: seq<string>)
    ensures |parts| >= 1
    ensures forall i :: 0 <= i < |parts| ==> sep !in parts[i]
    ensures |parts| == 1 <==> sep !in s
    decreases |s|
  {
    if |s| == 0 then [""]
    else
      var rest := Split(s[1..], sep);
      if s[0] == sep then [""] + rest
      else [[s[0]] + rest[0]] + rest[1..]
  }

  /** The last element, `parts.pop()` on a non-empty array. */
  function Last<T>(parts: seq<T>): T
    requires |parts| > 0
  {
    parts[|parts| - 1]
  }

  /** Joining the pieces of a split with the separator gives the string back. */
  lemma {:induction false} JoinSplit(s: string, sep: char)
    ensures JoinWith(Split(s, sep), [sep]) == s
    decreases |s|
  {
    if |s| > 0 {
      JoinSplit(s[1..], sep);
      assert [s[0]] + s[1..] == s;
      if s[0] == sep {
        JoinSplitSep(s[1..], sep);
      } else {
        JoinSplitChar(s[0], s[1..], sep);
      }
    }
  }

  lemma JoinSplitSep(t: string, sep: char)
    requires JoinWith(Split(t, sep), [sep]) == t
    ensures JoinWith(Split([sep] + t, sep), [sep]) == [sep] + t
  {
    var rest := Split(t, sep);
    SplitLeadingSep(t, sep);
    assert ([""] + rest)[1..] == rest;
    assert JoinWith([""] + rest, [sep]) == "" + [sep] + JoinWith(rest, [sep]);
  }

  lemma JoinSplitChar(c: char, t: string, sep: char)
    requires c != sep && JoinWith(Split(t, sep), [sep]) == t
    ensures JoinWith(Split([c] + t, sep), [sep]) == [c] + t
  {
    var rest := Split(t, sep);
    var parts := Split([c] + t, sep);
    assert ([c] + t)[1..] == t;
    assert parts == [[c] + rest[0]] + rest[1..];
    if |rest| == 1 {
      assert parts == [[c] + rest[0]];
    } else {
      JoinCons(c, rest, parts, sep);
    }
  }

  lemma JoinCons(c: char, rest: seq<string>, parts: seq<string>, sep: char)
    requires |rest| > 1 && parts == [[c] + rest[0]] + rest[1..]
    ensures JoinWith(parts, [sep]) == [c] + JoinWith(rest, [sep])
  {
    var h := rest[0];
    var j := JoinWith(rest[1..], [sep]);
    assert JoinWith(rest, [sep]) == h + [sep] + j;
    assert parts[0] == [c] + h && parts[1..] == rest[1..];
    assert JoinWith(parts, [sep]) == [c] + h + [sep] + j;
    assert [c] + h + [sep] + j == [c] + (h + [sep] + j);
  }

  /** Splitting a string whose first `|a|` characters hold no separator. */
  lemma {:induction false} SplitPrefix(a: string, b: string, sep: char)
    requires sep !in a
    ensures Split(a + b, sep) == [a + Split(b, sep)[0]] + Split(b, sep)[1..]
    decreases |a|
  {
    if |a| > 0 {
      SplitPrefix(a[1..], b, sep);
      assert (a + b)[1..] == a[1..] + b;
      assert (a + b)[0] == a[0];
      assert [a[0]] + (a[1..] + Split(b, sep)[0]) == a + Split(b, sep)[0];
    } else {
      var parts := Split(b, sep);
      assert a + b == b;
      assert a + parts[0] == parts[0];
      assert parts == [parts[0]] + parts[1..];
    }
  }

  /** A leading separator opens an empty first piece. */
  lemma SplitLeadingSep(rest: string, sep: char)
    ensures Split([sep] + rest, sep) == [""] + Split(rest, sep)
  {
    assert ([sep] + rest)[1..] == rest;
  }

  /** A string that is empty or starts with the separator has an empty first piece. */
  lemma SplitFirstEmpty(s: string, sep: char)
    requires s == [] || s[0] == sep
    ensures Split(s, sep)[0] == ""
  {
    if s != [] {
      SplitLeadingSep(s[1..], sep);
      assert [sep] + s[1..] == s;
    }
  }

  /** A string without the separator splits into itself alone. */
  lemma SplitNoSeparator(a: string, sep: char)
    requires sep !in a
    ensures Split(a, sep) == [a]
  {
    SplitPrefix(a, "", sep);
    assert a + "" == a;
  }

  /** Splitting joined separator-free pieces gives the pieces back. */
  lemma {:induction false} SplitJoin(parts: seq<string>, sep: char)
    requires |parts| >= 1
    requires forall i :: 0 <= i < |parts| ==> sep !in parts[i]
    ensures Split(JoinWith(parts, [sep]), sep) == parts
    decreases |parts|
  {
    if |parts| == 1 {
      SplitNoSeparator(parts[0], sep);
    } else {
      var tail := JoinWith(parts[1..], [sep]);
      SplitJoin(parts[1..], sep);
      var rest := [sep] + tail;
      SplitPrefix(parts[0], rest, sep);
      assert JoinWith(parts, [sep]) == parts[0] + rest;
      assert rest[0] == sep && rest[1..] == tail;
      assert Split(rest, sep) == [""] + parts[1..];
      assert parts[0] + "" == parts[0];
      assert parts == [parts[0]] + parts[1..];
    }
  }
}
