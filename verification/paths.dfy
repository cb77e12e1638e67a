/** Node's `path.join` on POSIX, reduced to the part the installer relies on:
    empty arguments are skipped, the rest are joined with `/`, and runs of `/`
    collapse to one. A trailing `/` is kept, as node keeps it. `.` and `..`
    segments are not resolved. */
module Paths {
  import opened Strings

  ghost predicate NoDoubleSlash(s: string) {
    forall i, j :: 0 <= i < j < |s| && j == i + 1 ==> !(s[i] == '/' && s[j] == '/')
  }

  /** A path piece that joins without normalisation: non-empty, without `//`,
      and without a `/` at either end (a leading `/` is allowed when `leading`). */
  ghost predicate Segmentable(s: string, leading: bool) {
    && |s| > 0
    && NoDoubleSlash(s)
    && s[|s| - 1] != '/'
    && (leading || s[0] != '/')
  }

  function CollapseSlashes(s: string): (r: string)
    ensures NoDoubleSlash(r)
    ensures |r| <= |s|
    ensures |s| > 0 ==> |r| > 0 && r[0] == s[0] && r[|r| - 1] == s[|s| - 1]
    decreases |s|
  {
    if |s| < 2 then s
    else if s[0] == '/' && s[1] == '/' then CollapseSlashes(s[1..])
    else [s[0]] + CollapseSlashes(s[1..])
  }

  /** Normalisation leaves a path without `//` unchanged. */
  lemma {:induction false} CollapseClean(s: string)
    requires NoDoubleSlash(s)
    ensures CollapseSlashes(s) == s
    decreases |s|
  {
    if |s| >= 2 {
      CollapseClean(s[1..]);
      assert [s[0]] + s[1..] == s;
    }
  }

  function NonEmpty(parts: seq<string>): (r: seq<string>)
    ensures forall i :: 0 <= i < |r| ==> r[i] != ""
    ensures (forall i :: 0 <= i < |parts| ==> parts[i] != "") ==> r == parts
  {
    if |parts| == 0 then []
    else if parts[0] == "" then NonEmpty(parts[1..])
    else [parts[0]] + NonEmpty(parts[1..])
  }

  /** `path.join(...parts)`. */
  function Join(parts: seq<string>): (r: string)
    ensures r != "" && NoDoubleSlash(r)
  {
    var kept := NonEmpty(parts);
    if kept == [] then "." else CollapseSlashes(JoinWith(kept, "/"))
  }

  lemma SlashConcat(a: string, b: string)
    requires Segmentable(a, true) && Segmentable(b, false)
    ensures Segmentable(a + "/" + b, true)
  {
    var s := a + "/" + b;
    forall i | 0 <= i < |s| - 1
      ensures !(s[i] == '/' && s[i + 1] == '/')
    {
      if i < |a| - 1 {
        assert s[i] == a[i] && s[i + 1] == a[i + 1];
      } else if i == |a| - 1 {
        assert s[i] == a[|a| - 1];
      } else if i == |a| {
        assert s[i + 1] == b[0];
      } else {
        assert s[i] == b[i - |a| - 1] && s[i + 1] == b[i - |a|];
      }
    }
  }

  /** Joining two non-empty pieces is concatenating them around a `/` and
      collapsing the runs of `/`, whatever slashes the pieces carry. */
  lemma JoinTwo(a: string, b: string)
    requires a != "" && b != ""
    ensures Join([a, b]) == CollapseSlashes(a + "/" + b)
  {
    var parts := [a, b];
    assert NonEmpty(parts) == parts by {
      assert forall i :: 0 <= i < |parts| ==> parts[i] != "";
    }
    assert parts[1..] == [b];
    assert JoinWith(parts, "/") == a + "/" + b;
  }

  /** A doubled `/` between two clean pieces collapses to one. */
  lemma {:induction false} CollapseDoubled(a: string, b: string)
    requires Segmentable(a, true) && Segmentable(b, false)
    ensures CollapseSlashes(a + (['/'] + (['/'] + b))) == a + (['/'] + b)
    decreases |a|
  {
    var y := ['/'] + b;
    var x := ['/'] + y;
    if |a| == 1 {
      CollapseDoubledOne(a[0], b);
      assert a == [a[0]];
    } else {
      var s := a + x;
      assert s[0] == a[0] && s[1] == a[1];
      assert s[1..] == a[1..] + x;
      TailSegmentable(a);
      CollapseKeep(s);
      CollapseDoubled(a[1..], b);
      assert a + y == [a[0]] + (a[1..] + y);
    }
  }

  lemma CollapseDoubledOne(c: char, b: string)
    requires c != '/' && Segmentable(b, false)
    ensures CollapseSlashes([c] + (['/'] + (['/'] + b))) == [c] + (['/'] + b)
  {
    var t := ['/'] + b;
    var u := ['/'] + t;
    var s := [c] + u;
    assert CollapseSlashes(t) == t by {
      SlashBeforeClean(b);
      CollapseClean(t);
    }
    assert CollapseSlashes(u) == t by {
      assert u[1..] == t && t[0] == '/';
      CollapseSkip(u);
    }
    assert s[1..] == u;
    CollapseKeep(s);
  }

  lemma CollapseKeep(s: string)
    requires |s| >= 2 && !(s[0] == '/' && s[1] == '/')
    ensures CollapseSlashes(s) == [s[0]] + CollapseSlashes(s[1..])
  {
  }

  lemma CollapseSkip(s: string)
    requires |s| >= 2 && s[0] == '/' && s[1] == '/'
    ensures CollapseSlashes(s) == CollapseSlashes(s[1..])
  {
  }

  lemma TailSegmentable(a: string)
    requires |a| >= 2 && Segmentable(a, true)
    ensures Segmentable(a[1..], true)
  {
    var t := a[1..];
    forall i | 0 <= i < |t| - 1
      ensures !(t[i] == '/' && t[i + 1] == '/')
    {
      assert t[i] == a[i + 1] && t[i + 1] == a[i + 2];
    }
  }

  lemma SlashBeforeClean(b: string)
    requires Segmentable(b, false)
    ensures NoDoubleSlash(['/'] + b)
  {
    var t := ['/'] + b;
    forall i | 0 <= i < |t| - 1
      ensures !(t[i] == '/' && t[i + 1] == '/')
    {
      if i == 0 {
        assert t[1] == b[0];
      } else {
        assert t[i] == b[i - 1] && t[i + 1] == b[i];
      }
    }
  }

  /** Joining two clean pieces inserts exactly one separator. */
  lemma Join2(a: string, b: string)
    requires Segmentable(a, true) && Segmentable(b, false)
    ensures Join([a, b]) == a + "/" + b
  {
    var parts := [a, b];
    assert NonEmpty(parts) == parts by {
      assert forall i :: 0 <= i < |parts| ==> parts[i] != "";
    }
    SlashConcat(a, b);
    assert parts[1..] == [b];
    assert JoinWith(parts, "/") == a + "/" + b;
    CollapseClean(a + "/" + b);
  }

  /** Joining three clean pieces inserts exactly two separators. */
  lemma Join3(a: string, b: string, c: string)
    requires Segmentable(a, true) && Segmentable(b, false) && Segmentable(c, false)
    ensures Join([a, b, c]) == a + "/" + b + "/" + c
  {
    var parts := [a, b, c];
    assert NonEmpty(parts) == parts by {
      assert forall i :: 0 <= i < |parts| ==> parts[i] != "";
    }
    SlashConcat(a, b);
    SlashConcat(a + "/" + b, c);
    assert parts[1..] == [b, c] && [b, c][1..] == [c];
    assert JoinWith([b, c], "/") == b + "/" + c;
    assert JoinWith(parts, "/") == a + "/" + (b + "/" + c);
    assert a + "/" + (b + "/" + c) == a + "/" + b + "/" + c;
    CollapseClean(a + "/" + b + "/" + c);
  }
}
