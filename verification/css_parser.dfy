/** Turning pasted CSS into a theme item: comments are dropped, the first
    `:root { … }`, `.dark { … }` and `@theme inline { … }` blocks are located,
    their `--name: value;` declarations are read, and each is filed as a
    theme-level, light, dark or base-layer variable. The regular expressions
    are re-stated as scanners that try each start position in turn, as a
    global match does. */
module CssParser {
  import opened Results
  import opened Strings
  import opened ThemeUtils

  // ----- comments -----

  /** The global lazy replacement of CSS comments by nothing: each comment
      opener (slash, star) is removed together with the text up to the first
      closer (star, slash) after it; an opener that is never closed is kept. */
  function StripComments(s: string): (r: string)
    ensures |r| <= |s|
    decreases |s|
  {
    if |s| < 2 then s
    else if s[..2] == "/*" then
      (match IndexOfFrom(s, "*/", 2)
       case Some(j) => StripComments(s[j + 2..])
       case None => s)
    else [s[0]] + StripComments(s[1..])
  }

  lemma {:induction false} NoCommentOpenTail(s: string)
    requires |s| > 0 && !Contains(s, "/*")
    ensures !Contains(s[1..], "/*")
  {
    if Contains(s[1..], "/*") {
      var i: nat :| i <= |s[1..]| && OccursAt(s[1..], "/*", i);
      assert s[i + 1..i + 3] == s[1..][i..i + 2];
      assert OccursAt(s, "/*", i + 1);
    }
  }

  /** Text without a comment opener passes unchanged. */
  lemma {:induction false} StripCommentsIdentity(s: string)
    requires !Contains(s, "/*")
    ensures StripComments(s) == s
    decreases |s|
  {
    if |s| >= 2 {
      assert !OccursAt(s, "/*", 0);
      NoCommentOpenTail(s);
      StripCommentsIdentity(s[1..]);
      assert [s[0]] + s[1..] == s;
    }
  }

  /** A comment is cut out with everything up to its first closer. */
  lemma StripOneComment(a: string, c: string, b: string)
    requires !Contains(a, "/*") && !Contains(c, "*/")
    ensures StripComments(a + "/*" + c + "*/" + b) == a + StripComments(b)
  {
    var tail := "/*" + c + "*/" + b;
    assert a + "/*" + c + "*/" + b == a + tail;
    StripPlainPrefix(a, tail);
    StripLeadingComment(c, b);
  }

  /** Text without a comment opener, followed by text starting with `/`, is
      kept as it is. */
  lemma {:induction false} StripPlainPrefix(a: string, tail: string)
    requires !Contains(a, "/*")
    requires |tail| > 0 && tail[0] == '/'
    ensures StripComments(a + tail) == a + StripComments(tail)
    decreases |a|
  {
    if |a| == 0 {
      assert a + tail == tail;
    } else {
      NoCommentOpenTail(a);
      StripPlainPrefix(a[1..], tail);
      StripPlainStart(a, tail);
      assert [a[0]] + (a[1..] + StripComments(tail)) == a + StripComments(tail);
    }
  }

  lemma StripLeadingComment(c: string, b: string)
    requires !Contains(c, "*/")
    ensures StripComments("/*" + c + "*/" + b) == StripComments(b)
  {
    var s := "/*" + c + "*/" + b;
    assert s[..2] == "/*";
    var j := 2 + |c|;
    assert OccursAt(s, "*/", j) by {
      assert s[j..j + 2] == "*/";
    }
    forall m: nat | 2 <= m < j
      ensures !OccursAt(s, "*/", m)
    {
      CloserNotInside(c, b, m);
    }
    IndexOfFromFirst(s, "*/", 2, j);
    assert s[j + 2..] == b;
  }

  lemma CloserNotInside(c: string, b: string, m: nat)
    requires !Contains(c, "*/") && 2 <= m < 2 + |c|
    ensures !OccursAt("/*" + c + "*/" + b, "*/", m)
  {
    var s := "/*" + c + "*/" + b;
    if m + 1 < 2 + |c| {
      assert s[m..m + 2] == c[m - 2..m];
      assert !OccursAt(c, "*/", m - 2);
    } else {
      assert s[m + 1] == '*';
    }
  }

  /** Text that does not open with a comment keeps its first character. */
  lemma StripPlainStart(a: string, tail: string)
    requires |a| > 0 && !Contains(a, "/*")
    requires |tail| > 0 && tail[0] == '/'
    ensures StripComments(a + tail) == [a[0]] + StripComments(a[1..] + tail)
  {
    var s := a + tail;
    assert s[1..] == a[1..] + tail;
    assert |s| >= 2;
    if |a| >= 2 {
      assert s[..2] == a[..2];
      assert !OccursAt(a, "/*", 0);
    } else {
      assert s[..2][1] == '/';
    }
    assert s[..2] != "/*";
  }

  // ----- blocks -----

  /** A piece of a block header: literal text, or a run of whitespace (`\s*`,
      or `\s+` when `atLeastOne`). Each whitespace run in the headers below is
      followed by a literal that does not start with whitespace, so taking the
      longest run is the only way to match. */
  datatype HeaderPart = Lit(text: string) | Ws(atLeastOne: bool)

  const RootHeader: seq<HeaderPart> := [Lit(":root"), Ws(false), Lit("{")]
  const DarkHeader: seq<HeaderPart> := [Lit(".dark"), Ws(false), Lit("{")]
  const InlineHeader: seq<HeaderPart> := [Lit("@theme"), Ws(true), Lit("inline"), Ws(false), Lit("{")]

  /** The number of whitespace characters from position `p`. */
  function SpaceRun(s: string, p: nat): (n: nat)
    requires p <= |s|
    ensures p + n <= |s|
    ensures forall i :: p <= i < p + n ==> IsSpace(s[i])
    ensures p + n < |s| ==> !IsSpace(s[p + n])
    decreases |s| - p
  {
    if p < |s| && IsSpace(s[p]) then 1 + SpaceRun(s, p + 1) else 0
  }

  /** Where a header matched at `p` ends. */
  function MatchHeader(s: string, p: nat, header: seq<HeaderPart>): (r: Option<nat>)
    requires p <= |s|
    ensures r.Some? ==> p <= r.value <= |s|
    decreases |header|
  {
    if |header| == 0 then Some(p)
    else match header[0]
      case Lit(t) =>
        if OccursAt(s, t, p) then MatchHeader(s, p + |t|, header[1..]) else None
      case Ws(atLeastOne) =>
        var n := SpaceRun(s, p);
        if atLeastOne && n == 0 then None else MatchHeader(s, p + n, header[1..])
  }

  /** `header([^}]+)\}` matched at the start of `s`: the non-empty text up to
      the first `}` after the header. */
  function BlockAt(s: string, header: seq<HeaderPart>): (r: Option<string>)
    ensures r.Some? ==> r.value != [] && '}' !in r.value
  {
    match MatchHeader(s, 0, header)
    case None => None
    case Some(p) =>
      match IndexOfFrom(s, "}", p)
      case None => None
      case Some(k) =>
        if k == p then None
        else
          var body := s[p..k];
          assert forall i :: 0 <= i < |body| ==> body[i] != '}' by {
            forall i | 0 <= i < |body|
              ensures body[i] != '}'
            {
              assert body[i] == s[p + i];
              assert !OccursAt(s, "}", p + i);
              assert s[p + i..p + i + 1] == [s[p + i]];
            }
          }
          Some(body)
  }

  /** `s.match(/header([^}]+)\}/)`: the block at the leftmost position where
      one matches. */
  function FirstBlock(s: string, header: seq<HeaderPart>): (r: Option<string>)
    ensures r.Some? ==> r.value != [] && '}' !in r.value
    decreases |s|
  {
    match BlockAt(s, header)
    case Some(body) => Some(body)
    case None => if |s| == 0 then None else FirstBlock(s[1..], header)
  }

  /** A `:root {` header at the start is found, and its block is everything up
      to the first `}`. */
  lemma RootBlockAtStart(body: string, rest: string)
    requires body != [] && '}' !in body
    ensures FirstBlock(":root {" + body + "}" + rest, RootHeader) == Some(body)
  {
    var s := ":root {" + body + "}" + rest;
    assert OccursAt(s, ":root", 0) by {
      assert s[..5] == ":root";
    }
    assert s[5] == ' ' && s[6] == '{' && !IsSpace(s[6]);
    assert SpaceRun(s, 6) == 0;
    assert SpaceRun(s, 5) == 1;
    assert OccursAt(s, "{", 6) by {
      assert s[6..7] == "{";
    }
    assert RootHeader[1..][1..][1..] == [];
    assert MatchHeader(s, 0, RootHeader) == Some(7);
    var k := 7 + |body|;
    forall m: nat | 7 <= m < k
      ensures !OccursAt(s, "}", m)
    {
      assert s[m] == body[m - 7];
      assert s[m..m + 1] == [s[m]];
    }
    assert OccursAt(s, "}", k) by {
      assert s[k..k + 1] == "}";
    }
    IndexOfFromFirst(s, "}", 7, k);
    assert s[7..k] == body;
  }

  // ----- declarations -----

  datatype Decl = Decl(key: string, value: string, end: nat)

  /** `--([^:]+):\s*([^;]+);` matched at the start of `s`. The name runs to
      the first `:`; the value starts after the whitespace and runs to the
      first `;` — when only whitespace lies before that `;`, the last of it is
      given back to make the value non-empty. Both are returned untrimmed. */
  function DeclAt(s: string): (r: Option<Decl>)
    ensures r.Some? ==> 0 < r.value.end <= |s|
  {
    if !OccursAt(s, "--", 0) then None
    else
      match IndexOfFrom(s, ":", 2)
      case None => None
      case Some(c) =>
        if c == 2 then None
        else
          match IndexOfFrom(s, ";", c + 1)
          case None => None
          case Some(e) =>
            if e == c + 1 then None
            else
              var w := SpaceRun(s, c + 1);
              assert s[e..e + 1] == ";" && !IsSpace(s[e]);
              assert c + 1 + w <= e;
              var start := if c + 1 + w < e then c + 1 + w else e - 1;
              Some(Decl(s[2..c], s[start..e], e + 1))
  }

  /** `[...s.matchAll(/--([^:]+):\s*([^;]+);/g)]` as trimmed name/value pairs:
      after a match the scan resumes at its end, otherwise one character later. */
  function Decls(s: string): (ds: seq<(string, string)>)
    decreases |s|
  {
    if |s| == 0 then []
    else
      match DeclAt(s)
      case Some(d) => [(Trim(d.key), Trim(d.value))] + Decls(s[d.end..])
      case None => Decls(s[1..])
  }

  /** A declaration in canonical form: a name without `:` and a value without
      `;`, neither with whitespace at its ends. */
  predicate PlainDecl(d: (string, string)) {
    && d.0 != [] && ':' !in d.0 && !IsSpace(d.0[0]) && !IsSpace(d.0[|d.0| - 1])
    && d.1 != [] && ';' !in d.1 && !IsSpace(d.1[0]) && !IsSpace(d.1[|d.1| - 1])
  }

  function RenderDecl(d: (string, string)): string {
    "--" + d.0 + ": " + d.1 + ";"
  }

  /** Declarations written one after another, as in a block body. */
  function RenderDecls(ds: seq<(string, string)>): (s: string)
    ensures |ds| > 0 ==> s == RenderDecl(ds[0]) + RenderDecls(ds[1..])
  {
    if |ds| == 0 then "" else RenderDecl(ds[0]) + RenderDecls(ds[1..])
  }

  lemma FirstChar(s: string, c: char, from: nat, j: nat)
    requires from <= j < |s| && s[j] == c
    requires forall m :: from <= m < j ==> s[m] != c
    ensures IndexOfFrom(s, [c], from) == Some(j)
  {
    assert OccursAt(s, [c], j) by {
      assert s[j..j + 1] == [c];
    }
    forall m: nat | from <= m < j
      ensures !OccursAt(s, [c], m)
    {
      assert s[m..m + 1] == [s[m]];
    }
    IndexOfFromFirst(s, [c], from, j);
  }

  /** A canonical declaration is read back at the start of any text. */
  lemma DeclAtRendered(d: (string, string), rest: string)
    requires PlainDecl(d)
    ensures DeclAt(RenderDecl(d) + rest) == Some(Decl(d.0, d.1, |RenderDecl(d)|))
  {
    var k := d.0;
    var v := d.1;
    var s := RenderDecl(d) + rest;
    var c := 2 + |k|;
    var e := c + 2 + |v|;
    RenderedShape(k, v, rest, s);
    RenderedName(k, v, rest, s);
    RenderedValue(k, v, rest, s);
    assert SpaceRun(s, c + 2) == 0;
    assert SpaceRun(s, c + 1) == 1;
    DeclAtIntro(s, c, e);
    assert s[2..c] == k && s[c + 2..e] == v;
    assert |RenderDecl(d)| == e + 1;
  }

  /** The declaration read when the name ends at `c` and the value at `e`. */
  lemma DeclAtIntro(s: string, c: nat, e: nat)
    requires OccursAt(s, "--", 0)
    requires IndexOfFrom(s, ":", 2) == Some(c) && c != 2
    requires IndexOfFrom(s, ";", c + 1) == Some(e) && e != c + 1
    requires c + 1 + SpaceRun(s, c + 1) < e
    ensures DeclAt(s) == Some(Decl(s[2..c], s[c + 1 + SpaceRun(s, c + 1)..e], e + 1))
  {
  }

  lemma RenderedShape(k: string, v: string, rest: string, s: string)
    requires s == RenderDecl((k, v)) + rest && v != []
    ensures OccursAt(s, "--", 0)
    ensures s[2..2 + |k|] == k && s[2 + |k|] == ':' && s[3 + |k|] == ' '
    ensures s[4 + |k|..4 + |k| + |v|] == v && s[4 + |k| + |v|] == ';'
    ensures s[4 + |k|] == v[0]
  {
    assert s == "--" + k + ": " + v + ";" + rest;
    assert s[..2] == "--";
  }

  lemma RenderedName(k: string, v: string, rest: string, s: string)
    requires s == RenderDecl((k, v)) + rest && v != [] && ':' !in k
    ensures IndexOfFrom(s, ":", 2) == Some(2 + |k|)
  {
    RenderedShape(k, v, rest, s);
    forall m | 2 <= m < 2 + |k|
      ensures s[m] != ':'
    {
      assert s[m] == s[2..2 + |k|][m - 2];
    }
    FirstChar(s, ':', 2, 2 + |k|);
  }

  lemma RenderedValue(k: string, v: string, rest: string, s: string)
    requires s == RenderDecl((k, v)) + rest && v != [] && ';' !in v
    ensures IndexOfFrom(s, ";", 3 + |k|) == Some(4 + |k| + |v|)
  {
    RenderedShape(k, v, rest, s);
    var c := 2 + |k|;
    forall m | c + 1 <= m < c + 2 + |v|
      ensures s[m] != ';'
    {
      if m > c + 1 {
        assert s[m] == s[c + 2..c + 2 + |v|][m - c - 2];
      }
    }
    FirstChar(s, ';', c + 1, c + 2 + |v|);
  }

  /** A declaration matched at the start is the first one read. */
  lemma DeclsStep(s: string, d: Decl)
    requires |s| > 0 && DeclAt(s) == Some(d)
    ensures Decls(s) == [(Trim(d.key), Trim(d.value))] + Decls(s[d.end..])
  {
  }

  /** A declaration matched over exactly `first` is followed by those of `rest`. */
  lemma DeclsSplit(s: string, first: string, rest: string, k: string, v: string)
    requires s == first + rest && |first| > 0
    requires DeclAt(s) == Some(Decl(k, v, |first|))
    ensures Decls(s) == [(Trim(k), Trim(v))] + Decls(rest)
  {
    DeclsStep(s, Decl(k, v, |first|));
    assert s[|first|..] == rest;
  }

  /** A canonical declaration in front of any text is read first, unchanged. */
  lemma DeclsCons(d: (string, string), rest: string)
    requires PlainDecl(d)
    ensures Decls(RenderDecl(d) + rest) == [d] + Decls(rest)
  {
    DeclAtRendered(d, rest);
    DeclsSplit(RenderDecl(d) + rest, RenderDecl(d), rest, d.0, d.1);
    TrimIdentity(d.0);
    TrimIdentity(d.1);
    assert (Trim(d.0), Trim(d.1)) == d;
  }

  /** Reading canonical declarations gives them back, in order. */
  lemma {:induction false} DeclsRoundTrip(ds: seq<(string, string)>)
    requires forall i :: 0 <= i < |ds| ==> PlainDecl(ds[i])
    ensures Decls(RenderDecls(ds)) == ds
  {
    if |ds| > 0 {
      DeclsCons(ds[0], RenderDecls(ds[1..]));
      DeclsRoundTrip(ds[1..]);
      assert [ds[0]] + ds[1..] == ds;
    }
  }

  // ----- filing the declarations -----

  /** Some kept declaration assigns `x`. */
  predicate Assigned(ds: seq<(string, string)>, keep: string -> bool, prefix: string, x: string) {
    exists j :: 0 <= j < |ds| && keep(ds[j].0) && prefix + ds[j].0 == x
  }

  /** Assigning `target[prefix + key] = value` for each kept declaration, in order. */
  function Store(m: map<string, string>, ds: seq<(string, string)>, keep: string -> bool, prefix: string): (r: map<string, string>)
    ensures forall x :: x in r <==> x in m || Assigned(ds, keep, prefix, x)
    decreases |ds|
  {
    if |ds| == 0 then m
    else
      var m' := if keep(ds[0].0) then m[prefix + ds[0].0 := ds[0].1] else m;
      assert forall j :: 1 <= j < |ds| ==> ds[j] == ds[1..][j - 1];
      Store(m', ds[1..], keep, prefix)
  }

  /** A name no kept declaration assigns keeps its value. */
  lemma {:induction false} StoreFrame(m: map<string, string>, ds: seq<(string, string)>, keep: string -> bool, prefix: string, x: string)
    requires x in m
    requires forall j :: 0 <= j < |ds| && keep(ds[j].0) ==> prefix + ds[j].0 != x
    ensures Store(m, ds, keep, prefix)[x] == m[x]
    decreases |ds|
  {
    if |ds| > 0 {
      var m' := if keep(ds[0].0) then m[prefix + ds[0].0 := ds[0].1] else m;
      assert forall j :: 1 <= j < |ds| ==> ds[j] == ds[1..][j - 1];
      StoreFrame(m', ds[1..], keep, prefix, x);
    }
  }

  /** The last kept declaration of a name decides its value. */
  lemma {:induction false} StoreLastWins(m: map<string, string>, ds: seq<(string, string)>, keep: string -> bool, prefix: string, j: nat)
    requires j < |ds| && keep(ds[j].0)
    requires forall j' :: j < j' < |ds| && keep(ds[j'].0) ==> ds[j'].0 != ds[j].0
    ensures prefix + ds[j].0 in Store(m, ds, keep, prefix)
    ensures Store(m, ds, keep, prefix)[prefix + ds[j].0] == ds[j].1
    decreases |ds|
  {
    var m' := if keep(ds[0].0) then m[prefix + ds[0].0 := ds[0].1] else m;
    assert forall i :: 1 <= i < |ds| ==> ds[i] == ds[1..][i - 1];
    if j == 0 {
      forall i | 0 <= i < |ds[1..]| && keep(ds[1..][i].0)
        ensures prefix + ds[1..][i].0 != prefix + ds[0].0
      {
        assert ds[1..][i] == ds[i + 1];
        ConcatCancel(prefix, ds[1..][i].0, ds[0].0);
      }
      StoreFrame(m', ds[1..], keep, prefix, prefix + ds[0].0);
    } else {
      StoreLastWins(m', ds[1..], keep, prefix, j - 1);
    }
  }

  // ----- the parsed item -----

  predicate IsModeKey(key: string) {
    !IsThemeLevelKey(key)
  }

  datatype CssVars = CssVars(theme: map<string, string>, light: map<string, string>, dark: map<string, string>)

  /** The parsed theme: `css` holds the `:root` rules of `@layer base` and is
      present only when there are any. */
  datatype ThemeItem = ThemeItem(name: string, itemType: string, cssVars: CssVars, layerBase: Option<map<string, string>>)

  const DefaultCssThemeName: string := "custom-css-theme"

  function BlockDecls(css: string, header: seq<HeaderPart>): seq<(string, string)> {
    match FirstBlock(css, header)
    case None => []
    case Some(body) => Decls(body)
  }

  /** Every name `Store` adds satisfies `ok` when every kept name does. */
  lemma {:induction false} StoreKeys(m: map<string, string>, ds: seq<(string, string)>, keep: string -> bool, prefix: string, ok: string -> bool)
    requires forall x :: x in m ==> ok(x)
    requires forall j :: 0 <= j < |ds| && keep(ds[j].0) ==> ok(prefix + ds[j].0)
    ensures forall x :: x in Store(m, ds, keep, prefix) ==> ok(x)
  {
    var r := Store(m, ds, keep, prefix);
    forall x | x in r
      ensures ok(x)
    {
      if x !in m {
        var j :| 0 <= j < |ds| && keep(ds[j].0) && prefix + ds[j].0 == x;
      }
    }
  }

  /** Files the declarations of the three blocks: theme-level names of
      `:root` and `@theme inline` go to `theme` (inline last), the other
      `:root` names to `light`, the other `.dark` names to `dark` (theme-level
      ones there are dropped), and the other inline names, as `--<name>`, to
      the base layer. */
  function FileDecls(name: string, root: seq<(string, string)>, dark: seq<(string, string)>, inline: seq<(string, string)>): ThemeItem {
    var theme := Store(Store(map[], root, IsThemeLevelKey, ""), inline, IsThemeLevelKey, "");
    var layer := Store(map[], inline, IsModeKey, "--");
    ThemeItem(
      name,
      "theme",
      CssVars(theme, Store(map[], root, IsModeKey, ""), Store(map[], dark, IsModeKey, "")),
      if |layer| > 0 then Some(layer) else None)
  }

  /** `parseCssToThemeRegistryItem(css, name)`; a missing name is the default. */
  function ParseCss(css: string, name: Option<string>): ThemeItem {
    var clean := StripComments(css);
    FileDecls(
      if name.Some? then name.value else DefaultCssThemeName,
      BlockDecls(clean, RootHeader),
      BlockDecls(clean, DarkHeader),
      BlockDecls(clean, InlineHeader))
  }

  /** Theme-level names only ever reach `theme`, the others never do. */
  lemma FiledKeysClassified(name: string, root: seq<(string, string)>, dark: seq<(string, string)>, inline: seq<(string, string)>)
    ensures var item := FileDecls(name, root, dark, inline);
      && (forall k :: k in item.cssVars.theme ==> IsThemeLevelKey(k))
      && (forall k :: k in item.cssVars.light ==> IsModeKey(k))
      && (forall k :: k in item.cssVars.dark ==> IsModeKey(k))
  {
    assert forall k :: "" + k == k;
    StoreKeys(map[], root, IsThemeLevelKey, "", IsThemeLevelKey);
    StoreKeys(Store(map[], root, IsThemeLevelKey, ""), inline, IsThemeLevelKey, "", IsThemeLevelKey);
    StoreKeys(map[], root, IsModeKey, "", IsModeKey);
    StoreKeys(map[], dark, IsModeKey, "", IsModeKey);
  }

  /** The parsed item is a theme with the given or default name, and its
      variables are filed by kind. */
  lemma ParsedItemShape(css: string, name: Option<string>)
    ensures var item := ParseCss(css, name);
      && item.itemType == "theme"
      && item.name == (if name.Some? then name.value else DefaultCssThemeName)
      && (forall k :: k in item.cssVars.theme ==> IsThemeLevelKey(k))
      && (forall k :: k in item.cssVars.light ==> !IsThemeLevelKey(k))
      && (forall k :: k in item.cssVars.dark ==> !IsThemeLevelKey(k))
  {
    var clean := StripComments(css);
    FiledKeysClassified(if name.Some? then name.value else DefaultCssThemeName,
      BlockDecls(clean, RootHeader), BlockDecls(clean, DarkHeader), BlockDecls(clean, InlineHeader));
  }

  /** Base-layer rules exist exactly when the `@theme inline` block declares a
      variable that is not theme-level; each is stored under `--<name>`. */
  lemma LayerBaseIff(name: string, root: seq<(string, string)>, dark: seq<(string, string)>, inline: seq<(string, string)>)
    ensures var item := FileDecls(name, root, dark, inline);
      && (item.layerBase.Some? <==> exists j :: 0 <= j < |inline| && IsModeKey(inline[j].0))
      && (item.layerBase.Some? ==> forall x :: x in item.layerBase.value ==> Assigned(inline, IsModeKey, "--", x))
  {
    var layer := Store(map[], inline, IsModeKey, "--");
    if exists j :: 0 <= j < |inline| && IsModeKey(inline[j].0) {
      var j :| 0 <= j < |inline| && IsModeKey(inline[j].0);
      assert Assigned(inline, IsModeKey, "--", "--" + inline[j].0);
      assert "--" + inline[j].0 in layer;
    }
    if |layer| > 0 {
      var x :| x in layer;
      assert Assigned(inline, IsModeKey, "--", x);
    }
  }

  /** A stylesheet without comments that opens with a `:root` block of
      canonical declarations: its light variables are exactly the filed
      declarations of that block (with distinct names, `LastWinsAll` then
      gives every value). */
  lemma RootBlockParsed(css: string, ds: seq<(string, string)>, rest: string, name: Option<string>)
    requires css == ":root {" + RenderDecls(ds) + "}" + rest
    requires forall i :: 0 <= i < |ds| ==> PlainDecl(ds[i])
    requires |ds| > 0 && '}' !in RenderDecls(ds)
    requires !Contains(css, "/*")
    ensures ParseCss(css, name).cssVars.light == Store(map[], ds, IsModeKey, "")
  {
    RootDeclsOf(ds, rest);
    LightFromRoot(css, name, ds);
  }

  /** With distinct names every kept declaration's value is stored. */
  lemma LastWinsAll(ds: seq<(string, string)>)
    requires forall i, j :: 0 <= i < j < |ds| ==> ds[i].0 != ds[j].0
    ensures forall j :: 0 <= j < |ds| && IsModeKey(ds[j].0) ==>
      ds[j].0 in Store(map[], ds, IsModeKey, "") && Store(map[], ds, IsModeKey, "")[ds[j].0] == ds[j].1
  {
    forall j | 0 <= j < |ds| && IsModeKey(ds[j].0)
      ensures ds[j].0 in Store(map[], ds, IsModeKey, "") && Store(map[], ds, IsModeKey, "")[ds[j].0] == ds[j].1
    {
      StoreLastWins(map[], ds, IsModeKey, "", j);
      assert "" + ds[j].0 == ds[j].0;
    }
  }

  lemma RootDeclsOf(ds: seq<(string, string)>, rest: string)
    requires forall i :: 0 <= i < |ds| ==> PlainDecl(ds[i])
    requires |ds| > 0 && '}' !in RenderDecls(ds)
    requires !Contains(":root {" + RenderDecls(ds) + "}" + rest, "/*")
    ensures var css := ":root {" + RenderDecls(ds) + "}" + rest;
      BlockDecls(StripComments(css), RootHeader) == ds
  {
    var css := ":root {" + RenderDecls(ds) + "}" + rest;
    StripCommentsIdentity(css);
    RenderedNotEmpty(ds);
    RootBlockAtStart(RenderDecls(ds), rest);
    DeclsRoundTrip(ds);
  }

  /** The light variables come from the `:root` block alone. */
  lemma LightFromRoot(css: string, name: Option<string>, root: seq<(string, string)>)
    requires BlockDecls(StripComments(css), RootHeader) == root
    ensures ParseCss(css, name).cssVars.light == Store(map[], root, IsModeKey, "")
  {
  }

  lemma RenderedNotEmpty(ds: seq<(string, string)>)
    requires |ds| > 0
    ensures RenderDecls(ds) != []
  {
    assert |RenderDecl(ds[0])| > 0;
  }
}
