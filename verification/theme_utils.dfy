/** The pure helpers the documentation site uses to apply a theme: key and
    value classification, font-family handling, the theme name in a URL, the
    Starlight colour mapping and the properties written for a mode's
    variables. Regular expressions are re-stated as string functions. */
module ThemeUtils {
  import opened Results
  import opened Strings
  import opened Lists

  // ----- classification -----

  /** Keys that belong to the theme as a whole rather than to a colour mode. */
  predicate IsThemeLevelKey(key: string) {
    || StartsWith(key, "font-")
    || StartsWith(key, "radius")
    || StartsWith(key, "shadow")
    || StartsWith(key, "tracking-")
    || StartsWith(key, "spacing")
  }

  predicate IsAsciiLetter(c: char) {
    ('a' <= c <= 'z') || ('A' <= c <= 'Z')
  }

  /** `s` begins with `prefix` up to ASCII case. */
  predicate StartsWithIgnoreCase(s: string, prefix: string) {
    |prefix| <= |s| && Lower(s[..|prefix|]) == Lower(prefix)
  }

  const ColorFunctionNames: seq<string> := ["oklch", "hsl", "rgb", "rgba", "lab", "lch", "hwb", "color"]

  /** The length of the longest prefix of ASCII letters. */
  function LetterRun(s: string): (n: nat)
    ensures n <= |s|
    ensures forall i :: 0 <= i < n ==> IsAsciiLetter(s[i])
    ensures n < |s| ==> !IsAsciiLetter(s[n])
  {
    if |s| > 0 && IsAsciiLetter(s[0]) then 1 + LetterRun(s[1..]) else 0
  }

  /** A trimmed value that opens with a CSS colour function: its leading run
      of letters, folded to lower case, is one of the names and is followed by
      `(`. */
  predicate IsColorFunction(value: string) {
    OpensWithName(Trim(value), ColorFunctionNames)
  }

  /** The leading run of letters of `t`, folded to lower case, is one of
      `names` and is followed by `(`. */
  predicate OpensWithName(t: string, names: seq<string>) {
    var n := LetterRun(t);
    n < |t| && t[n] == '(' && Lower(t[..n]) in names
  }

  /** Names made of lower-case ASCII letters only. */
  predicate LowerLetterNames(names: seq<string>) {
    && (forall i :: 0 <= i < |names| ==> |names[i]| > 0)
    && (forall i, j :: 0 <= i < |names| && 0 <= j < |names[i]| ==> 'a' <= names[i][j] <= 'z')
  }

  lemma LetterRunExact(s: string, n: nat)
    requires n < |s| && !IsAsciiLetter(s[n])
    requires forall i :: 0 <= i < n ==> IsAsciiLetter(s[i])
    ensures LetterRun(s) == n
  {
  }

  lemma ColorFunctionNamesAreLowerLetters()
    ensures LowerLetterNames(ColorFunctionNames)
  {
  }

  /** The letter-run test is the regular expression
      `/^(oklch|hsl|rgb|rgba|lab|lch|hwb|color)\(/i` on the trimmed value:
      some alternative followed by `(` opens it, up to ASCII case. */
  lemma IsColorFunctionSpec(value: string)
    ensures IsColorFunction(value) <==>
      exists i :: 0 <= i < |ColorFunctionNames| && StartsWithIgnoreCase(Trim(value), ColorFunctionNames[i] + "(")
  {
    ColorFunctionNamesAreLowerLetters();
    if IsColorFunction(value) {
      NameOpens(Trim(value), ColorFunctionNames);
    }
    if exists i :: 0 <= i < |ColorFunctionNames| && StartsWithIgnoreCase(Trim(value), ColorFunctionNames[i] + "(") {
      var i :| 0 <= i < |ColorFunctionNames| && StartsWithIgnoreCase(Trim(value), ColorFunctionNames[i] + "(");
      OpensWithNamed(Trim(value), ColorFunctionNames, i);
    }
  }

  /** A text whose letter run is a name followed by `(` starts with that name
      and `(`, up to case. */
  lemma NameOpens(t: string, names: seq<string>)
    requires LowerLetterNames(names) && OpensWithName(t, names)
    ensures exists i :: 0 <= i < |names| && StartsWithIgnoreCase(t, names[i] + "(")
  {
    var n := LetterRun(t);
    var name := Lower(t[..n]);
    var i :| 0 <= i < |names| && names[i] == name;
    assert t[..n + 1] == t[..n] + "(";
    assert Lower(t[..n + 1]) == name + "(";
    assert Lower(name + "(") == name + "(" by {
      forall j | 0 <= j < |name| ensures LowerChar(name[j]) == name[j] {
        assert 'a' <= names[i][j] <= 'z';
      }
    }
    assert StartsWithIgnoreCase(t, names[i] + "(");
  }

  /** A text starting with a lower-case name and `(`, up to case, has that
      name as its letter run. */
  lemma OpensWithNamed(t: string, names: seq<string>, i: nat)
    requires LowerLetterNames(names)
    requires i < |names| && StartsWithIgnoreCase(t, names[i] + "(")
    ensures OpensWithName(t, names)
  {
    var name := names[i];
    var m := |name|;
    var pre := t[..m + 1];
    assert Lower(pre) == Lower(name + "(");
    forall j | 0 <= j < m
      ensures IsAsciiLetter(t[j]) && LowerChar(t[j]) == name[j]
    {
      assert 'a' <= names[i][j] <= 'z';
      assert Lower(pre)[j] == LowerChar(pre[j]) && pre[j] == t[j];
      assert Lower(name + "(")[j] == LowerChar(name[j]) == name[j];
    }
    assert LowerChar(t[m]) == '(' by {
      assert Lower(pre)[m] == LowerChar(t[m]);
      assert Lower(name + "(")[m] == LowerChar('(');
    }
    LetterRunExact(t, m);
    assert Lower(t[..m]) == name;
    assert names[i] in names;
  }

  /** Bare HSL channels (`0 0% 100%`) and hex values (`#fff`) do not open with
      a letter, so they are never colour functions. */
  lemma NonLetterStartNotColor(value: string)
    requires Trim(value) == [] || !IsAsciiLetter(Trim(value)[0])
    ensures !IsColorFunction(value)
  {
    ColorFunctionNamesAreLowerLetters();
    NonLetterNotOpens(Trim(value), ColorFunctionNames);
  }

  /** With no empty name, a text that does not open with a letter opens with
      none of the names. */
  lemma NonLetterNotOpens(t: string, names: seq<string>)
    requires LowerLetterNames(names)
    requires t == [] || !IsAsciiLetter(t[0])
    ensures !OpensWithName(t, names)
  {
    if t != [] {
      LetterRunExact(t, 0);
      assert Lower(t[..0]) == "";
    }
  }

  const ColorKeys: seq<string> := [
    "background", "foreground", "primary", "secondary", "muted", "accent",
    "destructive", "popover", "card", "border", "input", "ring"]

  predicate MatchesColorKey(key: string, colorKey: string) {
    key == colorKey || StartsWith(key, colorKey + "-") || EndsWith(key, "-" + colorKey)
  }

  /** `colorKeys.some(...)` over a list of colour names. */
  function AnyColorKey(key: string, colorKeys: seq<string>): (r: bool)
    ensures r <==> exists i :: 0 <= i < |colorKeys| && MatchesColorKey(key, colorKeys[i])
  {
    if |colorKeys| == 0 then false
    else
      assert forall i :: 1 <= i < |colorKeys| ==> colorKeys[i] == colorKeys[1..][i - 1];
      MatchesColorKey(key, colorKeys[0]) || AnyColorKey(key, colorKeys[1..])
  }

  /** A key names a colour when it is one of the twelve colour names, starts
      with `<name>-` or ends with `-<name>`. */
  predicate IsColorVariable(key: string) {
    AnyColorKey(key, ColorKeys)
  }

  /** Variants of a colour name, such as `primary-foreground` or
      `sidebar-border`, are colour variables. */
  lemma ColorVariants(i: nat, rest: string)
    requires i < |ColorKeys|
    ensures IsColorVariable(ColorKeys[i] + "-" + rest)
    ensures IsColorVariable(rest + "-" + ColorKeys[i])
  {
    var k := ColorKeys[i];
    assert StartsWith(k + "-" + rest, k + "-");
    assert EndsWith(rest + "-" + k, "-" + k) by {
      var s := rest + "-" + k;
      assert s[|s| - |"-" + k|..] == "-" + k;
    }
    assert MatchesColorKey(k + "-" + rest, ColorKeys[i]);
    assert MatchesColorKey(rest + "-" + k, ColorKeys[i]);
  }

  // ----- fonts -----

  predicate IsQuote(c: char) {
    c == '"' || c == '\''
  }

  /** `replace(/^["']|["']$/g, "")`: one leading and one trailing quote go. */
  function StripQuotes(f: string): (r: string)
    ensures |r| <= |f|
    ensures f == [] || (!IsQuote(f[0]) && !IsQuote(f[|f| - 1])) ==> r == f
    ensures |f| >= 2 && IsQuote(f[0]) && IsQuote(f[|f| - 1]) ==> r == f[1..|f| - 1]
    ensures forall c :: c in r ==> c in f
  {
    var a := if |f| > 0 && IsQuote(f[0]) then f[1..] else f;
    if |a| > 0 && IsQuote(a[|a| - 1]) then a[..|a| - 1] else a
  }

  function CleanFontName(piece: string): string {
    StripQuotes(Trim(piece))
  }

  const GenericFamilies: seq<string> := ["sans-serif", "serif", "monospace", " cursive", "fantasy"]

  /** The pattern `/^(sans-serif|serif|monospace| cursive|fantasy)$/i`. */
  predicate IsGenericFamily(f: string) {
    Lower(f) in GenericFamilies
  }

  predicate IsFontName(f: string) {
    f != "" && !IsGenericFamily(f)
  }

  /** The family names of a `font-family` value worth looking up: the comma
      separated entries, trimmed and unquoted, without empty ones and without
      generic families. */
  function ExtractFontNames(fontFamily: string): (names: seq<string>)
    ensures forall k :: 0 <= k < |names| ==> IsFontName(names[k]) && ',' !in names[k]
    ensures forall j :: 0 <= j < |Split(fontFamily, ',')| && IsFontName(CleanFontName(Split(fontFamily, ',')[j])) ==>
      CleanFontName(Split(fontFamily, ',')[j]) in names
  {
    var pieces := Split(fontFamily, ',');
    var names := FilterMap(pieces, CleanFontName, IsFontName);
    forall k | 0 <= k < |names|
      ensures ',' !in names[k]
    {
      FilterMapOrigin(pieces, CleanFontName, IsFontName, names[k]);
      var j :| 0 <= j < |pieces| && CleanFontName(pieces[j]) == names[k];
      TrimKeepsOut(pieces[j], ',');
    }
    names
  }

  lemma TrimKeepsOut(s: string, c: char)
    requires c !in s
    ensures c !in Trim(s) && c !in CleanFontName(s)
  {
    TrimPieces(s);
  }

  /** `Trim` yields a contiguous piece of its input. */
  lemma TrimPieces(s: string)
    ensures forall x :: x in Trim(s) ==> x in s
  {
    var b := TrimStart(s);
    assert b == s[|s| - |b|..];
    assert forall x :: x in b ==> x in s;
    var t := TrimEnd(b);
    assert t == b[..|t|];
    assert forall x :: x in t ==> x in b;
  }

  /** A family name written without commas, and without spaces or quotes at
      its ends. */
  predicate PlainFamily(n: string) {
    && IsFontName(n)
    && ',' !in n
    && !IsSpace(n[0]) && !IsSpace(n[|n| - 1])
    && !IsQuote(n[0]) && !IsQuote(n[|n| - 1])
  }

  /** A plain family name needs no cleaning. */
  lemma CleanFontNameIdentity(n: string)
    requires n == [] || (!IsSpace(n[0]) && !IsSpace(n[|n| - 1]) && !IsQuote(n[0]) && !IsQuote(n[|n| - 1]))
    ensures CleanFontName(n) == n
  {
    TrimIdentity(n);
  }

  /** A `font-family` value whose comma-separated pieces are plain family
      names (as `JoinWith(names, ",")` gives, by `SplitJoin`) extracts to
      exactly those names. */
  lemma ExtractPlain(s: string, pieces: seq<string>)
    requires Split(s, ',') == pieces
    requires forall n :: n in pieces ==> PlainFamily(n)
    ensures ExtractFontNames(s) == pieces
  {
    PlainFamiliesKept(pieces);
  }

  lemma PlainFamiliesKept(names: seq<string>)
    requires forall n :: n in names ==> PlainFamily(n)
    ensures FilterMap(names, CleanFontName, IsFontName) == names
  {
    forall n | n in names
      ensures CleanFontName(n) == n && IsFontName(n)
    {
      assert PlainFamily(n);
      CleanFontNameIdentity(n);
    }
    FilterMapFixed(names, CleanFontName, IsFontName);
  }

  /** Generic families are dropped case-insensitively, but `cursive` is kept:
      the pattern only lists it with a leading space, which the trim removes. */
  lemma GenericFamiliesDropped()
    ensures !IsFontName("Sans-Serif") && !IsFontName("monospace")
    ensures IsFontName("cursive")
  {
    assert Lower("Sans-Serif") == "sans-serif" == GenericFamilies[0];
    assert Lower("monospace") == "monospace" == GenericFamilies[2];
    var c := Lower("cursive");
    assert c == "cursive";
    assert |c| == 7 && c[0] == 'c';
    assert c != GenericFamilies[0] && c != GenericFamilies[1] && c != GenericFamilies[2] && c != GenericFamilies[3];
    assert GenericFamilies[4][0] == 'f';
    assert c != GenericFamilies[4];
    assert |GenericFamilies| == 5;
    assert c !in GenericFamilies;
    assert !IsGenericFamily("cursive");
  }

  /** `replace(/\s+/g, "+")`: every run of whitespace becomes one `+`. */
  function SpaceRunsToPlus(s: string): (r: string)
    ensures forall i :: 0 <= i < |r| ==> !IsSpace(r[i])
    ensures |r| <= |s|
    ensures (forall i :: 0 <= i < |s| ==> !IsSpace(s[i])) ==> r == s
    ensures r == [] <==> s == []
    decreases |s|
  {
    if |s| == 0 then []
    else if IsSpace(s[0]) then
      var rest := TrimStart(s);
      assert |rest| < |s|;
      "+" + SpaceRunsToPlus(rest)
    else [s[0]] + SpaceRunsToPlus(s[1..])
  }

  predicate AllQuotes(s: string) {
    forall i :: 0 <= i < |s| ==> IsQuote(s[i])
  }

  /** `replace(/['"]/g, "")`. */
  function RemoveQuotes(s: string): (r: string)
    ensures forall i :: 0 <= i < |r| ==> !IsQuote(r[i])
    ensures forall c :: c in r <==> c in s && !IsQuote(c)
    ensures r == [] <==> AllQuotes(s)
  {
    if |s| == 0 then []
    else
      var rest := RemoveQuotes(s[1..]);
      assert forall c :: c in s <==> c == s[0] || c in s[1..];
      (if IsQuote(s[0]) then [] else [s[0]]) + rest
  }

  const GoogleFontsPrefix: string := "https://fonts.googleapis.com/css2?family="
  const GoogleFontsSuffix: string := ":wght@400;500;600;700&display=swap"

  /** The family name as it goes into the URL: whitespace runs as `+`, quotes
      removed, trimmed. */
  function NormalizeFontName(fontName: string): (n: string)
    ensures forall i :: 0 <= i < |n| ==> !IsSpace(n[i]) && !IsQuote(n[i])
    ensures n == [] <==> AllQuotes(fontName)
  {
    var plus := SpaceRunsToPlus(fontName);
    var unquoted := RemoveQuotes(plus);
    TrimIdentity(unquoted);
    QuotesOnlyPreserved(fontName);
    Trim(unquoted)
  }

  /** The stylesheet URL for a family name, or nothing when the name is only
      quotes. */
  function GoogleFontsUrl(fontName: string): (r: Option<string>)
    ensures r.None? <==> AllQuotes(fontName)
    ensures r.Some? ==> r.value == GoogleFontsPrefix + NormalizeFontName(fontName) + GoogleFontsSuffix
  {
    var normalized := NormalizeFontName(fontName);
    if normalized == [] then None
    else Some(GoogleFontsPrefix + normalized + GoogleFontsSuffix)
  }

  /** A plain family name (no whitespace, no quotes) goes into the URL as is. */
  lemma PlainFontName(fontName: string)
    requires forall i :: 0 <= i < |fontName| ==> !IsSpace(fontName[i]) && !IsQuote(fontName[i])
    ensures NormalizeFontName(fontName) == fontName
  {
    var unquoted := RemoveQuotes(fontName);
    assert unquoted == fontName by {
      RemoveQuotesPlain(fontName);
    }
    TrimIdentity(fontName);
  }

  lemma {:induction false} RemoveQuotesPlain(s: string)
    requires forall i :: 0 <= i < |s| ==> !IsQuote(s[i])
    ensures RemoveQuotes(s) == s
  {
    if |s| > 0 {
      RemoveQuotesPlain(s[1..]);
      assert [s[0]] + s[1..] == s;
    }
  }

  lemma AllQuotesCons(c: char, t: string)
    ensures AllQuotes([c] + t) <==> IsQuote(c) && AllQuotes(t)
  {
    var s := [c] + t;
    assert forall i :: 1 <= i < |s| ==> s[i] == t[i - 1];
    if AllQuotes(s) {
      assert IsQuote(s[0]);
      forall i | 0 <= i < |t|
        ensures IsQuote(t[i])
      {
        assert t[i] == s[i + 1];
      }
    }
    if IsQuote(c) && AllQuotes(t) {
      forall i | 0 <= i < |s|
        ensures IsQuote(s[i])
      {
        if i > 0 {
          assert s[i] == t[i - 1];
        }
      }
    }
  }

  lemma {:induction false} QuotesOnlyPreserved(s: string)
    ensures AllQuotes(SpaceRunsToPlus(s)) <==> AllQuotes(s)
    decreases |s|
  {
    if |s| > 0 {
      assert s == [s[0]] + s[1..];
      AllQuotesCons(s[0], s[1..]);
      if IsSpace(s[0]) {
        var t := SpaceRunsToPlus(TrimStart(s));
        assert SpaceRunsToPlus(s) == ['+'] + t;
        AllQuotesCons('+', t);
      } else {
        QuotesOnlyPreserved(s[1..]);
        assert SpaceRunsToPlus(s) == [s[0]] + SpaceRunsToPlus(s[1..]);
        AllQuotesCons(s[0], SpaceRunsToPlus(s[1..]));
      }
    }
  }

  /** Words separated by single spaces become words separated by `+`. */
  lemma {:induction false} SpacedWords(words: seq<string>)
    requires |words| >= 1
    requires forall k :: 0 <= k < |words| ==> words[k] != [] && forall i :: 0 <= i < |words[k]| ==> !IsSpace(words[k][i])
    ensures SpaceRunsToPlus(JoinWith(words, " ")) == JoinWith(words, "+")
    decreases |words|
  {
    if |words| == 1 {
    } else {
      SpacedWords(words[1..]);
      PlainThenSpace(words[0], JoinWith(words[1..], " "));
    }
  }

  lemma {:induction false} PlainThenSpace(w: string, rest: string)
    requires forall i :: 0 <= i < |w| ==> !IsSpace(w[i])
    requires rest == [] || !IsSpace(rest[0])
    ensures SpaceRunsToPlus(w + " " + rest) == w + "+" + SpaceRunsToPlus(rest)
    decreases |w|
  {
    if |w| == 0 {
      assert w + " " + rest == " " + rest;
      SpaceThenWord(rest);
    } else {
      assert forall i :: 0 <= i < |w[1..]| ==> w[1..][i] == w[i + 1];
      PlainThenSpace(w[1..], rest);
      PlainStep(w, rest);
    }
  }

  lemma PlainStep(w: string, rest: string)
    requires |w| > 0 && !IsSpace(w[0])
    requires SpaceRunsToPlus(w[1..] + " " + rest) == w[1..] + "+" + SpaceRunsToPlus(rest)
    ensures SpaceRunsToPlus(w + " " + rest) == w + "+" + SpaceRunsToPlus(rest)
  {
    var t := w[1..] + " " + rest;
    ConsAround(w, " ", rest);
    ConsWithPlain(w, rest, t);
    ConsAround(w, "+", SpaceRunsToPlus(rest));
  }

  lemma ConsAround(w: string, sep: string, rest: string)
    requires |w| > 0
    ensures w + sep + rest == [w[0]] + (w[1..] + sep + rest)
  {
  }

  lemma ConsWithPlain(w: string, rest: string, t: string)
    requires |w| > 0 && !IsSpace(w[0])
    requires t == w[1..] + " " + rest
    requires SpaceRunsToPlus(t) == w[1..] + "+" + SpaceRunsToPlus(rest)
    requires w + " " + rest == [w[0]] + t
    ensures SpaceRunsToPlus(w + " " + rest) == [w[0]] + (w[1..] + "+" + SpaceRunsToPlus(rest))
  {
    PlainCons(w[0], t);
  }

  lemma PlainCons(c: char, t: string)
    requires !IsSpace(c)
    ensures SpaceRunsToPlus([c] + t) == [c] + SpaceRunsToPlus(t)
  {
    assert ([c] + t)[1..] == t;
  }

  lemma SpaceThenWord(rest: string)
    requires rest == [] || !IsSpace(rest[0])
    ensures SpaceRunsToPlus(" " + rest) == "+" + SpaceRunsToPlus(rest)
  {
    var s := " " + rest;
    assert s[1..] == rest;
    assert TrimStart(s) == TrimStart(rest) == rest;
  }

  // ----- theme name from a URL -----

  /** The text after the last `/` (all of `s` when it has none). */
  function AfterLastSlash(s: string): (r: string)
    ensures '/' !in r
    ensures EndsWith(s, r)
    ensures |r| < |s| ==> s[|s| - |r| - 1] == '/'
    ensures |r| == |s| ==> '/' !in s
    decreases |s|
  {
    if |s| == 0 then []
    else if s[|s| - 1] == '/' then []
    else
      var r := AfterLastSlash(s[..|s| - 1]);
      assert forall c :: c in s <==> c in s[..|s| - 1] || c == s[|s| - 1];
      r + [s[|s| - 1]]
  }

  lemma {:induction false} AfterSlash(base: string, name: string)
    requires '/' !in name
    ensures AfterLastSlash(base + "/" + name) == name
    decreases |name|
  {
    var s := base + "/" + name;
    if |name| > 0 {
      var n := |name| - 1;
      assert s[..|s| - 1] == base + "/" + name[..n];
      AfterSlash(base, name[..n]);
      assert name[..n] + [name[n]] == name;
    } else {
      assert s[|s| - 1] == '/';
    }
  }

  const DefaultThemeName: string := "custom-theme"

  /** `/\/([^/]+)\.json$/`: the non-empty segment between the last `/` and a
      final `.json`, else `custom-theme`. */
  function ThemeNameFromUrl(url: string): (name: string)
    ensures name == DefaultThemeName || (name != [] && '/' !in name && EndsWith(url, "/" + name + ".json"))
  {
    if EndsWith(url, ".json") then
      var stem := url[..|url| - 5];
      var seg := AfterLastSlash(stem);
      if |seg| < |stem| && seg != [] then
        assert url == stem + ".json";
        assert stem[|stem| - |seg| - 1..] == "/" + seg;
        assert url[|url| - (|seg| + 6)..] == "/" + seg + ".json";
        seg
      else DefaultThemeName
    else DefaultThemeName
  }

  /** A theme URL `<base>/<name>.json` yields `name`. */
  lemma ThemeNameRoundTrip(base: string, name: string)
    requires name != [] && '/' !in name
    ensures ThemeNameFromUrl(base + "/" + name + ".json") == name
  {
    var url := base + "/" + name + ".json";
    assert url[..|url| - 5] == base + "/" + name;
    AfterSlash(base, name);
  }

  /** Without a final `.json` segment the default name is used. */
  lemma ThemeNameDefault(url: string)
    requires !EndsWith(url, ".json")
    ensures ThemeNameFromUrl(url) == DefaultThemeName
  {
  }

  // ----- Starlight colours -----

  /** `{...theme, ...mode}`: mode variables take precedence. */
  function MergeVars(theme: map<string, string>, mode: map<string, string>): (all: map<string, string>)
    ensures all.Keys == theme.Keys + mode.Keys
    ensures forall k :: k in mode ==> all[k] == mode[k]
    ensures forall k :: k in theme && k !in mode ==> all[k] == theme[k]
  {
    theme + mode
  }

  /** A variable's value as a CSS colour: nothing when absent or empty, the
      value itself when it is a colour function or a hex value, otherwise HSL
      channels wrapped in `hsl()`. */
  function ToCssColor(vars: map<string, string>, key: string): (r: Option<string>)
    ensures r.None? <==> key !in vars || vars[key] == ""
    ensures r.Some? && (IsColorFunction(vars[key]) || StartsWith(vars[key], "#")) ==> r.value == vars[key]
    ensures r.Some? && !IsColorFunction(vars[key]) && !StartsWith(vars[key], "#") ==> r.value == "hsl(" + vars[key] + ")"
    ensures r.Some? ==> r.value != ""
  {
    if key !in vars || vars[key] == "" then None
    else
      var v := vars[key];
      if IsColorFunction(v) || StartsWith(v, "#") then Some(v) else Some("hsl(" + v + ")")
  }

  /** Where a Starlight variable takes its colour from. */
  datatype Source = Key(key: string) | CardOrBackground

  function Resolve(vars: map<string, string>, src: Source): (r: Option<string>)
    ensures src.CardOrBackground? ==>
      r == if ToCssColor(vars, "card").Some? then ToCssColor(vars, "card") else ToCssColor(vars, "background")
  {
    match src
    case Key(k) => ToCssColor(vars, k)
    case CardOrBackground =>
      match ToCssColor(vars, "card")
      case Some(c) => Some(c)
      case None => ToCssColor(vars, "background")
  }

  const StarlightTable: seq<(string, Source)> := [
    ("--sl-color-bg", Key("background")),
    ("--sl-color-text", Key("foreground")),
    ("--sl-color-text-accent", Key("primary")),
    ("--sl-color-text-invert", Key("primary-foreground")),
    ("--sl-color-accent", Key("primary")),
    ("--sl-color-accent-high", Key("primary")),
    ("--sl-color-accent-low", Key("secondary")),
    ("--sl-color-bg-nav", CardOrBackground),
    ("--sl-color-bg-sidebar", CardOrBackground),
    ("--sl-color-bg-inline-code", Key("muted")),
    ("--sl-color-bg-accent", Key("accent")),
    ("--sl-color-hairline-light", Key("border")),
    ("--sl-color-hairline", Key("border")),
    ("--sl-color-hairline-shade", Key("border")),
    ("--sl-color-border-inline-code", Key("border")),
    ("--sl-color-white", Key("foreground")),
    ("--sl-color-gray-1", Key("foreground")),
    ("--sl-color-gray-2", Key("muted-foreground")),
    ("--sl-color-gray-3", Key("muted-foreground")),
    ("--sl-color-gray-4", Key("border")),
    ("--sl-color-gray-5", Key("muted")),
    ("--sl-color-gray-6", Key("background")),
    ("--sl-color-gray-7", Key("background")),
    ("--sl-color-black", Key("background")),
    ("--sl-color-red", Key("destructive")),
    ("--sl-color-red-low", Key("muted")),
    ("--sl-color-red-high", Key("destructive")),
    ("--sl-color-blue", Key("primary")),
    ("--sl-color-blue-low", Key("secondary")),
    ("--sl-color-blue-high", Key("primary")),
    ("--sl-color-green", Key("primary")),
    ("--sl-color-green-low", Key("secondary")),
    ("--sl-color-green-high", Key("primary")),
    ("--sl-color-purple", Key("accent")),
    ("--sl-color-purple-low", Key("muted")),
    ("--sl-color-purple-high", Key("accent")),
    ("--sl-color-orange", Key("primary")),
    ("--sl-color-orange-low", Key("secondary")),
    ("--sl-color-orange-high", Key("primary"))]

  /** The table's entries whose colour is defined, in table order. */
  function Assignments(vars: map<string, string>, table: seq<(string, Source)>): (r: seq<(string, string)>)
    ensures |r| <= |table|
    ensures forall k :: 0 <= k < |r| ==> r[k].1 != ""
    ensures forall k :: 0 <= k < |r| ==>
      (exists j :: 0 <= j < |table| && table[j].0 == r[k].0 && Resolve(vars, table[j].1) == Some(r[k].1))
    ensures forall j :: 0 <= j < |table| && Resolve(vars, table[j].1).Some? ==>
        (table[j].0, Resolve(vars, table[j].1).value) in r
  {
    if |table| == 0 then []
    else
      var rest := Assignments(vars, table[1..]);
      assert forall j :: 1 <= j < |table| ==> table[j] == table[1..][j - 1];
      var first := match Resolve(vars, table[0].1)
        case Some(v) => [(table[0].0, v)]
        case None => [];
      first + rest
  }

  /** One row of the table: its property and resolved colour when the
      colour is defined, nothing otherwise. */
  function AssignmentOf(vars: map<string, string>, row: (string, Source)): seq<(string, string)> {
    match Resolve(vars, row.1)
    case Some(v) => [(row.0, v)]
    case None => []
  }

  /** One step of the walk over the table. */
  lemma AssignmentsStep(vars: map<string, string>, table: seq<(string, Source)>)
    requires |table| > 0
    ensures Assignments(vars, table) == AssignmentOf(vars, table[0]) + Assignments(vars, table[1..])
  {
  }

  /** The assignments keep table order: they distribute over concatenation,
      so earlier rows come first, each contributing at most its own entry. */
  lemma {:induction false} AssignmentsAppend(vars: map<string, string>, a: seq<(string, Source)>, b: seq<(string, Source)>)
    ensures Assignments(vars, a + b) == Assignments(vars, a) + Assignments(vars, b)
    ensures |a| == 1 ==> Assignments(vars, a) == AssignmentOf(vars, a[0])
    decreases |a|
  {
    if |a| == 0 {
      assert a + b == b;
    } else {
      assert (a + b)[0] == a[0];
      assert (a + b)[1..] == a[1..] + b;
      AssignmentsAppend(vars, a[1..], b);
      AssignmentsStep(vars, a + b);
      AssignmentsStep(vars, a);
      ConsAppend(AssignmentOf(vars, a[0]), Assignments(vars, a[1..]), Assignments(vars, b),
                 Assignments(vars, a + b), Assignments(vars, a), Assignments(vars, a[1..] + b));
      if |a| == 1 {
        assert a[1..] == [];
        assert Assignments(vars, a[1..]) == [];
      }
    }
  }

  lemma ConsAppend<T>(h: seq<T>, x: seq<T>, y: seq<T>, whole: seq<T>, front: seq<T>, tail: seq<T>)
    requires whole == h + tail && tail == x + y && front == h + x
    ensures whole == front + y
  {
  }

  /** The Starlight properties set for a theme in a mode. */
  function StarlightVars(theme: map<string, string>, mode: map<string, string>): seq<(string, string)> {
    Assignments(MergeVars(theme, mode), StarlightTable)
  }

  /** A mode value overrides a theme value for the same key, and channels are
      wrapped: the page background follows the mode's `background`. */
  lemma ModeOverridesTheme(theme: map<string, string>, mode: map<string, string>, v: string)
    requires "background" in mode && mode["background"] == v
    requires v != [] && v[0] != '#' && (Trim(v) == [] || !IsAsciiLetter(Trim(v)[0]))
    ensures ("--sl-color-bg", "hsl(" + v + ")") in StarlightVars(theme, mode)
  {
    var all := MergeVars(theme, mode);
    NonLetterStartNotColor(v);
    assert StarlightTable[0] == ("--sl-color-bg", Key("background"));
    assert Resolve(all, StarlightTable[0].1) == Some("hsl(" + v + ")");
  }

  /** Without `card`, navigation and sidebar use the background colour. */
  lemma NavFallsBackToBackground(theme: map<string, string>, mode: map<string, string>)
    requires "card" !in theme && "card" !in mode
    requires "background" in mode && mode["background"] == "#fff"
    ensures ("--sl-color-bg-nav", "#fff") in StarlightVars(theme, mode)
    ensures ("--sl-color-bg-sidebar", "#fff") in StarlightVars(theme, mode)
  {
    var all := MergeVars(theme, mode);
    assert StarlightTable[7] == ("--sl-color-bg-nav", CardOrBackground);
    assert StarlightTable[8] == ("--sl-color-bg-sidebar", CardOrBackground);
    assert ToCssColor(all, "card") == None;
    assert ToCssColor(all, "background") == Some("#fff");
  }

  // ----- properties written for a theme's variables -----

  /** The properties one variable sets: `--color-<key>` first when the value is
      a colour function and the key a colour name, then `--<key>`. */
  function VarWrites(key: string, value: string): (w: seq<(string, string)>)
    ensures |w| == 1 || |w| == 2
    ensures w[|w| - 1] == ("--" + key, value)
    ensures |w| == 2 <==> IsColorFunction(value) && IsColorVariable(key)
    ensures |w| == 2 ==> w[0] == ("--color-" + key, value)
  {
    (if IsColorFunction(value) && IsColorVariable(key) then [("--color-" + key, value)] else []) + [("--" + key, value)]
  }

  /** What one entry of the theme-level variables sets: `--<key>` first, then
      `--color-<key>` for a colour name with a colour-function value. */
  function ThemeEntryWrites(entry: (string, string)): (w: seq<(string, string)>)
    ensures |w| == 1 || |w| == 2
    ensures w[0] == ("--" + entry.0, entry.1)
    ensures |w| == 2 <==> IsColorFunction(entry.1) && IsColorVariable(entry.0)
    ensures |w| == 2 ==> w[1] == ("--color-" + entry.0, entry.1)
  {
    [("--" + entry.0, entry.1)] +
    (if IsColorFunction(entry.1) && IsColorVariable(entry.0) then [("--color-" + entry.0, entry.1)] else [])
  }

  /** The theme-level variables, in entry order; unlike a mode's, none is skipped. */
  function ThemeVarWrites(entries: seq<(string, string)>): (w: seq<(string, string)>)
    ensures forall k :: 0 <= k < |entries| ==> ("--" + entries[k].0, entries[k].1) in w
  {
    var w := FlatMap(entries, ThemeEntryWrites);
    forall k | 0 <= k < |entries|
      ensures ("--" + entries[k].0, entries[k].1) in w
    {
      assert ThemeEntryWrites(entries[k])[0] in ThemeEntryWrites(entries[k]);
    }
    w
  }

  /** The `font-sans` value that triggers font loading: the last non-empty
      `font-sans` entry, if any. */
  function FontSansValue(entries: seq<(string, string)>): (r: Option<string>)
    ensures r.Some? ==> r.value != "" && ("font-sans", r.value) in entries
    ensures r.None? <==> forall k :: 0 <= k < |entries| && entries[k].0 == "font-sans" ==> entries[k].1 == ""
  {
    if |entries| == 0 then None
    else
      var n := |entries| - 1;
      var last := entries[n];
      if last.0 == "font-sans" && last.1 != "" then Some(last.1)
      else
        var r := FontSansValue(entries[..n]);
        assert forall k :: 0 <= k < n ==> entries[..n][k] == entries[k];
        assert forall x :: x in entries[..n] ==> x in entries;
        r
  }

  /** What one entry of a mode's variables sets: nothing for a theme-level key. */
  function ModeEntryWrites(entry: (string, string)): (w: seq<(string, string)>)
    ensures IsThemeLevelKey(entry.0) <==> w == []
  {
    if IsThemeLevelKey(entry.0) then [] else VarWrites(entry.0, entry.1)
  }

  /** A mode's variables, in entry order. */
  function ModeVarWrites(entries: seq<(string, string)>): (w: seq<(string, string)>)
    ensures forall k :: 0 <= k < |entries| && !IsThemeLevelKey(entries[k].0) ==>
      ("--" + entries[k].0, entries[k].1) in w
  {
    var w := FlatMap(entries, ModeEntryWrites);
    forall k | 0 <= k < |entries| && !IsThemeLevelKey(entries[k].0)
      ensures ("--" + entries[k].0, entries[k].1) in w
    {
      var e := ModeEntryWrites(entries[k]);
      assert e[|e| - 1] in e;
    }
    w
  }

  lemma ConcatCancel(p: string, a: string, b: string)
    ensures p + a == p + b <==> a == b
  {
    if p + a == p + b {
      assert (p + a)[|p|..] == a && (p + b)[|p|..] == b;
    }
  }

  /** Only colour names with colour-function values set `--color-*`: such a
      property comes from the entry for `key` itself (unless a variable is
      literally named `color-<key>`). */
  lemma ColorPropertyOnlyForColors(entries: seq<(string, string)>, key: string, value: string)
    requires ("--color-" + key, value) in ModeVarWrites(entries)
    requires forall k :: 0 <= k < |entries| ==> entries[k].0 != "color-" + key
    ensures (key, value) in entries
    ensures !IsThemeLevelKey(key) && IsColorFunction(value) && IsColorVariable(key)
  {
    var p := ("--color-" + key, value);
    ModeVarWritesOrigin(entries, p);
    var k :| 0 <= k < |entries| && p in ModeEntryWrites(entries[k]);
    EntryColorProperty(entries[k], key, value);
  }

  lemma ModeVarWritesOrigin(entries: seq<(string, string)>, p: (string, string))
    requires p in ModeVarWrites(entries)
    ensures exists k :: 0 <= k < |entries| && p in ModeEntryWrites(entries[k])
  {
    assert p in FlatMap(entries, ModeEntryWrites);
  }

  lemma EntryColorProperty(e: (string, string), key: string, value: string)
    requires ("--color-" + key, value) in ModeEntryWrites(e)
    requires e.0 != "color-" + key
    ensures e == (key, value) && !IsThemeLevelKey(key) && IsColorFunction(value) && IsColorVariable(key)
  {
    assert ModeEntryWrites(e) != [];
    assert ModeEntryWrites(e) == VarWrites(e.0, e.1);
    ColorWriteOf(e.0, e.1, key, value);
  }

  /** The `--color-<key>` property of one variable's writes comes from the
      variable named `key` itself. */
  lemma ColorWriteOf(k: string, v: string, key: string, value: string)
    requires ("--color-" + key, value) in VarWrites(k, v)
    requires k != "color-" + key
    ensures k == key && v == value && IsColorFunction(v) && IsColorVariable(k)
  {
    assert "--" + "color-" == "--color-";
    PickPrefixedWrite(VarWrites(k, v), "--", "color-", k, v, key, value);
  }

  /** Of the writes `[(d + c + k, v)]` (optional) then `(d + k, v)`, the one
      named `d + c + key` is the first, unless `k` is itself `c + key`. */
  lemma PickPrefixedWrite(w: seq<(string, string)>, d: string, c: string, k: string, v: string, key: string, value: string)
    requires |w| == 1 || |w| == 2
    requires w[|w| - 1] == (d + k, v)
    requires |w| == 2 ==> w[0] == (d + c + k, v)
    requires (d + c + key, value) in w && k != c + key
    ensures |w| == 2 && k == key && v == value
  {
    assert d + c + key == d + (c + key);
    ConcatCancel(d, k, c + key);
    NotLastOfTwo(w, (d + c + key, value));
    ConcatCancel(d + c, k, key);
  }

  lemma NotLastOfTwo<T>(w: seq<T>, p: T)
    requires |w| == 1 || |w| == 2
    requires p in w && p != w[|w| - 1]
    ensures |w| == 2 && p == w[0]
  {
  }

  /** A theme-level key in a mode's variables sets nothing at all. */
  lemma ThemeLevelModeVarsIgnored(entries: seq<(string, string)>, key: string, value: string)
    requires IsThemeLevelKey(key)
    ensures ModeVarWrites(entries + [(key, value)]) == ModeVarWrites(entries)
  {
    FlatMapSilent(entries, (key, value), ModeEntryWrites);
  }

  /** Whether pasted input is CSS rather than a URL; URL validity is a parameter. */
  function IsCssCode(input: string, isUrl: string -> bool): (r: bool)
    ensures isUrl(Trim(input)) ==> !r
    ensures !isUrl(Trim(input)) && Contains(Trim(input), ":root") ==> r
  {
    var t := Trim(input);
    if isUrl(t) then false
    else
      || Contains(t, ":root") || Contains(t, ".dark") || Contains(t, "@theme") || Contains(t, "--")
      || (Contains(t, "{") && Contains(t, "}") && Contains(t, ":"))
  }
}
