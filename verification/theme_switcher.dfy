/** The state machine behind `createTweakcnSwitcher`: the list of theme
    options, the current option, the light/dark mode, the cached registry
    item and the last error. Fetching, the DOM, storage and events are left
    to the caller: a fetch is passed in as its outcome. */
module ThemeSwitcher {
  import opened Results
  import opened Strings
  import opened ThemeUtils
  import CssParser

  datatype Mode = Light | Dark

  /** The stored spelling of a mode. */
  function ModeName(m: Mode): string {
    match m
    case Light => "light"
    case Dark => "dark"
  }

  /** `toggleMode`'s new mode: light becomes dark, anything else light. */
  function Toggle(m: Mode): (r: Mode)
    ensures r != m
  {
    if m == Light then Dark else Light
  }

  /** Toggling twice is the identity. */
  lemma ToggleInvolution(m: Mode)
    ensures Toggle(Toggle(m)) == m
  {
  }

  /** A saved mode is accepted only when it is exactly `"dark"` or `"light"`. */
  function ParseSavedMode(saved: Option<string>): (r: Option<Mode>)
    ensures r.Some? <==> saved == Some("dark") || saved == Some("light")
    ensures r.Some? ==> saved == Some(ModeName(r.value))
  {
    if saved == Some("dark") then Some(Dark)
    else if saved == Some("light") then Some(Light)
    else None
  }

  /** Whatever mode is stored is read back. */
  lemma SavedModeRoundTrip(m: Mode)
    ensures ParseSavedMode(Some(ModeName(m))) == Some(m)
  {
  }

  datatype ThemeOption = ThemeOption(id: string, name: string, url: string)

  /** The switcher's signals; `cached` is the registry item of the current
      theme, reapplied on every mode change. */
  datatype State = State(
    themes: seq<ThemeOption>,
    current: Option<ThemeOption>,
    mode: Mode,
    cached: Option<CssParser.ThemeItem>,
    error: Option<string>)

  /** The state before mounting: the configured default themes, nothing
      current, light mode. */
  function Init(defaults: seq<ThemeOption>): State {
    State(defaults, None, Light, None, None)
  }

  /** JavaScript's `a || b` on strings: the empty string is falsy. */
  function OrElse(a: string, b: string): (r: string)
    ensures a != [] ==> r == a
    ensures a == [] ==> r == b
  {
    if a != [] then a else b
  }

  /** The id given to a theme option of that name. */
  function ThemeId(name: string): string {
    "theme-" + name
  }

  /** The name of a theme: the explicit name, else the registry item's name,
      else the name taken from the URL; never empty. */
  function ThemeName(explicit: Option<string>, itemName: string, url: string): (r: string)
    ensures r != []
    ensures explicit.Some? && explicit.value != [] ==> r == explicit.value
    ensures (explicit.None? || explicit.value == []) && itemName != [] ==> r == itemName
    ensures (explicit.None? || explicit.value == []) && itemName == [] ==> r == ThemeNameFromUrl(url)
  {
    OrElse(explicit.GetOr(""), OrElse(itemName, ThemeNameFromUrl(url)))
  }

  /** What a rejected promise carries: an `Error` with its message, or any
      other value, described by its text. */
  datatype Thrown = ErrorObject(message: string) | OtherValue(text: string)

  /** The message recorded for a failure: the error's own message when it
      is an `Error`, else the fallback. */
  function FailureMessage(err: Thrown, fallback: string): (r: string)
    ensures err.ErrorObject? ==> r == err.message
    ensures err.OtherValue? ==> r == fallback
  {
    match err
    case ErrorObject(m) => m
    case OtherValue(_) => fallback
  }

  // ----- looking up by URL -----

  predicate HasUrl(ts: seq<ThemeOption>, url: string) {
    exists i :: 0 <= i < |ts| && ts[i].url == url
  }

  /** No two options share a URL. */
  predicate UrlsUnique(ts: seq<ThemeOption>) {
    forall i, j :: 0 <= i < j < |ts| ==> ts[i].url != ts[j].url
  }

  /** `findIndex((t) => t.url === url)`: the first option with that URL. */
  function IndexOfUrl(ts: seq<ThemeOption>, url: string): (r: Option<nat>)
    ensures r.Some? ==> r.value < |ts| && ts[r.value].url == url
    ensures r.Some? ==> forall k :: 0 <= k < r.value ==> ts[k].url != url
    ensures r.None? ==> forall k :: 0 <= k < |ts| ==> ts[k].url != url
  {
    if |ts| == 0 then None
    else if ts[0].url == url then Some(0)
    else
      match IndexOfUrl(ts[1..], url)
      case None => None
      case Some(i) => Some(i + 1)
  }

  lemma IndexOfUrlIff(ts: seq<ThemeOption>, url: string)
    ensures IndexOfUrl(ts, url).Some? <==> HasUrl(ts, url)
  {
    if HasUrl(ts, url) {
      var i :| 0 <= i < |ts| && ts[i].url == url;
      assert IndexOfUrl(ts, url).Some?;
    }
  }

  /** Find or create: the first option with the URL of `candidate` becomes
      current and the list is kept; failing that, `candidate` is appended and
      becomes current. Shared by `applyTheme` and the restore on mount. */
  function FindOrCreate(ts: seq<ThemeOption>, candidate: ThemeOption): (r: (seq<ThemeOption>, ThemeOption))
    ensures r.1.url == candidate.url && r.1 in r.0
    ensures HasUrl(ts, candidate.url) ==> r.0 == ts
    ensures HasUrl(ts, candidate.url) ==> exists i :: 0 <= i < |ts| && ts[i] == r.1 && forall k :: 0 <= k < i ==> ts[k].url != candidate.url
    ensures !HasUrl(ts, candidate.url) ==> r.0 == ts + [candidate] && r.1 == candidate
  {
    IndexOfUrlIff(ts, candidate.url);
    match IndexOfUrl(ts, candidate.url)
    case Some(i) => (ts, ts[i])
    case None => (ts + [candidate], candidate)
  }

  /** Appending an option with a new URL keeps URLs unique. */
  lemma AppendUnique(ts: seq<ThemeOption>, t: ThemeOption)
    requires UrlsUnique(ts) && !HasUrl(ts, t.url)
    ensures UrlsUnique(ts + [t])
  {
    var r := ts + [t];
    forall i, j | 0 <= i < j < |r|
      ensures r[i].url != r[j].url
    {
      if j == |ts| {
        assert r[i] == ts[i];
      } else {
        assert r[i] == ts[i] && r[j] == ts[j];
      }
    }
  }

  lemma FindOrCreateUnique(ts: seq<ThemeOption>, candidate: ThemeOption)
    requires UrlsUnique(ts)
    ensures UrlsUnique(FindOrCreate(ts, candidate).0)
  {
    if !HasUrl(ts, candidate.url) {
      AppendUnique(ts, candidate);
    }
  }

  // ----- the operations -----

  /** `applyTheme(url)` once the fetch and the application of the fetched
      item to the document have settled (`applied` is `None` when applying
      the item succeeded, or what it threw). A failed fetch changes only the
      error. A fetched item is cached before it is applied, so it stays
      cached when applying it throws; then only the error changes besides.
      On full success the error is cleared and the option for the URL is
      found or created and made current. */
  function ApplyTheme(s: State, url: string, fetched: Result<CssParser.ThemeItem, Thrown>, applied: Option<Thrown>): (r: State)
    ensures r.mode == s.mode
    ensures fetched.Failure? ==> r == s.(error := Some(FailureMessage(fetched.error, "Failed to apply theme")))
    ensures fetched.Success? && applied.Some? ==>
      r == s.(cached := Some(fetched.value), error := Some(FailureMessage(applied.value, "Failed to apply theme")))
    ensures fetched.Success? && applied.None? ==> r.error.None? && r.cached == Some(fetched.value)
    ensures fetched.Success? && applied.None? ==> r.current.Some? && r.current.value.url == url && r.current.value in r.themes
    ensures fetched.Success? && applied.None? && HasUrl(s.themes, url) ==> r.themes == s.themes && r.current.value in s.themes
    ensures fetched.Success? && applied.None? && !HasUrl(s.themes, url) ==>
      var name := ThemeName(None, fetched.value.name, url);
      r.themes == s.themes + [ThemeOption(ThemeId(name), name, url)]
  {
    match fetched
    case Failure(err) => s.(error := Some(FailureMessage(err, "Failed to apply theme")))
    case Success(item) =>
      match applied
      case Some(err) => s.(cached := Some(item), error := Some(FailureMessage(err, "Failed to apply theme")))
      case None =>
        var name := ThemeName(None, item.name, url);
        var found := FindOrCreate(s.themes, ThemeOption(ThemeId(name), name, url));
        s.(themes := found.0, current := Some(found.1), cached := Some(item), error := None)
  }

  /** `applyThemeOption(theme)`: applies the option's URL, or the empty URL
      when there is no option. */
  function ApplyThemeOption(s: State, theme: Option<ThemeOption>, fetched: Result<CssParser.ThemeItem, Thrown>, applied: Option<Thrown>): (r: State)
    ensures fetched.Success? && applied.None? && theme.Some? ==> r.current.Some? && r.current.value.url == theme.value.url
    ensures fetched.Success? && applied.None? && theme.None? ==> r.current.Some? && r.current.value.url == ""
  {
    ApplyTheme(s, if theme.Some? then theme.value.url else "", fetched, applied)
  }

  /** `addTheme(url, name)` once the fetch has settled. On success the new
      option is returned, and appended unless an option already has the
      URL; on failure the error's message is recorded and the original
      rejection is thrown on. The current theme and mode never change. */
  function AddTheme(s: State, url: string, name: Option<string>, fetched: Result<CssParser.ThemeItem, Thrown>): (r: (State, Result<ThemeOption, Thrown>))
    ensures r.0.current == s.current && r.0.mode == s.mode && r.0.cached == s.cached
    ensures fetched.Failure? ==> r.0 == s.(error := Some(FailureMessage(fetched.error, "Failed to add theme")))
    ensures fetched.Failure? ==> r.1 == Failure(fetched.error)
    ensures fetched.Success? ==> r.1.Success? && r.1.value.url == url && r.1.value.id == ThemeId(r.1.value.name)
    ensures fetched.Success? ==> r.1.value.name == ThemeName(name, fetched.value.name, url)
    ensures fetched.Success? ==> r.0.error == s.error
    ensures fetched.Success? && HasUrl(s.themes, url) ==> r.0.themes == s.themes
    ensures fetched.Success? && !HasUrl(s.themes, url) ==> r.0.themes == s.themes + [r.1.value]
  {
    match fetched
    case Failure(err) =>
      (s.(error := Some(FailureMessage(err, "Failed to add theme"))), Failure(err))
    case Success(item) =>
      var themeName := ThemeName(name, item.name, url);
      var option := ThemeOption(ThemeId(themeName), themeName, url);
      IndexOfUrlIff(s.themes, url);
      var themes := if IndexOfUrl(s.themes, url).Some? then s.themes else s.themes + [option];
      (s.(themes := themes), Success(option))
  }

  /** `prev.filter((t) => t.id !== id)`. */
  function WithoutId(ts: seq<ThemeOption>, id: string): (r: seq<ThemeOption>)
    ensures |r| <= |ts|
    ensures forall k :: 0 <= k < |r| ==> r[k].id != id
  {
    if |ts| == 0 then []
    else (if ts[0].id != id then [ts[0]] else []) + WithoutId(ts[1..], id)
  }

  /** Exactly the options with another id are kept. */
  lemma {:induction false} WithoutIdMembers(ts: seq<ThemeOption>, id: string)
    ensures forall t :: t in WithoutId(ts, id) <==> t in ts && t.id != id
    decreases |ts|
  {
    if |ts| > 0 {
      WithoutIdMembers(ts[1..], id);
      assert ts == [ts[0]] + ts[1..];
    }
  }

  /** Removal keeps the order of the options left: it distributes over
      concatenation. */
  lemma {:induction false} WithoutIdAppend(a: seq<ThemeOption>, b: seq<ThemeOption>, id: string)
    ensures WithoutId(a + b, id) == WithoutId(a, id) + WithoutId(b, id)
    decreases |a|
  {
    if |a| == 0 {
      assert a + b == b;
    } else {
      var head := if a[0].id != id then [a[0]] else [];
      assert (a + b)[0] == a[0];
      assert (a + b)[1..] == a[1..] + b;
      assert WithoutId(a + b, id) == head + WithoutId(a[1..] + b, id);
      assert WithoutId(a, id) == head + WithoutId(a[1..], id);
      WithoutIdAppend(a[1..], b, id);
      assert head + (WithoutId(a[1..], id) + WithoutId(b, id)) == (head + WithoutId(a[1..], id)) + WithoutId(b, id);
    }
  }

  /** A list without that id is left as it is. */
  lemma {:induction false} WithoutAbsentId(ts: seq<ThemeOption>, id: string)
    requires forall k :: 0 <= k < |ts| ==> ts[k].id != id
    ensures WithoutId(ts, id) == ts
    decreases |ts|
  {
    if |ts| > 0 {
      WithoutAbsentId(ts[1..], id);
    }
  }

  /** Removal keeps URLs unique. */
  lemma {:induction false} WithoutIdUnique(ts: seq<ThemeOption>, id: string)
    requires UrlsUnique(ts)
    ensures UrlsUnique(WithoutId(ts, id))
    decreases |ts|
  {
    if |ts| > 0 {
      var rest := WithoutId(ts[1..], id);
      assert UrlsUnique(ts[1..]) by {
        forall i, j | 0 <= i < j < |ts[1..]|
          ensures ts[1..][i].url != ts[1..][j].url
        {
          assert ts[1..][i] == ts[i + 1] && ts[1..][j] == ts[j + 1];
        }
      }
      WithoutIdUnique(ts[1..], id);
      WithoutIdMembers(ts[1..], id);
      if ts[0].id != id {
        var r := [ts[0]] + rest;
        forall i, j | 0 <= i < j < |r|
          ensures r[i].url != r[j].url
        {
          if i == 0 {
            assert r[j] in ts[1..];
            var k :| 0 <= k < |ts[1..]| && ts[1..][k] == r[j];
            assert ts[k + 1] == r[j];
          } else {
            assert r[i] == rest[i - 1] && r[j] == rest[j - 1];
          }
        }
      }
    }
  }

  /** `removeTheme(id)`: every option with the id goes; the current theme
      and the cached item are cleared exactly when the current theme has the
      id. */
  function RemoveTheme(s: State, id: string): (r: State)
    ensures forall t :: t in r.themes <==> t in s.themes && t.id != id
    ensures r.mode == s.mode && r.error == s.error
    ensures r.current.None? <==> s.current.None? || s.current.value.id == id
    ensures r.current.Some? ==> r.current == s.current && r.cached == s.cached
    ensures s.current.Some? && s.current.value.id == id ==> r.cached.None?
  {
    WithoutIdMembers(s.themes, id);
    var themes := WithoutId(s.themes, id);
    if s.current.Some? && s.current.value.id == id then
      s.(themes := themes, current := None, cached := None)
    else
      s.(themes := themes)
  }

  /** `setMode(m)`: only the mode changes. */
  function SetMode(s: State, m: Mode): (r: State)
    ensures r.mode == m && r.(mode := s.mode) == s
  {
    s.(mode := m)
  }

  /** `toggleMode()`: the state takes the other mode. */
  function ToggleMode(s: State): (r: State)
    ensures r.mode != s.mode && r.(mode := s.mode) == s
  {
    SetMode(s, Toggle(s.mode))
  }

  /** The mode restored on mount: a valid saved mode replaces the current
      one, and nothing is read when persistence is off. */
  function MountMode(s: State, persist: bool, saved: Option<string>): (r: State)
    ensures r.(mode := s.mode) == s
    ensures r.mode != s.mode ==> persist && saved == Some(ModeName(r.mode))
  {
    if persist then
      match ParseSavedMode(saved)
      case Some(m) => s.(mode := m)
      case None => s
    else s
  }

  /** The restore on mount when the theme's styles are already in the
      document: the saved name, else the name taken from the URL, and the
      option for the saved URL found or created and made current. */
  function RestoreApplied(s: State, url: string, savedName: Option<string>): (r: State)
    ensures r.mode == s.mode && r.cached == s.cached && r.error == s.error
    ensures r.current.Some? && r.current.value.url == url && r.current.value in r.themes
    ensures HasUrl(s.themes, url) ==> r.themes == s.themes
    ensures !HasUrl(s.themes, url) ==> |r.themes| == |s.themes| + 1 && r.themes[..|s.themes|] == s.themes
  {
    var name := OrElse(savedName.GetOr(""), ThemeNameFromUrl(url));
    var found := FindOrCreate(s.themes, ThemeOption(ThemeId(name), name, url));
    s.(themes := found.0, current := Some(found.1))
  }

  /** The `tweakcn-theme-change` event: the current id and name, or
      `default` and `Default` when there is none or they are empty. */
  function ChangeEvent(s: State): (r: (string, string, string))
    ensures r.0 != [] && r.2 != [] && r.1 == ModeName(s.mode)
    ensures s.current.None? ==> r.0 == "default" && r.2 == "Default"
    ensures s.current.Some? && s.current.value.id != [] ==> r.0 == s.current.value.id
  {
    match s.current
    case None => ("default", ModeName(s.mode), "Default")
    case Some(t) => (OrElse(t.id, "default"), ModeName(s.mode), OrElse(t.name, "Default"))
  }

  // ----- the invariant -----

  /** URLs in the list are unique and the current theme is one of them. */
  predicate Valid(s: State) {
    UrlsUnique(s.themes) && (s.current.Some? ==> s.current.value in s.themes)
  }

  /** The initial state is valid exactly when the default themes have
      distinct URLs. */
  lemma InitValid(defaults: seq<ThemeOption>)
    ensures Valid(Init(defaults)) <==> UrlsUnique(defaults)
  {
  }

  lemma ApplyPreservesValid(s: State, url: string, fetched: Result<CssParser.ThemeItem, Thrown>, applied: Option<Thrown>)
    requires Valid(s)
    ensures Valid(ApplyTheme(s, url, fetched, applied))
  {
    if fetched.Success? && applied.None? {
      var name := ThemeName(None, fetched.value.name, url);
      FindOrCreateUnique(s.themes, ThemeOption(ThemeId(name), name, url));
    }
  }

  lemma AddPreservesValid(s: State, url: string, name: Option<string>, fetched: Result<CssParser.ThemeItem, Thrown>)
    requires Valid(s)
    ensures Valid(AddTheme(s, url, name, fetched).0)
  {
    var r := AddTheme(s, url, name, fetched);
    if fetched.Success? && !HasUrl(s.themes, url) {
      AppendUnique(s.themes, r.1.value);
    }
  }

  lemma RemovePreservesValid(s: State, id: string)
    requires Valid(s)
    ensures Valid(RemoveTheme(s, id))
  {
    WithoutIdUnique(s.themes, id);
  }

  lemma RestorePreservesValid(s: State, url: string, savedName: Option<string>)
    requires Valid(s)
    ensures Valid(RestoreApplied(s, url, savedName))
  {
    var name := OrElse(savedName.GetOr(""), ThemeNameFromUrl(url));
    FindOrCreateUnique(s.themes, ThemeOption(ThemeId(name), name, url));
  }

  // ----- relating the operations -----

  /** Applying the same URL with the same item twice is the same as once. */
  lemma ApplyIdempotent(s: State, url: string, item: CssParser.ThemeItem)
    ensures var once := ApplyTheme(s, url, Success(item), None);
      ApplyTheme(once, url, Success(item), None) == once
  {
    var name := ThemeName(None, item.name, url);
    var candidate := ThemeOption(ThemeId(name), name, url);
    var once := ApplyTheme(s, url, Success(item), None);
    IndexOfUrlIff(s.themes, url);
    if IndexOfUrl(s.themes, url).None? {
      assert once.themes == s.themes + [candidate];
      assert IndexOfUrl(once.themes, url) == Some(|s.themes|) by {
        assert forall k :: 0 <= k < |s.themes| ==> once.themes[k] == s.themes[k];
        IndexOfUrlFirst(once.themes, url, |s.themes|);
      }
    } else {
      IndexOfUrlFirst(once.themes, url, IndexOfUrl(s.themes, url).value);
    }
  }

  /** The index found is the first one with the URL. */
  lemma IndexOfUrlFirst(ts: seq<ThemeOption>, url: string, i: nat)
    requires i < |ts| && ts[i].url == url
    requires forall k :: 0 <= k < i ==> ts[k].url != url
    ensures IndexOfUrl(ts, url) == Some(i)
  {
    var r := IndexOfUrl(ts, url);
    assert r.Some?;
    assert r.value >= i by {
      assert ts[r.value].url == url;
    }
  }

  /** A theme that was just added is found, not duplicated, when applied. */
  lemma AddThenApplyKeepsList(s: State, url: string, name: Option<string>, item: CssParser.ThemeItem, item2: CssParser.ThemeItem)
    ensures var added := AddTheme(s, url, name, Success(item)).0;
      ApplyTheme(added, url, Success(item2), None).themes == added.themes
  {
    var added := AddTheme(s, url, name, Success(item));
    if !HasUrl(s.themes, url) {
      assert added.0.themes[|s.themes|].url == url;
    }
  }

  /** Removing the current theme leaves the default event behind. */
  lemma RemoveCurrentAnnouncesDefault(s: State)
    requires s.current.Some?
    ensures ChangeEvent(RemoveTheme(s, s.current.value.id)).0 == "default"
  {
  }

  /** With styles already present, restoring a saved theme whose saved name
      is the registry item's name puts the list and current theme where
      applying it would. */
  lemma RestoreAgreesWithApply(s: State, url: string, item: CssParser.ThemeItem)
    ensures var restored := RestoreApplied(s, url, Some(item.name));
      var applied := ApplyTheme(s, url, Success(item), None);
      restored.themes == applied.themes && restored.current == applied.current
  {
  }
}
