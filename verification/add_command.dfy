/** The `add` command: it decides which components to install, runs the
    scaffolding tool once per component, writes the registry item's files
    that are still missing afterwards, and installs the dependencies the
    project lacks. The network, the child processes and the console are
    parameters (`Tools`); the files are a map from path to contents. */
module AddCommand {
  import opened Results
  import opened Strings
  import Paths
  import opened JsonValues
  import ComponentsConfig
  import opened ProjectManifest
  import opened AddTargets

  const DefaultRegistryBaseUrl: string := "https://devx-op.github.io/arkitect-ui/r"

  /** `REGISTRY_URL` or the public catalog, with one trailing `/` dropped. */
  function RegistryBaseUrl(env: Option<string>): (r: string)
    ensures env.None? ==> r == DefaultRegistryBaseUrl
    ensures env.Some? && EndsWith(env.value, "/") ==> r + "/" == env.value
    ensures env.Some? && !EndsWith(env.value, "/") ==> r == env.value
  {
    var raw := env.GetOr(DefaultRegistryBaseUrl);
    if EndsWith(raw, "/") then raw[..|raw| - 1] else raw
  }

  /** Only one `/` is removed: a base ending in `//` keeps one. */
  lemma OneSlashRemoved()
    ensures RegistryBaseUrl(Some("https://r.example//")) == "https://r.example/"
  {
  }

  // ----- which components -----

  datatype IndexEntry = IndexEntry(name: string, entryType: string)

  function FrameworkPrefix(f: ComponentsConfig.Framework): string {
    if f == ComponentsConfig.Solid then "s/" else "r/"
  }

  /** The URL segment of a framework: `s` for Solid, `r` for React. */
  function FrameworkSegment(f: ComponentsConfig.Framework): (seg: string)
    ensures seg + "/" == FrameworkPrefix(f)
  {
    if f == ComponentsConfig.Solid then "s" else "r"
  }

  predicate Installable(e: IndexEntry, f: ComponentsConfig.Framework) {
    e.entryType == "registry:ui" && StartsWith(e.name, FrameworkPrefix(f))
  }

  /** `name.split("/")[1]`: the second `/`-separated segment. */
  function BareName(name: string): string
    requires '/' in name
  {
    Split(name, '/')[1]
  }

  /** A catalog name `r/<n>` or `s/<n>` yields `n` when `n` has no `/`; a
      nested name `r/<n>/<more>` yields only `n`. */
  lemma {:induction false} BareNameOfCatalogName(f: ComponentsConfig.Framework, n: string, more: string)
    requires '/' !in n
    requires more == [] || more[0] == '/'
    ensures '/' in FrameworkPrefix(f) + n + more
    ensures BareName(FrameworkPrefix(f) + n + more) == n
  {
    var seg := FrameworkSegment(f);
    var s := FrameworkPrefix(f) + n + more;
    var rest := n + more;
    var tail := ['/'] + rest;
    assert s == seg + tail && s[|seg|] == '/';
    SplitFirstEmpty(more, '/');
    SplitPrefix(n, more, '/');
    assert n + "" == n;
    assert Split(rest, '/')[0] == n;
    SplitLeadingSep(rest, '/');
    SplitPrefix(seg, tail, '/');
    assert Split(s, '/')[1] == Split(tail, '/')[1];
  }

  function CountInstallable(items: seq<IndexEntry>, f: ComponentsConfig.Framework): nat {
    if |items| == 0 then 0
    else (if Installable(items[0], f) then 1 else 0) + CountInstallable(items[1..], f)
  }

  /** The catalog's installable entries for the framework, as bare names, in
      catalog order. */
  function PlanFromIndex(items: seq<IndexEntry>, f: ComponentsConfig.Framework): (names: seq<string>)
    ensures |names| == CountInstallable(items, f)
    ensures names == [] <==> forall i :: 0 <= i < |items| ==> !Installable(items[i], f)
    ensures forall n :: n in names <==>
      exists i :: 0 <= i < |items| && Installable(items[i], f) && '/' in items[i].name && BareName(items[i].name) == n
    decreases |items|
  {
    if |items| == 0 then []
    else
      var rest := PlanFromIndex(items[1..], f);
      assert forall i :: 1 <= i < |items| ==> items[i] == items[1..][i - 1];
      assert forall j :: 0 <= j < |items| - 1 ==> items[1..][j] == items[j + 1];
      if Installable(items[0], f) then
        assert '/' in items[0].name by {
          assert items[0].name[|FrameworkPrefix(f)| - 1] == '/';
        }
        [BareName(items[0].name)] + rest
      else rest
  }

  /** One step of the selection: the first entry's bare name, when it is
      installable, followed by the selection from the rest. */
  lemma PlanFromIndexStep(items: seq<IndexEntry>, f: ComponentsConfig.Framework)
    requires |items| > 0
    ensures Installable(items[0], f) ==>
      '/' in items[0].name && PlanFromIndex(items, f) == [BareName(items[0].name)] + PlanFromIndex(items[1..], f)
    ensures !Installable(items[0], f) ==> PlanFromIndex(items, f) == PlanFromIndex(items[1..], f)
  {
    if Installable(items[0], f) {
      assert items[0].name[|FrameworkPrefix(f)| - 1] == '/';
    }
  }

  /** One catalog entry contributes its bare name when it is installable and
      nothing otherwise. */
  lemma PlanFromIndexSingle(e: IndexEntry, f: ComponentsConfig.Framework)
    ensures Installable(e, f) ==> '/' in e.name && PlanFromIndex([e], f) == [BareName(e.name)]
    ensures !Installable(e, f) ==> PlanFromIndex([e], f) == []
  {
    PlanFromIndexStep([e], f);
    assert [e][1..] == [];
  }

  /** The selection keeps catalog order: it distributes over concatenation,
      so the names of earlier entries come first. */
  lemma {:induction false} PlanFromIndexAppend(a: seq<IndexEntry>, b: seq<IndexEntry>, f: ComponentsConfig.Framework)
    ensures PlanFromIndex(a + b, f) == PlanFromIndex(a, f) + PlanFromIndex(b, f)
    decreases |a|
  {
    if |a| == 0 {
      assert a + b == b;
    } else {
      assert (a + b)[0] == a[0];
      assert (a + b)[1..] == a[1..] + b;
      PlanFromIndexAppend(a[1..], b, f);
      PlanFromIndexStep(a + b, f);
      PlanFromIndexStep(a, f);
    }
  }

  datatype Plan = Install(names: seq<string>) | NothingToInstall | NoTarget | IndexFailed(error: string)

  /** With `--all` the catalog decides (an empty selection is not an error);
      otherwise the named component, or an error without a name. `index` is
      consulted only with `--all`. */
  function BuildPlan(all: bool, name: Option<string>, f: ComponentsConfig.Framework,
                     index: Result<seq<IndexEntry>, string>): (p: Plan)
    ensures !all ==> (p.NoTarget? <==> name.None?)
    ensures !all && name.Some? ==> p == Install([name.value])
    ensures all ==> (p.IndexFailed? <==> index.Failure?)
    ensures all && index.Success? ==>
      (p.NothingToInstall? <==> forall i :: 0 <= i < |index.value| ==> !Installable(index.value[i], f))
    ensures p.Install? ==> |p.names| > 0
  {
    if all then
      match index
      case Failure(e) => IndexFailed(e)
      case Success(items) =>
        var names := PlanFromIndex(items, f);
        if names == [] then NothingToInstall else Install(names)
    else if name.Some? then Install([name.value])
    else NoTarget
  }

  // ----- per component -----

  function ItemUrl(base: string, f: ComponentsConfig.Framework, name: string): string {
    base + "/" + FrameworkSegment(f) + "/" + name + ".json"
  }

  /** The scaffolding tool's command line; it fetches the same URL the fallback
      later reads. */
  function ScaffoldArgs(base: string, f: ComponentsConfig.Framework, name: string, overwrite: bool): (args: seq<string>)
    ensures |args| == if overwrite then 4 else 3
    ensures args[..3] == ["shadcn@latest", "add", ItemUrl(base, f, name)]
    ensures overwrite ==> args[3] == "--overwrite"
  {
    var core := ["shadcn@latest", "add", ItemUrl(base, f, name)];
    if overwrite then core + ["--overwrite"] else core
  }

  // ----- dependencies -----

  /** `a` is `b` with some elements removed. */
  predicate IsSubsequence(a: seq<string>, b: seq<string>)
    decreases |b|
  {
    |a| == 0 || (|b| > 0 && if a[0] == b[0] then IsSubsequence(a[1..], b[1..]) else IsSubsequence(a, b[1..]))
  }

  /** The declared dependencies without a key in the installed map, in
      declaration order. */
  function MissingDeps(declared: seq<string>, installed: map<string, string>): (r: seq<string>)
    ensures |r| <= |declared|
    ensures forall i :: 0 <= i < |r| ==> r[i] in declared && r[i] !in installed
    decreases |declared|
  {
    if |declared| == 0 then []
    else
      var rest := MissingDeps(declared[1..], installed);
      if declared[0] !in installed then [declared[0]] + rest else rest
  }

  /** Exactly the declared names without a key are missing. */
  lemma {:induction false} MissingDepsMembers(declared: seq<string>, installed: map<string, string>)
    ensures forall d :: d in MissingDeps(declared, installed) <==> d in declared && d !in installed
    decreases |declared|
  {
    if |declared| > 0 {
      MissingDepsMembers(declared[1..], installed);
      assert forall d :: d in declared <==> d == declared[0] || d in declared[1..];
    }
  }

  /** Nothing is missing exactly when every declared name has a key. */
  lemma MissingDepsEmpty(declared: seq<string>, installed: map<string, string>)
    ensures MissingDeps(declared, installed) == [] <==> forall d :: d in declared ==> d in installed
  {
    MissingDepsMembers(declared, installed);
    var r := MissingDeps(declared, installed);
    if r != [] {
      assert r[0] in r;
    }
  }

  /** The missing names keep their declaration order. */
  lemma {:induction false} MissingDepsOrder(declared: seq<string>, installed: map<string, string>)
    ensures IsSubsequence(MissingDeps(declared, installed), declared)
    decreases |declared|
  {
    if |declared| > 0 {
      var rest := MissingDeps(declared[1..], installed);
      MissingDepsOrder(declared[1..], installed);
      if declared[0] !in installed {
        assert ([declared[0]] + rest)[1..] == rest;
      } else if rest != [] {
        assert rest[0] !in installed;
      }
    }
  }

  /** Once the missing packages are installed, nothing is missing any more. */
  lemma MissingDepsSettle(declared: seq<string>, installed: map<string, string>, after: map<string, string>)
    requires installed.Keys <= after.Keys
    requires forall d :: d in MissingDeps(declared, installed) ==> d in after
    ensures MissingDeps(declared, after) == []
  {
    MissingDepsMembers(declared, installed);
    MissingDepsEmpty(declared, after);
  }

  // ----- the command -----

  datatype AddOptions = AddOptions(componentName: Option<string>, all: bool, overwrite: bool, cwd: string, dryRun: bool)

  /** The project: its files, and its parsed `components.json` and `package.json`. */
  datatype World = World(files: map<string, string>, config: Option<Json>, manifest: Option<PackageJson>)

  /** What the command asked of the outside world, in order. */
  datatype Effect =
    | FetchIndex(url: string)
    | RunScaffold(args: seq<string>)
    | FetchItem(url: string)
    | WriteFile(path: string)
    | RunInstall(manager: PackageManager, args: seq<string>)

  /** The outside world: the registry over HTTP, and the two child processes. */
  datatype Tools = Tools(
    fetchIndex: string -> Result<seq<IndexEntry>, string>,
    fetchItem: string -> Result<RegistryItem, string>,
    scaffold: (World, seq<string>) -> Result<World, string>,
    install: (World, PackageManager, seq<string>) -> Result<World, string>)

  datatype Outcome =
    | Completed(world: World, trace: seq<Effect>)
    | Failed(error: string, world: World, trace: seq<Effect>)

  /** Settings fixed for the whole run. */
  datatype Context = Context(cwd: string, base: string, framework: ComponentsConfig.Framework,
                             componentsAlias: string, utilsAlias: string, overwrite: bool, dryRun: bool)

  function Lockfiles(cwd: string, fs: map<string, string>): PackageManager {
    PickManager(Paths.Join([cwd, PnpmLock]) in fs, Paths.Join([cwd, YarnLock]) in fs, Paths.Join([cwd, BunLock]) in fs)
  }

  /** After a fallback write: install the item's dependencies that the
      project's package.json does not list. */
  function InstallDeps(ctx: Context, declared: seq<string>, w: World, trace: seq<Effect>, tools: Tools): (o: Outcome)
    ensures MissingDeps(declared, InstalledDeps(w.manifest)) == [] ==> o == Completed(w, trace)
    ensures var missing := MissingDeps(declared, InstalledDeps(w.manifest));
      var pm := Lockfiles(ctx.cwd, w.files);
      missing != [] ==> o.trace == trace + [RunInstall(pm, InstallArgs(pm, missing))]
    ensures |trace| <= |o.trace| && o.trace[..|trace|] == trace
  {
    if |declared| == 0 then Completed(w, trace)
    else
      var missing := MissingDeps(declared, InstalledDeps(w.manifest));
      if |missing| == 0 then Completed(w, trace)
      else
        var pm := Lockfiles(ctx.cwd, w.files);
        var args := InstallArgs(pm, missing);
        var trace' := trace + [RunInstall(pm, args)];
        match tools.install(w, pm, args)
        case Failure(e) => Failed("Failed to install dependencies: " + e, w, trace')
        case Success(w') => Completed(w', trace')
  }

  function WriteEffects(writes: seq<(string, string)>): (r: seq<Effect>)
    ensures |r| == |writes|
    ensures forall k :: 0 <= k < |r| ==> r[k] == WriteFile(writes[k].0)
  {
    seq(|writes|, k requires 0 <= k < |writes| => WriteFile(writes[k].0))
  }

  /** The fallback step for a fetched item: write what is missing and, only if
      something was written, reconcile dependencies. The files it leaves are
      those of `FallbackFiles`, and one write effect is recorded per write. */
  function Materialize(ctx: Context, item: RegistryItem, w: World, trace: seq<Effect>, tools: Tools): (o: Outcome)
    ensures |trace| <= |o.trace| && o.trace[..|trace|] == trace
    ensures var targets := TargetPaths(ctx.cwd, ctx.componentsAlias, ctx.utilsAlias, item.files);
      MissingIndexes(targets, w.files) == [] ==> o == Completed(w, trace)
    ensures var targets := TargetPaths(ctx.cwd, ctx.componentsAlias, ctx.utilsAlias, item.files);
      var missing := MissingIndexes(targets, w.files);
      missing != [] ==>
        o == InstallDeps(ctx, item.dependencies.GetOr([]),
                         w.(files := FallbackFiles(ctx.cwd, ctx.componentsAlias, ctx.utilsAlias, item, w.files)),
                         trace + WriteEffects(FallbackWrites(item.files, targets, missing)), tools)
  {
    var targets := TargetPaths(ctx.cwd, ctx.componentsAlias, ctx.utilsAlias, item.files);
    var missing := MissingIndexes(targets, w.files);
    if |missing| == 0 then Completed(w, trace)
    else
      var writes := FallbackWrites(item.files, targets, missing);
      var w' := w.(files := ApplyWrites(w.files, writes));
      var trace' := trace + WriteEffects(writes);
      var o := InstallDeps(ctx, item.dependencies.GetOr([]), w', trace', tools);
      assert trace'[..|trace|] == trace;
      o
  }

  /** For an item without dependencies the fallback completes with exactly
      the files `FallbackFiles` computes, after one write effect per missing
      target, and changes nothing else in the world. */
  lemma MaterializeWithoutDeps(ctx: Context, item: RegistryItem, w: World, trace: seq<Effect>, tools: Tools)
    requires item.dependencies.GetOr([]) == []
    ensures var o := Materialize(ctx, item, w, trace, tools);
      var targets := TargetPaths(ctx.cwd, ctx.componentsAlias, ctx.utilsAlias, item.files);
      && o.Completed?
      && o.world == w.(files := FallbackFiles(ctx.cwd, ctx.componentsAlias, ctx.utilsAlias, item, w.files))
      && |o.trace| == |trace| + |MissingIndexes(targets, w.files)|
      && forall k :: |trace| <= k < |o.trace| ==> o.trace[k].WriteFile?
  {
    var targets := TargetPaths(ctx.cwd, ctx.componentsAlias, ctx.utilsAlias, item.files);
    var missing := MissingIndexes(targets, w.files);
    if missing == [] {
      assert FallbackWrites(item.files, targets, missing) == [];
    }
  }

  /** One component: scaffold, fetch its item, fall back. A failing scaffold
      stops the command. */
  function InstallOne(ctx: Context, name: string, w: World, tools: Tools): (o: Outcome)
  {
    var args := ScaffoldArgs(ctx.base, ctx.framework, name, ctx.overwrite);
    if ctx.dryRun then Completed(w, [])
    else
      match tools.scaffold(w, args)
      case Failure(e) => Failed("Failed to install " + name + ": " + e, w, [RunScaffold(args)])
      case Success(w1) =>
        var url := ItemUrl(ctx.base, ctx.framework, name);
        var trace := [RunScaffold(args), FetchItem(url)];
        match tools.fetchItem(url)
        case Failure(e) => Failed(e, w1, trace)
        case Success(item) => Materialize(ctx, item, w1, trace, tools)
  }

  /** The components in order; the first failure stops the loop. */
  function InstallAll(ctx: Context, names: seq<string>, w: World, tools: Tools): (o: Outcome)
    decreases |names|
  {
    if |names| == 0 then Completed(w, [])
    else
      match InstallOne(ctx, names[0], w, tools)
      case Failed(e, w1, t1) => Failed(e, w1, t1)
      case Completed(w1, t1) =>
        match InstallAll(ctx, names[1..], w1, tools)
        case Completed(w2, t2) => Completed(w2, t1 + t2)
        case Failed(e, w2, t2) => Failed(e, w2, t1 + t2)
  }

  function Prepend(first: seq<Effect>, o: Outcome): Outcome {
    match o
    case Completed(w, t) => Completed(w, first + t)
    case Failed(e, w, t) => Failed(e, w, first + t)
  }

  const ConfigMissing: string := "⚠️  components.json not found. Please run 'init' first."
  const NoComponent: string := "⚠️  Please specify a component name or use --all"

  function IndexUrl(base: string): string {
    base + "/index.json"
  }

  function Run(env: Option<string>, opts: AddOptions, w: World, tools: Tools): Outcome {
    var base := RegistryBaseUrl(env);
    match w.config
    case None => Failed(ConfigMissing, w, [])
    case Some(doc) =>
      match ComponentsConfig.Decode(doc)
      case Failure(e) => Failed(e, w, [])
      case Success(config) => RunWith(config, base, opts, w, tools)
  }

  /** The run once `components.json` has been read. */
  function RunWith(config: ComponentsConfig.Config, base: string, opts: AddOptions, w: World, tools: Tools): Outcome {
    var f := DetectFramework(w.manifest);
    var ctx := Context(opts.cwd, base, f, config.aliases.components, config.aliases.utils,
                       opts.overwrite, opts.dryRun);
    var fetched := if opts.all then [FetchIndex(IndexUrl(base))] else [];
    match BuildPlan(opts.all, opts.componentName, f, tools.fetchIndex(IndexUrl(base)))
    case IndexFailed(e) => Failed(e, w, fetched)
    case NoTarget => Failed(NoComponent, w, [])
    case NothingToInstall => Completed(w, fetched)
    case Install(names) => Prepend(fetched, InstallAll(ctx, names, w, tools))
  }

  // ----- properties of a run -----

  /** Without components.json the command fails before contacting anything. */
  lemma ConfigRequired(env: Option<string>, opts: AddOptions, w: World, tools: Tools)
    requires w.config.None?
    ensures Run(env, opts, w, tools) == Failed(ConfigMissing, w, [])
  {
  }

  /** Without a name and without `--all` the command fails before any request. */
  lemma TargetRequired(env: Option<string>, opts: AddOptions, w: World, tools: Tools)
    requires w.config.Some? && ComponentsConfig.ValidConfig(w.config.value)
    requires !opts.all && opts.componentName.None?
    ensures Run(env, opts, w, tools) == Failed(NoComponent, w, [])
  {
  }

  /** An `--all` run whose catalog has nothing for the framework succeeds
      without changing anything. */
  lemma EmptyCatalogSucceeds(env: Option<string>, opts: AddOptions, w: World, tools: Tools)
    requires w.config.Some? && ComponentsConfig.ValidConfig(w.config.value)
    requires opts.all
    requires var r := tools.fetchIndex(IndexUrl(RegistryBaseUrl(env)));
      r.Success? && forall i :: 0 <= i < |r.value| ==> !Installable(r.value[i], DetectFramework(w.manifest))
    ensures Run(env, opts, w, tools) == Completed(w, [FetchIndex(IndexUrl(RegistryBaseUrl(env)))])
  {
  }

  lemma {:induction false} DryRunAll(ctx: Context, names: seq<string>, w: World, tools: Tools)
    requires ctx.dryRun
    ensures InstallAll(ctx, names, w, tools) == Completed(w, [])
    decreases |names|
  {
    if |names| > 0 {
      DryRunAll(ctx, names[1..], w, tools);
    }
  }

  /** A dry run changes nothing and asks nothing of the outside world beyond
      reading the catalog. */
  lemma DryRunChangesNothing(env: Option<string>, opts: AddOptions, w: World, tools: Tools)
    requires opts.dryRun
    ensures Run(env, opts, w, tools).world == w
    ensures forall e :: e in Run(env, opts, w, tools).trace ==> e.FetchIndex?
  {
    if w.config.Some? && ComponentsConfig.Decode(w.config.value).Success? {
      DryRunWith(ComponentsConfig.Decode(w.config.value).value, RegistryBaseUrl(env), opts, w, tools);
    }
  }

  lemma DryRunWith(config: ComponentsConfig.Config, base: string, opts: AddOptions, w: World, tools: Tools)
    requires opts.dryRun
    ensures RunWith(config, base, opts, w, tools).world == w
    ensures forall e :: e in RunWith(config, base, opts, w, tools).trace ==> e.FetchIndex?
  {
    var f := DetectFramework(w.manifest);
    var ctx := Context(opts.cwd, base, f, config.aliases.components, config.aliases.utils,
                       opts.overwrite, opts.dryRun);
    var plan := BuildPlan(opts.all, opts.componentName, f, tools.fetchIndex(IndexUrl(base)));
    var fetched := if opts.all then [FetchIndex(IndexUrl(base))] else [];
    if plan.Install? {
      DryRunAll(ctx, plan.names, w, tools);
      assert RunWith(config, base, opts, w, tools) == Prepend(fetched, Completed(w, []));
      assert fetched + [] == fetched;
    }
  }

  /** A failing scaffold command is fatal: the run stops at that component
      with an error naming it, after no other effect, and the later
      components are not attempted. */
  lemma ScaffoldFailureIsFatal(ctx: Context, name: string, rest: seq<string>, w: World, tools: Tools)
    requires !ctx.dryRun
    requires tools.scaffold(w, ScaffoldArgs(ctx.base, ctx.framework, name, ctx.overwrite)).Failure?
    ensures var o := InstallAll(ctx, [name] + rest, w, tools);
      var e := tools.scaffold(w, ScaffoldArgs(ctx.base, ctx.framework, name, ctx.overwrite)).error;
      o == Failed("Failed to install " + name + ": " + e, w, [RunScaffold(ScaffoldArgs(ctx.base, ctx.framework, name, ctx.overwrite))])
  {
    assert ([name] + rest)[0] == name;
  }

  /** When the scaffold already created every target, the fallback writes
      nothing and installs nothing. */
  lemma NoFallbackWhenPresent(ctx: Context, item: RegistryItem, w: World, trace: seq<Effect>, tools: Tools)
    requires forall t :: t in TargetPaths(ctx.cwd, ctx.componentsAlias, ctx.utilsAlias, item.files) ==> t in w.files
    ensures Materialize(ctx, item, w, trace, tools) == Completed(w, trace)
  {
    var targets := TargetPaths(ctx.cwd, ctx.componentsAlias, ctx.utilsAlias, item.files);
    forall i | 0 <= i < |targets|
      ensures targets[i] in w.files
    {
      assert targets[i] in targets;
    }
    NothingMissing(targets, w.files);
  }

  /** The package manager runs only after a fallback write, and only with
      dependencies that package.json lacks. */
  lemma InstallOnlyForMissing(ctx: Context, item: RegistryItem, w: World, trace: seq<Effect>, tools: Tools)
    ensures var o := Materialize(ctx, item, w, trace, tools);
      forall k :: |trace| <= k < |o.trace| && o.trace[k].RunInstall? ==>
        && MissingIndexes(TargetPaths(ctx.cwd, ctx.componentsAlias, ctx.utilsAlias, item.files), w.files) != []
        && |o.trace[k].args| > 0
        && o.trace[k].args[1..] == MissingDeps(item.dependencies.GetOr([]), InstalledDeps(w.manifest))
        && o.trace[k].args[1..] != []
  {
    var o := Materialize(ctx, item, w, trace, tools);
    var targets := TargetPaths(ctx.cwd, ctx.componentsAlias, ctx.utilsAlias, item.files);
    var missing := MissingIndexes(targets, w.files);
    if missing != [] {
      var writes := FallbackWrites(item.files, targets, missing);
      var w' := w.(files := ApplyWrites(w.files, writes));
      assert o == InstallDeps(ctx, item.dependencies.GetOr([]), w', trace + WriteEffects(writes), tools);
      InstallAfterWrites(ctx, item.dependencies.GetOr([]), w', trace, WriteEffects(writes), tools);
    }
  }

  /** After some file writes, every package-manager run names exactly the
      missing packages, and there is at least one. */
  lemma InstallAfterWrites(ctx: Context, declared: seq<string>, w: World, trace: seq<Effect>, writes: seq<Effect>, tools: Tools)
    requires forall k :: 0 <= k < |writes| ==> writes[k].WriteFile?
    ensures var o := InstallDeps(ctx, declared, w, trace + writes, tools);
      forall k :: |trace| <= k < |o.trace| && o.trace[k].RunInstall? ==>
        |o.trace[k].args| > 0 && o.trace[k].args[1..] == MissingDeps(declared, InstalledDeps(w.manifest)) && o.trace[k].args[1..] != []
  {
    var t := trace + writes;
    var o := InstallDeps(ctx, declared, w, t, tools);
    var missing := MissingDeps(declared, InstalledDeps(w.manifest));
    var pm := Lockfiles(ctx.cwd, w.files);
    InstallDepsShape(ctx, declared, w, t, tools);
    RunsAfterWrites(trace, writes, o.trace, pm, missing);
  }

  /** The dependency step appends at most one install, of the missing
      packages, and only when some are missing. */
  lemma InstallDepsShape(ctx: Context, declared: seq<string>, w: World, t: seq<Effect>, tools: Tools)
    ensures var o := InstallDeps(ctx, declared, w, t, tools);
      var missing := MissingDeps(declared, InstalledDeps(w.manifest));
      var pm := Lockfiles(ctx.cwd, w.files);
      o.trace == t || (o.trace == t + [RunInstall(pm, InstallArgs(pm, missing))] && missing != [])
  {
  }

  /** A trace made of `trace`, some file writes and possibly one install of
      `missing` holds no other install after `trace`. */
  lemma RunsAfterWrites(trace: seq<Effect>, writes: seq<Effect>, ot: seq<Effect>, pm: PackageManager, missing: seq<string>)
    requires forall k :: 0 <= k < |writes| ==> writes[k].WriteFile?
    requires ot == trace + writes || (ot == trace + writes + [RunInstall(pm, InstallArgs(pm, missing))] && missing != [])
    ensures forall k :: |trace| <= k < |ot| && ot[k].RunInstall? ==>
      |ot[k].args| > 0 && ot[k].args[1..] == missing && missing != []
  {
    forall k | |trace| <= k < |trace + writes|
      ensures ot[k].WriteFile?
    {
      assert ot[k] == (trace + writes)[k] == writes[k - |trace|];
    }
  }

  /** Every package-manager run of the dependency step names exactly the
      missing packages, and there is at least one. */
  lemma InstallDepsRuns(ctx: Context, declared: seq<string>, w: World, trace: seq<Effect>, tools: Tools)
    ensures var o := InstallDeps(ctx, declared, w, trace, tools);
      forall k :: |trace| <= k < |o.trace| && o.trace[k].RunInstall? ==>
        |o.trace[k].args| > 0 && o.trace[k].args[1..] == MissingDeps(declared, InstalledDeps(w.manifest)) && o.trace[k].args[1..] != []
  {
    var o := InstallDeps(ctx, declared, w, trace, tools);
    var missing := MissingDeps(declared, InstalledDeps(w.manifest));
    if missing != [] {
      var pm := Lockfiles(ctx.cwd, w.files);
      assert o.trace == trace + [RunInstall(pm, InstallArgs(pm, missing))];
    }
  }

  /** A second run of the fallback on the files the first one produced is a
      no-op, whatever the scaffold did not create the first time. */
  lemma RerunIsNoOp(ctx: Context, item: RegistryItem, w: World, trace: seq<Effect>, tools: Tools)
    ensures var w' := w.(files := FallbackFiles(ctx.cwd, ctx.componentsAlias, ctx.utilsAlias, item, w.files));
      Materialize(ctx, item, w', trace, tools) == Completed(w', trace)
  {
    var w' := w.(files := FallbackFiles(ctx.cwd, ctx.componentsAlias, ctx.utilsAlias, item, w.files));
    FallbackIdempotent(ctx.cwd, ctx.componentsAlias, ctx.utilsAlias, item, w.files);
  }
}
