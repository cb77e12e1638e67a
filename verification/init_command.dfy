/** The `init` command: it settles the framework and the project layout from
    flags, `--yes` defaults or prompt answers, writes `components.json`, and
    optionally installs the base dependencies. The prompts' answers are an
    input; they are consulted only when neither a flag nor `--yes` decides. */
module InitCommand {
  import opened Results
  import opened Strings
  import opened ComponentsConfig
  import opened ProjectManifest
  import AddCommand
  import Paths

  datatype InitOptions = InitOptions(
    cwd: string,
    framework: Option<Framework>,
    srcDir: Option<string>,
    componentsDir: Option<string>,
    utilsPath: Option<string>,
    cssPath: Option<string>,
    yes: bool,
    installDeps: Option<bool>)

  /** What the interactive prompts return when they are asked. */
  datatype Answers = Answers(
    framework: Framework, srcDir: string, componentsDir: string, utilsPath: string, cssPath: string,
    install: bool)

  /** A flag wins, then `--yes`, then the prompt. */
  function Setting<T>(flag: Option<T>, yes: bool, default: T, answer: T): (r: T)
    ensures flag.Some? ==> r == flag.value
    ensures flag.None? && yes ==> r == default
    ensures flag.None? && !yes ==> r == answer
  {
    match flag
    case Some(v) => v
    case None => if yes then default else answer
  }

  datatype Layout = Layout(srcDir: string, componentsDir: string, utilsPath: string, cssPath: string)

  /** The defaults offered for each path, relative to the source directory. */
  function DefaultLayout(srcDir: string): Layout {
    Layout(srcDir, srcDir + "/" + "components/ui", srcDir + "/" + "lib/utils" + ".ts", srcDir + "/" + "index.css")
  }

  /** Each path in turn; the later defaults use the settled source directory. */
  function ResolveLayout(opts: InitOptions, answers: Answers): (l: Layout)
    ensures opts.yes && opts.srcDir.None? && opts.componentsDir.None? && opts.utilsPath.None? && opts.cssPath.None? ==>
      l == DefaultLayout("src")
    ensures opts.srcDir.Some? ==> l.srcDir == opts.srcDir.value
    ensures opts.componentsDir.Some? ==> l.componentsDir == opts.componentsDir.value
    ensures opts.utilsPath.Some? ==> l.utilsPath == opts.utilsPath.value
    ensures opts.cssPath.Some? ==> l.cssPath == opts.cssPath.value
  {
    var src := Setting(opts.srcDir, opts.yes, "src", answers.srcDir);
    var defaults := DefaultLayout(src);
    Layout(
      src,
      Setting(opts.componentsDir, opts.yes, defaults.componentsDir, answers.componentsDir),
      Setting(opts.utilsPath, opts.yes, defaults.utilsPath, answers.utilsPath),
      Setting(opts.cssPath, opts.yes, defaults.cssPath, answers.cssPath))
  }

  /** The text with the first occurrence of `pattern` cut out, or unchanged
      when there is none. */
  function CutFirst(s: string, pattern: string): (r: string)
    ensures IndexOf(s, pattern).None? ==> r == s
    ensures IndexOf(s, pattern).Some? ==>
      var i := IndexOf(s, pattern).value;
      r == s[..i] + s[i + |pattern|..]
  {
    match IndexOf(s, pattern)
    case None => s
    case Some(i) => s[..i] + s[i + |pattern|..]
  }

  /** `replace(pattern, "")` cuts out the first occurrence. */
  lemma ReplaceFirstCuts(s: string, pattern: string)
    ensures ReplaceFirst(s, pattern, "") == CutFirst(s, pattern)
  {
  }

  /** `@/` followed by the components directory with the first `<src>/`
      cut out, wherever it occurs; a directory starting with `<src>/` loses
      that prefix. */
  function ComponentsAlias(srcDir: string, componentsDir: string): (r: string)
    ensures StartsWith(componentsDir, srcDir + "/") ==> r == "@/" + componentsDir[|srcDir| + 1..]
    ensures !Contains(componentsDir, srcDir + "/") ==> r == "@/" + componentsDir
  {
    var rel := ReplaceFirst(componentsDir, srcDir + "/", "");
    if StartsWith(componentsDir, srcDir + "/") then
      ReplacePrefix(componentsDir, srcDir + "/", "");
      assert rel == componentsDir[|srcDir| + 1..];
      "@/" + rel
    else "@/" + rel
  }

  /** The components alias, for any directory: the first `<src>/` is cut
      out wherever it occurs, and nothing else changes. */
  lemma ComponentsAliasCuts(srcDir: string, componentsDir: string)
    ensures ComponentsAlias(srcDir, componentsDir) == "@/" + CutFirst(componentsDir, srcDir + "/")
  {
    ReplaceFirstCuts(componentsDir, srcDir + "/");
  }

  /** `@/` followed by the utils path with the first `<src>/` and then the
      first `.ts` removed. */
  function UtilsAlias(srcDir: string, utilsPath: string): (r: string)
    ensures StartsWith(r, "@/")
  {
    "@/" + ReplaceFirst(ReplaceFirst(utilsPath, srcDir + "/", ""), ".ts", "")
  }

  /** The utils alias, for any path: the first `<src>/` is cut out wherever
      it occurs, then the first `.ts` of what is left, wherever it occurs. */
  lemma UtilsAliasCuts(srcDir: string, utilsPath: string)
    ensures UtilsAlias(srcDir, utilsPath) == "@/" + CutFirst(CutFirst(utilsPath, srcDir + "/"), ".ts")
  {
    ReplaceFirstCuts(utilsPath, srcDir + "/");
    ReplaceFirstCuts(CutFirst(utilsPath, srcDir + "/"), ".ts");
  }

  /** The source directory is cut out wherever it first occurs, not only at
      the start: `app/src/ui` under `src` gets `@/app/ui`. */
  lemma ComponentsAliasMidPath(srcDir: string, pre: string, rest: string)
    requires forall j: nat :: j < |pre| ==> !OccursAt(pre + (srcDir + "/") + rest, srcDir + "/", j)
    ensures ComponentsAlias(srcDir, pre + (srcDir + "/") + rest) == "@/" + (pre + rest)
  {
    var pat := srcDir + "/";
    var dir := pre + pat + rest;
    assert dir[|pre|..|pre| + |pat|] == pat;
    assert OccursAt(dir, pat, |pre|);
    IndexOfFromFirst(dir, pat, 0, |pre|);
    assert dir[..|pre|] == pre && dir[|pre| + |pat|..] == rest;
    ComponentsAliasCuts(srcDir, dir);
  }

  /** The first `.ts` goes even when it is not the extension: `<src>/<rel>.tsx`
      with a dot-free `rel` gets `@/<rel>x`. */
  lemma UtilsAliasFirstTs(srcDir: string, rel: string, more: string)
    requires '.' !in rel
    ensures UtilsAlias(srcDir, srcDir + "/" + rel + ".ts" + more) == "@/" + rel + more
  {
    var path := srcDir + "/" + rel + ".ts" + more;
    var mid := rel + ".ts" + more;
    assert path == (srcDir + "/") + mid;
    ReplacePrefix(path, srcDir + "/", "");
    ReplaceFirstCuts(path, srcDir + "/");
    assert path[|srcDir| + 1..] == mid;
    assert OccursAt(mid, ".ts", |rel|) by {
      assert mid[|rel|..|rel| + 3] == ".ts";
    }
    forall j: nat | j < |rel|
      ensures !OccursAt(mid, ".ts", j)
    {
      assert mid[j] == rel[j];
    }
    IndexOfFromFirst(mid, ".ts", 0, |rel|);
    assert mid[..|rel|] == rel && mid[|rel| + 3..] == more;
    assert CutFirst(path, srcDir + "/") == mid;
    assert CutFirst(mid, ".ts") == rel + more;
    UtilsAliasCuts(srcDir, path);
    assert "@/" + (rel + more) == "@/" + rel + more;
  }

  /** A utils file `<src>/<rel>.ts` whose `rel` holds no `.` gets the alias `@/<rel>`. */
  lemma UtilsAliasOfFile(srcDir: string, rel: string)
    requires '.' !in rel
    ensures UtilsAlias(srcDir, srcDir + "/" + rel + ".ts") == "@/" + rel
  {
    UtilsAliasFirstTs(srcDir, rel, "");
    assert srcDir + "/" + rel + ".ts" + "" == srcDir + "/" + rel + ".ts";
    assert "@/" + rel + "" == "@/" + rel;
  }

  /** A components directory `<src>/<rel>` gets the alias `@/<rel>`. */
  lemma ComponentsAliasOfDir(srcDir: string, rel: string)
    ensures ComponentsAlias(srcDir, srcDir + "/" + rel) == "@/" + rel
  {
    var dir := srcDir + "/" + rel;
    assert StartsWith(dir, srcDir + "/");
    assert dir[|srcDir| + 1..] == rel;
  }

  /** The file `components.json` that `init` writes. */
  function BuildConfig(f: Framework, l: Layout): (c: Config)
    ensures c.rsc <==> f == React
    ensures c.arkitect == Some(Arkitect(f))
    ensures c.tailwind.css == l.cssPath
    ensures c.aliases.ui == Some(c.aliases.components)
    ensures c.aliases.lib.None? && c.aliases.hooks.None?
  {
    var components := ComponentsAlias(l.srcDir, l.componentsDir);
    Config(
      "https://ui.shadcn.com/schema.json",
      Default,
      f == React,
      Some(true),
      Tailwind("tailwind.config.js", l.cssPath, "slate", true, Some("")),
      Aliases(UtilsAlias(l.srcDir, l.utilsPath), components, Some(components), None, None),
      None, None, None, None, None,
      Some(Arkitect(f)))
  }

  /** With the default layout the aliases are the ones the registry's files
      expect, `@/components/ui` and `@/lib/utils`, whatever the source
      directory is called. */
  lemma DefaultAliases(f: Framework, srcDir: string)
    ensures BuildConfig(f, DefaultLayout(srcDir)).aliases.components == "@/components/ui"
    ensures BuildConfig(f, DefaultLayout(srcDir)).aliases.utils == "@/lib/utils"
  {
    DefaultComponentsAlias(srcDir);
    DefaultUtilsAlias(srcDir);
  }

  lemma DefaultComponentsAlias(srcDir: string)
    ensures ComponentsAlias(srcDir, DefaultLayout(srcDir).componentsDir) == "@/components/ui"
  {
    var comp := "components/ui";
    assert DefaultLayout(srcDir).componentsDir == srcDir + "/" + comp;
    ComponentsAliasOfDir(srcDir, comp);
  }

  lemma DefaultUtilsAlias(srcDir: string)
    ensures UtilsAlias(srcDir, DefaultLayout(srcDir).utilsPath) == "@/lib/utils"
  {
    var lib := "lib/utils";
    assert DefaultLayout(srcDir).utilsPath == srcDir + "/" + lib + ".ts";
    assert '.' !in lib;
    UtilsAliasOfFile(srcDir, lib);
  }

  /** The configuration written is always one the schema accepts, and decodes
      back to exactly what was built. */
  lemma ConfigRoundTrips(f: Framework, l: Layout)
    ensures ValidConfig(Encode(BuildConfig(f, l)))
    ensures Decode(Encode(BuildConfig(f, l))) == Success(BuildConfig(f, l))
  {
    DecodeEncode(BuildConfig(f, l));
    EncodeValid(BuildConfig(f, l));
  }

  /** The base dependencies and the framework's Ark UI package. */
  function InitDeps(f: Framework): (deps: seq<string>)
    ensures |deps| == 4 && deps[..3] == ["clsx", "tailwind-merge", "class-variance-authority"]
    ensures deps[3] == if f == React then "@ark-ui/react" else "@ark-ui/solid"
  {
    ["clsx", "tailwind-merge", "class-variance-authority"] + [if f == React then "@ark-ui/react" else "@ark-ui/solid"]
  }

  /** The lockfile probes of `init`, built by string concatenation. The file
      system reads a run of `/` as one, so each probe looks up the collapsed
      path: `--cwd /proj/` probes `/proj/pnpm-lock.yaml`. */
  function InitManager(cwd: string, fs: map<string, string>): PackageManager {
    PickManager(
      Paths.CollapseSlashes(cwd + "/" + PnpmLock) in fs,
      Paths.CollapseSlashes(cwd + "/" + YarnLock) in fs,
      Paths.CollapseSlashes(cwd + "/" + BunLock) in fs)
  }

  const ConfigFile: string := "components.json"

  function Run(opts: InitOptions, answers: Answers, w: AddCommand.World, tools: AddCommand.Tools): AddCommand.Outcome {
    var f := Setting(opts.framework, opts.yes, DetectFramework(w.manifest), answers.framework);
    var cfg := BuildConfig(f, ResolveLayout(opts, answers));
    var w1 := w.(config := Some(Encode(cfg)));
    var trace := [AddCommand.WriteFile(opts.cwd + "/" + ConfigFile)];
    if !Setting(opts.installDeps, opts.yes, true, answers.install) then AddCommand.Completed(w1, trace)
    else
      var pm := InitManager(opts.cwd, w1.files);
      var args := InstallArgs(pm, InitDeps(f));
      var trace' := trace + [AddCommand.RunInstall(pm, args)];
      match tools.install(w1, pm, args)
      case Failure(e) => AddCommand.Failed("Failed to install dependencies: " + e, w1, trace')
      case Success(w2) => AddCommand.Completed(w2, trace')
  }

  /** `--yes` with no other flag: the detected framework and the default
      layout (see `ResolveLayout`), the configuration written before anything
      is run, and the dependencies installed. */
  lemma YesUsesDefaults(opts: InitOptions, answers: Answers, w: AddCommand.World, tools: AddCommand.Tools)
    requires opts.yes && opts.framework.None? && opts.installDeps.None?
    ensures var f := DetectFramework(w.manifest);
      var pm := InitManager(opts.cwd, w.files);
      var o := Run(opts, answers, w, tools);
      && o.trace == [AddCommand.WriteFile(opts.cwd + "/" + ConfigFile), AddCommand.RunInstall(pm, InstallArgs(pm, InitDeps(f)))]
      && (o.Failed? ==> o.world == w.(config := Some(Encode(BuildConfig(f, ResolveLayout(opts, answers))))))
      && (opts.srcDir.None? && opts.componentsDir.None? && opts.utilsPath.None? && opts.cssPath.None? ==>
            ResolveLayout(opts, answers) == DefaultLayout("src"))
  {
    var f := DetectFramework(w.manifest);
    assert Setting(opts.framework, opts.yes, f, answers.framework) == f;
    assert Setting(opts.installDeps, opts.yes, true, answers.install);
  }

  /** `--yes` with no flag at all writes the default configuration, built
      from `src`, `src/components/ui`, `src/lib/utils.ts` and `src/index.css`,
      with the aliases `@/components/ui` and `@/lib/utils`, before the
      installation runs; a failed installation leaves exactly that. */
  lemma YesAloneWritesDefaults(opts: InitOptions, answers: Answers, w: AddCommand.World, tools: AddCommand.Tools)
    requires opts.yes && opts.framework.None? && opts.installDeps.None?
    requires opts.srcDir.None? && opts.componentsDir.None? && opts.utilsPath.None? && opts.cssPath.None?
    ensures var f := DetectFramework(w.manifest);
      var cfg := BuildConfig(f, Layout("src", "src/components/ui", "src/lib/utils.ts", "src/index.css"));
      var o := Run(opts, answers, w, tools);
      && cfg.aliases.components == "@/components/ui" && cfg.aliases.utils == "@/lib/utils"
      && |o.trace| == 2 && o.trace[0] == AddCommand.WriteFile(opts.cwd + "/" + ConfigFile) && o.trace[1].RunInstall?
      && (o.Failed? ==> o.world == w.(config := Some(Encode(cfg))))
  {
    var f := DetectFramework(w.manifest);
    YesUsesDefaults(opts, answers, w, tools);
    DefaultLayoutOfSrc();
    DefaultAliases(f, "src");
  }

  /** The default layout under `src`, spelled out. */
  lemma DefaultLayoutOfSrc()
    ensures DefaultLayout("src") == Layout("src", "src/components/ui", "src/lib/utils.ts", "src/index.css")
  {
  }

  /** The non-interactive CI form, `--yes --install-deps=false`, writes a
      configuration the schema accepts and runs nothing. */
  lemma CiModeInstallsNothing(opts: InitOptions, answers: Answers, w: AddCommand.World, tools: AddCommand.Tools)
    requires opts.yes && opts.installDeps == Some(false)
    ensures var o := Run(opts, answers, w, tools);
      && o.Completed?
      && o.trace == [AddCommand.WriteFile(opts.cwd + "/" + ConfigFile)]
      && o.world.files == w.files && o.world.manifest == w.manifest
      && o.world.config.Some? && ValidConfig(o.world.config.value)
  {
    var f := Setting(opts.framework, opts.yes, DetectFramework(w.manifest), answers.framework);
    var cfg := BuildConfig(f, ResolveLayout(opts, answers));
    assert !Setting(opts.installDeps, opts.yes, true, answers.install);
    var o := Run(opts, answers, w, tools);
    assert o == AddCommand.Completed(w.(config := Some(Encode(cfg))), [AddCommand.WriteFile(opts.cwd + "/" + ConfigFile)]);
    ConfigRoundTrips(f, ResolveLayout(opts, answers));
  }

  /** A framework flag overrides detection; a Solid project initialised for
      React still gets `rsc` and the React packages. */
  lemma FlagOverridesDetection(opts: InitOptions, answers: Answers, w: AddCommand.World, tools: AddCommand.Tools)
    requires opts.framework == Some(React) && opts.installDeps == Some(false)
    ensures var o := Run(opts, answers, w, tools);
      && o.world.config.Some?
      && Decode(o.world.config.value).Success?
      && Decode(o.world.config.value).value.rsc
      && Decode(o.world.config.value).value.arkitect == Some(Arkitect(React))
  {
    ConfigRoundTrips(React, ResolveLayout(opts, answers));
  }

  /** Both commands probe the same lockfiles for any non-empty project
      directory, trailing or doubled `/` included, though one concatenates and
      the other joins. (An empty one differs: `init` probes `/pnpm-lock.yaml`,
      `add` probes `pnpm-lock.yaml`.) */
  lemma LockfileProbesAgree(cwd: string, fs: map<string, string>)
    requires cwd != ""
    ensures InitManager(cwd, fs) == AddCommand.Lockfiles(cwd, fs)
  {
    Paths.JoinTwo(cwd, PnpmLock);
    Paths.JoinTwo(cwd, YarnLock);
    Paths.JoinTwo(cwd, BunLock);
  }

  lemma LockfileNamesClean()
    ensures Paths.Segmentable(PnpmLock, false)
    ensures Paths.Segmentable(YarnLock, false)
    ensures Paths.Segmentable(BunLock, false)
  {
    assert '/' !in PnpmLock && '/' !in YarnLock && '/' !in BunLock;
  }

  /** `--cwd /proj/` with only a pnpm lockfile picks pnpm, as `add` does. */
  lemma TrailingSlashCwdFindsPnpm(fs: map<string, string>)
    requires "/proj/pnpm-lock.yaml" in fs
    ensures InitManager("/proj/", fs) == Pnpm
  {
    assert Paths.Segmentable("/proj", true);
    TrailingSlashIgnored("/proj", fs);
    assert "/proj" + "/" == "/proj/";
    assert "/proj" + "/" + PnpmLock == "/proj/pnpm-lock.yaml";
  }

  /** A trailing `/` on the project directory does not change the package
      manager: `--cwd /proj/` probes `/proj/pnpm-lock.yaml` and the rest. */
  lemma TrailingSlashIgnored(dir: string, fs: map<string, string>)
    requires Paths.Segmentable(dir, true)
    ensures InitManager(dir + "/", fs) == InitManager(dir, fs)
    ensures PickManager(dir + "/" + PnpmLock in fs, dir + "/" + YarnLock in fs, dir + "/" + BunLock in fs) == InitManager(dir + "/", fs)
  {
    LockfileNamesClean();
    forall lock | lock in {PnpmLock, YarnLock, BunLock}
      ensures Paths.CollapseSlashes(dir + "/" + "/" + lock) == dir + "/" + lock
      ensures Paths.CollapseSlashes(dir + "/" + lock) == dir + "/" + lock
    {
      assert dir + "/" + "/" + lock == dir + (['/'] + (['/'] + lock));
      assert dir + "/" + lock == dir + (['/'] + lock);
      Paths.CollapseDoubled(dir, lock);
      Paths.SlashConcat(dir, lock);
      Paths.CollapseClean(dir + "/" + lock);
    }
  }
}
