/** The tools together: the registry build script rewrites source paths into
    the `ui/` and `lib/` forms, `init` writes `components.json`, and `add`
    reads it back and places a registry item's files. */
module EndToEnd {
  import opened Results
  import opened Strings
  import Paths
  import ComponentsConfig
  import InitCommand
  import AddTargets
  import RegistryFixPaths

  /** The configuration `add` reads after `init` wrote the default layout. */
  function DefaultConfig(f: ComponentsConfig.Framework, srcDir: string): (c: ComponentsConfig.Config)
    ensures c.aliases.components == "@/components/ui" && c.aliases.utils == "@/lib/utils"
    ensures c.aliases.components == "@/" + "components/ui" && c.aliases.utils == "@/" + "lib/utils"
  {
    assert "@/components/ui" == "@/" + "components/ui" && "@/lib/utils" == "@/" + "lib/utils";
    var built := InitCommand.BuildConfig(f, InitCommand.DefaultLayout(srcDir));
    InitCommand.ConfigRoundTrips(f, InitCommand.DefaultLayout(srcDir));
    InitCommand.DefaultAliases(f, srcDir);
    ComponentsConfig.Decode(ComponentsConfig.Encode(built)).value
  }

  /** The text after the last `.` of `s.e` is `e`. */
  lemma ExtensionOf(s: string, e: string)
    requires '.' !in e
    ensures AddTargets.Extension(s + "." + e) == e
  {
    var path := s + "." + e;
    var ext := AddTargets.Extension(path);
    assert EndsWith(path, "." + ext);
    assert path[|path| - |ext| - 1] == '.';
    assert path[|path| - |e| - 1] == '.';
    assert forall i :: |path| - |e| <= i < |path| ==> path[i] == e[i - (|path| - |e|)];
    assert forall i :: |path| - |ext| <= i < |path| ==> path[i] == ext[i - (|path| - |ext|)];
    assert |ext| == |e|;
    assert path[|path| - |e|..] == e;
  }

  lemma SrcSegments(cwd: string, rel: string)
    requires Paths.Segmentable(cwd, true) && Paths.Segmentable(rel, false)
    ensures AddTargets.ResolveAliasPath(cwd, "@/" + rel) == cwd + "/src/" + rel
    ensures Paths.Segmentable(cwd + "/src/" + rel, true)
  {
    var alias := "@/" + rel;
    assert StartsWith(alias, "@/") && alias[2..] == rel;
    assert Paths.Segmentable("src", false) by {
      assert forall i :: 0 <= i < 2 ==> "src"[i] != '/';
    }
    Paths.Join3(cwd, "src", rel);
    Paths.SlashConcat(cwd, "src");
    Paths.SlashConcat(cwd + "/src", rel);
    assert cwd + "/" + "src" + "/" + rel == cwd + "/src/" + rel;
  }

  lemma ComponentsDirClean()
    ensures Paths.Segmentable("components/ui", false)
  {
    var s := "components/ui";
    forall i | 0 <= i < |s| - 1
      ensures !(s[i] == '/' && s[i + 1] == '/')
    {
      assert s[i] == '/' ==> i == 10;
    }
  }

  lemma LibDirClean()
    ensures Paths.Segmentable("lib/utils", false)
  {
    var s := "lib/utils";
    forall i | 0 <= i < |s| - 1
      ensures !(s[i] == '/' && s[i + 1] == '/')
    {
      assert s[i] == '/' ==> i == 3;
    }
  }

  /** After a default `init`, a component file `ui/<name>` lands in
      `<cwd>/src/components/ui/<name>`, whatever source directory was
      chosen. */
  lemma DefaultComponentTarget(cwd: string, f: ComponentsConfig.Framework, srcDir: string, name: string)
    requires Paths.Segmentable(cwd, true) && Paths.Segmentable(name, false)
    ensures var c := DefaultConfig(f, srcDir);
      AddTargets.TargetPath(cwd, c.aliases.components, c.aliases.utils, "ui/" + name) == cwd + "/src/" + "components/ui" + "/" + name
  {
    var c := DefaultConfig(f, srcDir);
    ComponentsDirClean();
    AliasDirTarget(cwd, c.aliases.components, c.aliases.utils, "components/ui", name);
  }

  /** A `ui/` file under a components alias `@/<rel>` lands in `<cwd>/src/<rel>`. */
  lemma AliasDirTarget(cwd: string, components: string, utils: string, rel: string, name: string)
    requires Paths.Segmentable(cwd, true) && Paths.Segmentable(rel, false) && Paths.Segmentable(name, false)
    requires components == "@/" + rel
    ensures AddTargets.TargetPath(cwd, components, utils, "ui/" + name) == cwd + "/src/" + rel + "/" + name
  {
    var path := "ui/" + name;
    assert StartsWith(path, "ui/") && path[3..] == name;
    SrcSegments(cwd, rel);
    Paths.Join2(cwd + "/src/" + rel, name);
  }

  /** After a default `init`, a utils file `lib/<x>.<e>` lands in
      `<cwd>/src/lib/utils.<e>`. */
  lemma DefaultLibTarget(cwd: string, f: ComponentsConfig.Framework, srcDir: string, x: string, e: string)
    requires Paths.Segmentable(cwd, true) && '.' !in e
    ensures var c := DefaultConfig(f, srcDir);
      AddTargets.TargetPath(cwd, c.aliases.components, c.aliases.utils, "lib/" + x + "." + e) == cwd + "/src/" + "lib/utils" + "." + e
  {
    var c := DefaultConfig(f, srcDir);
    LibDirClean();
    LibTarget(cwd, c.aliases.components, c.aliases.utils, "lib/utils", x, e);
  }

  /** A `lib/` file under a file-style utils alias `@/<rel>` lands in
      `<cwd>/src/<rel>` with the file's extension. */
  lemma LibTarget(cwd: string, components: string, utils: string, rel: string, x: string, e: string)
    requires Paths.Segmentable(cwd, true) && Paths.Segmentable(rel, false) && '.' !in e
    requires utils == "@/" + rel
    ensures AddTargets.TargetPath(cwd, components, utils, "lib/" + x + "." + e) == cwd + "/src/" + rel + "." + e
  {
    var path := "lib/" + x + "." + e;
    assert StartsWith(path, "lib/") && path[0] == 'l';
    assert path == ("lib/" + x) + "." + e;
    ExtensionOf("lib/" + x, e);
    SrcSegments(cwd, rel);
    assert AddTargets.IsFileAlias(utils) by {
      assert utils[|utils| - 1] == rel[|rel| - 1];
    }
  }

  /** A registry item holding one component file and one utils file. */
  function ComponentItem(name: string, x: string, e: string, component: string, utils: string): AddTargets.RegistryItem {
    AddTargets.RegistryItem(
      [AddTargets.RegistryFile("ui/" + name, component, None), AddTargets.RegistryFile("lib/" + x + "." + e, utils, None)],
      None)
  }

  /** After a default `init`, when the scaffolding tool left nothing, `add`
      creates exactly `<cwd>/src/components/ui/<name>` and
      `<cwd>/src/lib/utils.<e>`, each with its registry content; for the
      button item these are `src/components/ui/button.tsx` and
      `src/lib/utils.ts`. */
  lemma DefaultInstallWrites(cwd: string, f: ComponentsConfig.Framework, srcDir: string, fs: map<string, string>,
                             name: string, x: string, e: string, component: string, utils: string)
    requires Paths.Segmentable(cwd, true) && Paths.Segmentable(name, false) && '.' !in e
    requires cwd + "/src/" + "components/ui" + "/" + name !in fs && cwd + "/src/" + "lib/utils" + "." + e !in fs
    ensures var c := DefaultConfig(f, srcDir);
      var after := AddTargets.FallbackFiles(cwd, c.aliases.components, c.aliases.utils, ComponentItem(name, x, e, component, utils), fs);
      && (forall p :: p in after && p !in fs <==> p == cwd + "/src/" + "components/ui" + "/" + name || p == cwd + "/src/" + "lib/utils" + "." + e)
      && cwd + "/src/" + "components/ui" + "/" + name in after
      && after[cwd + "/src/" + "components/ui" + "/" + name] == component
      && cwd + "/src/" + "lib/utils" + "." + e in after
      && after[cwd + "/src/" + "lib/utils" + "." + e] == utils
  {
    var c := DefaultConfig(f, srcDir);
    var item := ComponentItem(name, x, e, component, utils);
    var t0 := cwd + "/src/" + "components/ui" + "/" + name;
    var t1 := cwd + "/src/" + "lib/utils" + "." + e;
    DefaultComponentTarget(cwd, f, srcDir, name);
    DefaultLibTarget(cwd, f, srcDir, x, e);
    DistinctTargets(cwd, name, e);
    assert item.files[0].path == "ui/" + name && item.files[1].path == "lib/" + x + "." + e;
    TwoNewFiles(cwd, c.aliases.components, c.aliases.utils, item, fs, t0, t1);
  }

  lemma DistinctTargets(cwd: string, name: string, e: string)
    ensures cwd + "/src/" + "components/ui" + "/" + name != cwd + "/src/" + "lib/utils" + "." + e
  {
    var t0 := cwd + "/src/" + "components/ui" + "/" + name;
    var t1 := cwd + "/src/" + "lib/utils" + "." + e;
    assert t0[|cwd| + 5] == 'c' && t1[|cwd| + 5] == 'l';
  }

  /** Two registry files aimed at two distinct new paths create exactly
      those two files, each with its content. */
  lemma TwoNewFiles(cwd: string, components: string, utils: string, item: AddTargets.RegistryItem,
                    fs: map<string, string>, t0: string, t1: string)
    requires |item.files| == 2 && t0 != t1 && t0 !in fs && t1 !in fs
    requires AddTargets.TargetPath(cwd, components, utils, item.files[0].path) == t0
    requires AddTargets.TargetPath(cwd, components, utils, item.files[1].path) == t1
    ensures var after := AddTargets.FallbackFiles(cwd, components, utils, item, fs);
      && (forall p :: p in after && p !in fs <==> p == t0 || p == t1)
      && t0 in after && after[t0] == item.files[0].content
      && t1 in after && after[t1] == item.files[1].content
  {
    NewFileContent(cwd, components, utils, item, fs, 0, t0, t1);
    NewFileContent(cwd, components, utils, item, fs, 1, t1, t0);
    OnlyTwoNew(cwd, components, utils, item, fs, t0, t1);
  }

  lemma NewFileContent(cwd: string, components: string, utils: string, item: AddTargets.RegistryItem,
                       fs: map<string, string>, i: nat, t: string, other: string)
    requires |item.files| == 2 && i < 2 && t != other && t !in fs
    requires AddTargets.TargetPath(cwd, components, utils, item.files[i].path) == t
    requires AddTargets.TargetPath(cwd, components, utils, item.files[1 - i].path) == other
    ensures var after := AddTargets.FallbackFiles(cwd, components, utils, item, fs);
      t in after && after[t] == item.files[i].content
  {
    forall j | i < j < |item.files|
      ensures AddTargets.TargetPath(cwd, components, utils, item.files[j].path) != t
    {
      assert j == 1 - i;
    }
    AddTargets.FallbackWritesContent(cwd, components, utils, item, fs, i);
  }

  lemma OnlyTwoNew(cwd: string, components: string, utils: string, item: AddTargets.RegistryItem,
                   fs: map<string, string>, t0: string, t1: string)
    requires |item.files| == 2
    requires AddTargets.TargetPath(cwd, components, utils, item.files[0].path) == t0
    requires AddTargets.TargetPath(cwd, components, utils, item.files[1].path) == t1
    ensures var after := AddTargets.FallbackFiles(cwd, components, utils, item, fs);
      forall p :: p in after && p !in fs ==> p == t0 || p == t1
  {
    var targets := AddTargets.TargetPaths(cwd, components, utils, item.files);
    assert targets == [t0, t1];
    AddTargets.FallbackOnlyTargets(cwd, components, utils, item, fs);
  }

  /** A Solid component path from the repository, once rewritten by the
      build script, is placed by `add` among the configured components. */
  lemma FixedSolidComponentTarget(cwd: string, f: ComponentsConfig.Framework, srcDir: string, name: string)
    requires Paths.Segmentable(cwd, true) && Paths.Segmentable(name, false)
    requires !Contains(RegistryFixPaths.SolidUi + name, RegistryFixPaths.ReactUi)
    requires !Contains(name, RegistryFixPaths.SharedLib)
    ensures var c := DefaultConfig(f, srcDir);
      AddTargets.TargetPath(cwd, c.aliases.components, c.aliases.utils, RegistryFixPaths.FixPath(RegistryFixPaths.SolidUi + name))
        == cwd + "/src/" + "components/ui" + "/" + name
  {
    RegistryFixPaths.SolidComponentExact(name);
    DefaultComponentTarget(cwd, f, srcDir, name);
  }
}
