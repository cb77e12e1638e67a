# Arkitect UI: the installer, its configuration, the registry path fix and the theme switcher

This project models the core of Arkitect UI, a component registry for React
and Solid built on Ark UI. It proves properties of that model.

- **`init` command.** It settles the framework and the project layout from
  flags, `--yes` defaults or prompt answers. It then writes `components.json`
  and may install the base dependencies with the package manager whose
  lockfile is present.
- **`add` command.** It reads `components.json` and detects the framework
  from `package.json`. It chooses one component or the framework's whole
  catalog, then runs the scaffolding tool for each one. When that tool left a
  target file missing, it writes the registry item's files itself and
  installs the dependencies the project lacks.
- **`components.json` schema.** This covers decoding, encoding and the
  documents the schema accepts.
- **Registry build script.** It rewrites the repository paths of every file
  entry into the `ui/` and `lib/` form the installer expects.
- **Documentation-site theme helpers.** They classify variable keys, detect
  colour functions and colour variables, and extract and normalise font
  names. They also map onto Starlight's colours, list the CSS properties a
  theme sets, derive a theme name from a URL, and parse pasted CSS into a
  theme item.
- **The `useTweakcnSwitcher` hook.** It tracks the theme list, the current
  theme, the colour mode, the cached registry item and the error, and
  applies, adds, removes and restores themes.

## How the model is built

- **Outside world as parameters.** The file system is a map from path to
  contents. The registry, the scaffolding tool and the package manager are
  function-valued fields of a `Tools` value. A run returns an `Outcome` that
  carries the final world and the trace of effects it asked for.
- **Parsed documents.** JSON documents arrive already parsed as a `Json`
  value.
- **Regular expressions.** Each one becomes a scanner over the string that
  tries every start position in turn, as a JavaScript match does.
- **`path.join`.** It is modelled as: drop the empty parts, join with `/`,
  collapse runs of `/`.
- **Modules.** The modules follow the source files:
  - `AddCommand` and `AddTargets`: `add.ts`
  - `InitCommand`: `init.ts`
  - `ComponentsConfig`: `components-config.ts`
  - `RegistryFixPaths`: `registry-fix-paths.js`
  - `ThemeUtils` and `CssParser`: `utils.ts`
  - `ThemeSwitcher`: `use-tweakcn-switcher.ts`
  - `EndToEnd`: connects the build script, `init` and `add`.
  - Helpers: `Strings`, `Lists`, `Paths`, `ProjectManifest`, `JsonValues` and `Results`.

Behaviours of the code that are easy to misread:

- A failing scaffold command stops `add` with an error. It is not a warning.
- The lockfile is looked for only in the project directory. There is no
  walk up the parent directories.
- `add` always maps `@/` to `<cwd>/src`, whatever source directory `init` was given.
- A utils alias that names a file sends every `lib/` file with the same
  extension to one path. A `lib/` path without a `.` uses the whole path as
  its "extension".
- A catalog name with more than one `/` keeps only its second segment.
- Comments are stripped in one pass, so `//**/*x*/` becomes `/*x*/`.
- Case-insensitive matching folds ASCII letters only.
- `addTheme` returns the option it built even when the list already held a
  theme with that URL and was left unchanged.
- `init` cuts the first `<src>/` out of a path wherever it occurs, not only
  at the start: `app/src/ui` under `src` gets `@/app/ui`. It also cuts the
  first `.ts` wherever it occurs, so `src/lib/utils.tsx` gets `@/lib/utilsx`.
- `applyTheme` caches the fetched item before applying it. When applying it
  throws, the item stays cached and the error is set, but the list and the
  current theme are left as they were.
- `addTheme` records the error's message, or `Failed to add theme` for a
  rejection that is not an `Error`, and then rethrows the original rejection.

## Model

| member | source | states |
|---|---|---|
| AddCommand.RegistryBaseUrl | apps/cli/src/commands/add.ts:16-77 | without `REGISTRY_URL` the public catalog URL is used; a value ending in `/` loses exactly that one `/`, any other value is used as is |
| AddCommand.OneSlashRemoved | apps/cli/src/commands/add.ts:75-77 | one example: a base URL ending in `//` keeps one trailing `/` |
| AddCommand.FrameworkSegment | apps/cli/src/commands/add.ts:153 | the item URL segment of a framework is its catalog prefix without the `/` (`s` for Solid, `r` for React) |
| AddCommand.BareNameOfCatalogName | apps/cli/src/commands/add.ts:133 | the name taken from `r/<n>` or `s/<n>` (optionally followed by further `/` segments) is `n` |
| AddCommand.BareName | apps/cli/src/commands/add.ts:133 | no contract of its own; `BareNameOfCatalogName` states that the second `/`-separated segment is taken |
| AddCommand.PlanFromIndex | apps/cli/src/commands/add.ts:125-133 | the names selected are exactly the bare names of the `registry:ui` entries carrying the framework's prefix, one per such entry; empty iff there is none |
| AddCommand.PlanFromIndexSingle | apps/cli/src/commands/add.ts:125-133 | one catalog entry contributes its bare name when it is an installable `registry:ui` entry for the framework, and nothing otherwise |
| AddCommand.PlanFromIndexAppend | apps/cli/src/commands/add.ts:125-133 | the selection keeps catalog order: the selection of two catalogs in sequence is the first's followed by the second's |
| AddCommand.BuildPlan | apps/cli/src/commands/add.ts:115-144 | with `--all` the catalog decides and a failed catalog fetch fails; otherwise a given name is the whole plan and no name is an error; a plan to install is never empty |
| AddCommand.ScaffoldArgs | apps/cli/src/commands/add.ts:156-162 | the scaffolding command is `shadcn@latest add <item url>`, with `--overwrite` appended exactly when requested |
| AddCommand.MissingDeps | apps/cli/src/commands/add.ts:266 | every dependency to install is a declared one with no key in the installed map, and there are no more of them than declared |
| AddCommand.MissingDepsMembers | apps/cli/src/commands/add.ts:266 | a package is to be installed iff it is declared and has no key in the installed map |
| AddCommand.MissingDepsEmpty | apps/cli/src/commands/add.ts:266-267 | nothing is to be installed iff every declared package is already installed |
| AddCommand.MissingDepsOrder | apps/cli/src/commands/add.ts:266 | the packages to install keep their declared order |
| AddCommand.MissingDepsSettle | apps/cli/src/commands/add.ts:262-267 | once the missing packages are present nothing is missing any more |
| AddCommand.InstallDeps | apps/cli/src/commands/add.ts:253-297 | nothing runs when no declared dependency is missing; otherwise one package-manager run with exactly the missing packages is appended to the trace |
| AddCommand.WriteEffects | apps/cli/src/commands/add.ts:240-250 | one file-write effect per fallback write, in write order |
| AddCommand.Materialize | apps/cli/src/commands/add.ts:227-300 | the fallback step only extends the trace; with nothing missing it does nothing; otherwise it leaves the files `FallbackFiles` computes, records one write per missing target, then runs the dependency step |
| AddCommand.MaterializeWithoutDeps | apps/cli/src/commands/add.ts:227-254 | for an item without dependencies the fallback completes with exactly the files `FallbackFiles` computes, after one write effect per missing target and nothing else |
| AddCommand.Lockfiles | apps/cli/src/commands/add.ts:271-284 | no contract of its own; `PickManager` states the precedence and `LockfileProbesAgree` relates it to `init` |
| AddCommand.InstallOne | apps/cli/src/commands/add.ts:156-300 | no contract of its own; `ScaffoldFailureIsFatal`, `DryRunAll` and the `Materialize` contract state its steps |
| AddCommand.InstallAll | apps/cli/src/commands/add.ts:156 | no contract of its own; `DryRunAll` and `ScaffoldFailureIsFatal` state the loop's behaviour |
| AddCommand.Run | apps/cli/src/commands/add.ts:65-306 | no contract of its own; `ConfigRequired`, `TargetRequired`, `EmptyCatalogSucceeds` and `DryRunChangesNothing` state its behaviour |
| AddCommand.ConfigRequired | apps/cli/src/commands/add.ts:79-86 | without `components.json` the command fails before any effect |
| AddCommand.TargetRequired | apps/cli/src/commands/add.ts:138-144 | with no component name and no `--all` the command fails before any request |
| AddCommand.EmptyCatalogSucceeds | apps/cli/src/commands/add.ts:135-137 | an `--all` run whose catalog has nothing for the framework succeeds after fetching only the index |
| AddCommand.DryRunAll | apps/cli/src/commands/add.ts:170-171 | a dry run over any list of components performs no effect and leaves the world unchanged |
| AddCommand.DryRunChangesNothing | apps/cli/src/commands/add.ts:115-171 | a dry run leaves the world unchanged and asks for nothing but the catalog index |
| AddCommand.ScaffoldFailureIsFatal | apps/cli/src/commands/add.ts:170-175 | a failing scaffold command stops the run at that component with `Failed to install <name>: <error>`, after only the scaffold effect |
| AddCommand.NoFallbackWhenPresent | apps/cli/src/commands/add.ts:227-236 | when every target exists the fallback writes nothing and installs nothing |
| AddCommand.InstallDepsRuns | apps/cli/src/commands/add.ts:253-297 | every package-manager run of the dependency step names exactly the missing packages after the install verb, and there is at least one |
| AddCommand.InstallAfterWrites | apps/cli/src/commands/add.ts:240-297 | after the fallback writes, every package-manager run names exactly the missing packages, and there is at least one |
| AddCommand.InstallOnlyForMissing | apps/cli/src/commands/add.ts:236-286 | the package manager runs only after a fallback write, with exactly the dependencies `package.json` lacks, never with an empty list |
| AddCommand.RerunIsNoOp | apps/cli/src/commands/add.ts:227-251 | a second fallback over the files the first one produced changes nothing |
| AddTargets.ResolveAliasPath | apps/cli/src/commands/add.ts:196-200 | an `@/` alias resolves under `<cwd>/src`, any other alias relative to `<cwd>` |
| AddTargets.Extension | apps/cli/src/commands/add.ts:215 | the extension holds no `.`; it is the text after the last `.`, or the whole path when there is none |
| AddTargets.TargetPath | apps/cli/src/commands/add.ts:205-225 | `ui/` files go under the components alias; `lib/` files go to `<utils>.<ext>` for a file alias and under the utils alias for a directory alias; anything else goes under `<cwd>/src` |
| AddTargets.LibFilesCollide | apps/cli/src/commands/add.ts:212-216 | with a file-style utils alias, two `lib/` files with the same extension get the same target |
| AddTargets.ExtensionlessLibPath | apps/cli/src/commands/add.ts:215-216 | a `lib/` path without a `.` lands at `<utils>.<whole path>` |
| AddTargets.TargetPaths | apps/cli/src/commands/add.ts:205 | one target per registry file, in order |
| AddTargets.MissingIndexes | apps/cli/src/commands/add.ts:227-234 | exactly the positions whose target is absent, in increasing order |
| AddTargets.NothingMissing | apps/cli/src/commands/add.ts:229-236 | no position is missing iff every target exists |
| AddTargets.ApplyWrites | apps/cli/src/commands/add.ts:240-250 | after the writes, the paths present are the old ones plus the written ones |
| AddTargets.ApplyWritesKeeps | apps/cli/src/commands/add.ts:240-250 | a file no write targets keeps its contents |
| AddTargets.ApplyWritesLast | apps/cli/src/commands/add.ts:240-250 | the last write to a path decides its contents |
| AddTargets.FallbackWrites | apps/cli/src/commands/add.ts:240-248 | each missing position writes its target with its registry file's content, in order |
| AddTargets.FallbackFiles | apps/cli/src/commands/add.ts:236-250 | no contract of its own; the `Fallback*` lemmas below state what it leaves |
| AddTargets.FallbackKeepsExisting | apps/cli/src/commands/add.ts:236-248 | a file already present is never overwritten by the fallback |
| AddTargets.FallbackCoversTargets | apps/cli/src/commands/add.ts:236-248 | after the fallback every target exists |
| AddTargets.FallbackOnlyTargets | apps/cli/src/commands/add.ts:236-248 | the fallback creates no file other than a target |
| AddTargets.FallbackWritesContent | apps/cli/src/commands/add.ts:240-248 | a new file holds the content of the last registry file aimed at it |
| AddTargets.FallbackIdempotent | apps/cli/src/commands/add.ts:227-236 | on the fallback's own result no target is missing |
| ProjectManifest.InstalledDeps | apps/cli/src/commands/add.ts:258-266 | the installed map holds the keys of both dependency maps, with `devDependencies` winning; empty without `package.json` |
| ProjectManifest.DetectFramework | apps/cli/src/commands/add.ts:94-110 | no contract of its own; `DetectFrameworkSpec` states it on the raw manifest |
| ProjectManifest.DetectFrameworkSpec | apps/cli/src/commands/add.ts:94-110 | Solid iff `solid-js` has a truthy entry in the merged dependencies; React otherwise, including without `package.json` |
| ProjectManifest.PickManager | apps/cli/src/commands/add.ts:272-284 | pnpm iff its lockfile exists; yarn iff not pnpm and its lockfile exists; bun next; npm when none exists |
| ProjectManifest.InstallArgs | apps/cli/src/commands/add.ts:285-286 | `install` for npm and `add` for the others, followed by exactly the packages |
| InitCommand.Setting | apps/cli/src/commands/init.ts:104-138 | a flag wins, then the `--yes` default, then the prompt's answer |
| InitCommand.ResolveLayout | apps/cli/src/commands/init.ts:127-162 | each given path flag is used as is; `--yes` with no path flag gives `src`, `src/components/ui`, `src/lib/utils.ts`, `src/index.css` |
| InitCommand.CutFirst | apps/cli/src/commands/init.ts:178-179 | the text with its first occurrence of the pattern cut out, or unchanged when the pattern does not occur |
| InitCommand.ReplaceFirstCuts | apps/cli/src/commands/init.ts:178-179 | `replace(pattern, "")` cuts out the first occurrence |
| InitCommand.ComponentsAlias | apps/cli/src/commands/init.ts:178 | a components directory under the source directory gets `@/` plus the rest; one not mentioning it gets `@/` plus the whole path |
| InitCommand.ComponentsAliasCuts | apps/cli/src/commands/init.ts:178 | for any directory, the alias is `@/` plus the directory with its first `<src>/` cut out, wherever it occurs |
| InitCommand.ComponentsAliasMidPath | apps/cli/src/commands/init.ts:178 | a `<src>/` in the middle of the directory is cut out: `<pre><src>/<rest>` gets `@/<pre><rest>` when `<src>/` does not occur earlier |
| InitCommand.UtilsAlias | apps/cli/src/commands/init.ts:179 | the alias starts with `@/` |
| InitCommand.UtilsAliasCuts | apps/cli/src/commands/init.ts:179 | for any path, the alias is `@/` plus the path with its first `<src>/` cut out and then the first `.ts` of the rest cut out, wherever they occur |
| InitCommand.UtilsAliasFirstTs | apps/cli/src/commands/init.ts:179 | `<src>/<rel>.ts<more>` with a dot-free `rel` gets `@/<rel><more>`, so a `.tsx` file keeps its `x` |
| InitCommand.UtilsAliasOfFile | apps/cli/src/commands/init.ts:179 | a utils file `<src>/<rel>.ts` gets the alias `@/<rel>` |
| InitCommand.ComponentsAliasOfDir | apps/cli/src/commands/init.ts:178-180 | a components directory `<src>/<rel>` gets `@/<rel>` |
| InitCommand.BuildConfig | apps/cli/src/commands/init.ts:165-185 | `rsc` iff React; `arkitect` names the framework; the CSS path is the chosen one; `ui` equals `components`; `lib` and `hooks` are absent |
| InitCommand.DefaultAliases | apps/cli/src/commands/init.ts:146-181 | the default layout gives the aliases `@/components/ui` and `@/lib/utils` |
| InitCommand.DefaultComponentsAlias | apps/cli/src/commands/init.ts:146-178 | the default components directory gets `@/components/ui` |
| InitCommand.DefaultUtilsAlias | apps/cli/src/commands/init.ts:152-179 | the default utils path gets `@/lib/utils` |
| InitCommand.ConfigRoundTrips | apps/cli/src/commands/init.ts:165-194 | the written configuration satisfies the schema and decodes back to itself |
| InitCommand.InitDeps | apps/cli/src/commands/init.ts:210-212 | the three base packages, then `@ark-ui/react` or `@ark-ui/solid` for the framework |
| InitCommand.InitManager | apps/cli/src/commands/init.ts:218-224 | no contract of its own; `LockfileProbesAgree` states that it picks what `add` picks, and `TrailingSlashIgnored` that a trailing `/` on the directory changes nothing |
| InitCommand.YesUsesDefaults | apps/cli/src/commands/init.ts:84-228 | `--yes` without framework or install flags uses the detected framework, writes `components.json` built from the settled layout, then runs the package manager with the framework's dependencies; with no path flag the layout is the default one |
| InitCommand.YesAloneWritesDefaults | apps/cli/src/commands/init.ts:84-228 | `--yes` with no other flag writes the configuration built from `src`, `src/components/ui`, `src/lib/utils.ts` and `src/index.css`, with aliases `@/components/ui` and `@/lib/utils`, before the install runs; a failed install leaves exactly that configuration |
| InitCommand.Run | apps/cli/src/commands/init.ts:78-239 | no contract of its own; `YesUsesDefaults`, `YesAloneWritesDefaults`, `CiModeInstallsNothing` and `FlagOverridesDetection` state its behaviour |
| InitCommand.CiModeInstallsNothing | apps/cli/src/commands/init.ts:187-209 | `--yes --install-deps=false` writes `components.json` and runs nothing |
| InitCommand.FlagOverridesDetection | apps/cli/src/commands/init.ts:104-185 | a `--framework react` flag wins over a detected Solid project |
| InitCommand.LockfileProbesAgree | apps/cli/src/commands/init.ts:218-228 | `init` and `add` pick the same package manager for any non-empty project directory, one ending in `/` or holding `//` included |
| InitCommand.TrailingSlashIgnored | apps/cli/src/commands/init.ts:218-224 | the probes for `<dir>/` find the same lockfiles as those for `<dir>`, each at `<dir>/<lockfile>` |
| InitCommand.TrailingSlashCwdFindsPnpm | apps/cli/src/commands/init.ts:218-224 | one example: `--cwd /proj/` with `/proj/pnpm-lock.yaml` present picks pnpm |
| ComponentsConfig.ParseStyle | apps/cli/src/schemas/components-config.ts:7-20 | exactly the twelve style literals are accepted, each decoding to the style that prints as it |
| ComponentsConfig.ParseFramework | apps/cli/src/schemas/components-config.ts:58-62 | exactly `react` and `solid` are accepted |
| ComponentsConfig.ParseMenuColor | apps/cli/src/schemas/components-config.ts:38 | exactly `default` and `inverted` are accepted |
| ComponentsConfig.ParseMenuAccent | apps/cli/src/schemas/components-config.ts:39 | exactly `subtle` and `bold` are accepted |
| ComponentsConfig.DecodeStringRecord | apps/cli/src/schemas/components-config.ts:48-53 | a record decodes iff every value is a string, keeping its keys |
| ComponentsConfig.DecodeRegistry | apps/cli/src/schemas/components-config.ts:44-55 | a registry decodes iff it is a string or an object with a string `url` and optional string records `params` and `headers` |
| ComponentsConfig.DecodeTailwind | apps/cli/src/schemas/components-config.ts:23-29 | the `tailwind` object decodes iff its required members have the right types and `prefix`, if present, is a string |
| ComponentsConfig.DecodeAliases | apps/cli/src/schemas/components-config.ts:30-36 | the `aliases` object decodes iff `utils` and `components` are strings and the optional ones are strings when present |
| ComponentsConfig.Decode | apps/cli/src/schemas/components-config.ts:3-63 | a document decodes iff the schema accepts it |
| ComponentsConfig.DecodeEncode | apps/cli/src/schemas/components-config.ts:3-63 | every configuration encodes to a document that decodes back to it |
| ComponentsConfig.EncodeValid | apps/cli/src/schemas/components-config.ts:3-63 | every encoded configuration satisfies the schema |
| ComponentsConfig.MissingComponentsRejected | apps/cli/src/schemas/components-config.ts:30-32 | a document without `aliases.components` is rejected |
| ComponentsConfig.MenuColorRejected | apps/cli/src/schemas/components-config.ts:38 | a `menuColor` that is not the string `default` or `inverted`, a non-string included, is rejected whatever else the document holds |
| ComponentsConfig.RegistryWithoutUrlRejected | apps/cli/src/schemas/components-config.ts:46-47 | a registry given as an object without `url` is rejected |
| ComponentsConfig.ArkitectFrameworkChecked | apps/cli/src/schemas/components-config.ts:58-62 | an accepted `arkitect` member names `react` or `solid` |
| ComponentsConfig.OptionalFieldsMayBeOmitted | apps/cli/src/schemas/components-config.ts:22-62 | a document with every optional member omitted is accepted, and they decode as absent |
| RegistryFixPaths.FixPath | scripts/registry-fix-paths.js:13-15 | no contract of its own; `FixPathIdentity` and the `*BecomesUi`, `*BecomesLib` and `*Exact` lemmas state it |
| RegistryFixPaths.FixEntry | scripts/registry-fix-paths.js:11-17 | an entry is rewritten iff it is an object with a string `path`; only `path` changes and it becomes the fixed path |
| RegistryFixPaths.FixEntries | scripts/registry-fix-paths.js:11-17 | the entries succeed iff each does; their number and order are kept |
| RegistryFixPaths.FixDocument | scripts/registry-fix-paths.js:9-18 | a document without a `files` array is left unchanged; `null` fails |
| RegistryFixPaths.FixDocumentPreservesEntries | scripts/registry-fix-paths.js:10-18 | on a document with `files`, only `files` changes, entry by entry |
| RegistryFixPaths.FixPathIdentity | scripts/registry-fix-paths.js:13-15 | a path with none of the three directories is unchanged |
| RegistryFixPaths.ReactComponentBecomesUi | scripts/registry-fix-paths.js:13 | a React component path ends up in `ui/` form |
| RegistryFixPaths.SolidComponentBecomesUi | scripts/registry-fix-paths.js:14 | a Solid component path ends up in `ui/` form |
| RegistryFixPaths.SharedLibBecomesLib | scripts/registry-fix-paths.js:15 | a shared library path ends up in `lib/` form |
| RegistryFixPaths.ReactComponentExact | scripts/registry-fix-paths.js:13-15 | exactly the React directory prefix is replaced by `ui/` |
| RegistryFixPaths.SolidComponentExact | scripts/registry-fix-paths.js:13-15 | exactly the Solid directory prefix is replaced by `ui/` |
| ThemeUtils.LetterRun | apps/docs/src/lib/utils.ts:104 | the length of the longest prefix of ASCII letters |
| ThemeUtils.IsColorFunctionSpec | apps/docs/src/lib/utils.ts:102-105 | a value is a colour function iff its trimmed form starts, up to ASCII case, with one of the eight function names followed by `(` |
| ThemeUtils.NonLetterStartNotColor | apps/docs/src/lib/utils.ts:102-105 | bare HSL channels and hex values are not colour functions |
| ThemeUtils.AnyColorKey | apps/docs/src/lib/utils.ts:125-130 | true iff some colour name equals the key, prefixes it with `-` or suffixes it with `-` |
| ThemeUtils.ColorVariants | apps/docs/src/lib/utils.ts:110-131 | `<colour>-x` and `x-<colour>` are colour variables |
| ThemeUtils.StripQuotes | apps/docs/src/lib/utils.ts:40 | one leading and one trailing quote are removed; other text is kept |
| ThemeUtils.ExtractFontNames | apps/docs/src/lib/utils.ts:36-46 | every returned name is non-empty, not generic and comma-free, and every such cleaned piece is returned |
| ThemeUtils.ExtractPlain | apps/docs/src/lib/utils.ts:36-46 | a value of plain family names yields exactly those names |
| ThemeUtils.GenericFamiliesDropped | apps/docs/src/lib/utils.ts:42 | one example: generic families are dropped case-insensitively, but `cursive` is kept because the pattern reads ` cursive` |
| ThemeUtils.SpaceRunsToPlus | apps/docs/src/lib/utils.ts:55 | no whitespace remains; text without whitespace is unchanged; empty iff the input is empty |
| ThemeUtils.RemoveQuotes | apps/docs/src/lib/utils.ts:56 | exactly the quote characters are removed |
| ThemeUtils.NormalizeFontName | apps/docs/src/lib/utils.ts:53-57 | the normalised name has no whitespace and no quotes; it is empty iff the name held only quotes |
| ThemeUtils.GoogleFontsUrl | apps/docs/src/lib/utils.ts:52-65 | no URL iff the normalised name is empty; otherwise the fixed prefix, the normalised name and the weights suffix |
| ThemeUtils.PlainFontName | apps/docs/src/lib/utils.ts:53-57 | a name without whitespace or quotes goes into the URL unchanged |
| ThemeUtils.QuotesOnlyPreserved | apps/docs/src/lib/utils.ts:54-59 | replacing whitespace runs does not change whether a name is only quotes |
| ThemeUtils.SpacedWords | apps/docs/src/lib/utils.ts:55 | words separated by single spaces come out separated by `+` |
| ThemeUtils.AfterLastSlash | apps/docs/src/lib/utils.ts:431 | the text after the last `/`, free of `/` |
| ThemeUtils.ThemeNameFromUrl | apps/docs/src/lib/utils.ts:430-433 | the name is `custom-theme`, or a non-empty `/`-free segment such that the URL ends with `/<name>.json` |
| ThemeUtils.ThemeNameRoundTrip | apps/docs/src/lib/utils.ts:430-433 | `<base>/<name>.json` yields `name` |
| ThemeUtils.ThemeNameDefault | apps/docs/src/lib/utils.ts:430-433 | a URL not ending in `.json` yields `custom-theme` |
| ThemeUtils.MergeVars | apps/docs/src/lib/utils.ts:146-151 | the merged keys are both key sets; mode values win and theme values fill the rest |
| ThemeUtils.ToCssColor | apps/docs/src/lib/utils.ts:159-171 | nothing when the value is absent or empty; colour functions and hex values unchanged; anything else wrapped in `hsl(...)` |
| ThemeUtils.Assignments | apps/docs/src/lib/utils.ts:173-228 | exactly the Starlight properties whose colour resolves, each with its resolved non-empty value |
| ThemeUtils.AssignmentsAppend | apps/docs/src/lib/utils.ts:173-228 | the assignments keep table order: those of two tables in sequence are the first's followed by the second's, and one row gives its own assignment |
| ThemeUtils.StarlightVars | apps/docs/src/lib/utils.ts:146-228 | no contract of its own; `ModeOverridesTheme`, `NavFallsBackToBackground` and the `Assignments` lemmas state it |
| ThemeUtils.ModeOverridesTheme | apps/docs/src/lib/utils.ts:146-228 | one example: a mode background given as channels sets `--sl-color-bg` to `hsl(<channels>)` |
| ThemeUtils.NavFallsBackToBackground | apps/docs/src/lib/utils.ts:173-228 | one example: without `card`, the navigation and sidebar backgrounds take the background colour |
| ThemeUtils.VarWrites | apps/docs/src/lib/utils.ts:352-361 | a mode variable sets `--<key>`, preceded by `--color-<key>` exactly when it is a colour variable with a colour-function value |
| ThemeUtils.ThemeEntryWrites | apps/docs/src/lib/utils.ts:288-299 | a theme variable sets `--<key>` first, then `--color-<key>` exactly when it is a colour variable with a colour-function value |
| ThemeUtils.ThemeVarWrites | apps/docs/src/lib/utils.ts:287-306 | every theme-level entry sets its `--<key>` property |
| ThemeUtils.FontSansValue | apps/docs/src/lib/utils.ts:286-305 | the font value tracked is a non-empty `font-sans` entry; there is none iff every `font-sans` entry is empty |
| ThemeUtils.ModeEntryWrites | apps/docs/src/lib/utils.ts:342-363 | a mode entry sets nothing iff its key is theme-level |
| ThemeUtils.ModeVarWrites | apps/docs/src/lib/utils.ts:339-364 | every mode entry with a non-theme-level key sets its `--<key>` property |
| ThemeUtils.ColorPropertyOnlyForColors | apps/docs/src/lib/utils.ts:345-359 | a `--color-<key>` property comes only from a colour variable whose value is a colour function |
| ThemeUtils.ThemeLevelModeVarsIgnored | apps/docs/src/lib/utils.ts:345-351 | a theme-level key among the mode variables sets nothing |
| ThemeUtils.IsCssCode | apps/docs/src/lib/utils.ts:547-563 | a valid URL is never CSS; input that is not a URL and contains `:root` is CSS |
| CssParser.StripComments | apps/docs/src/lib/utils.ts:450 | removing comments never lengthens the text |
| CssParser.StripCommentsIdentity | apps/docs/src/lib/utils.ts:450 | text without a comment opener is unchanged |
| CssParser.StripOneComment | apps/docs/src/lib/utils.ts:450 | a comment is cut out together with everything up to its first closer |
| CssParser.SpaceRun | apps/docs/src/lib/utils.ts:453 | the maximal run of whitespace at a position |
| CssParser.BlockAt | apps/docs/src/lib/utils.ts:453-502 | a block body matched at the start is non-empty and has no `}` |
| CssParser.FirstBlock | apps/docs/src/lib/utils.ts:453-502 | the first matching block body is non-empty and has no `}` |
| CssParser.RootBlockAtStart | apps/docs/src/lib/utils.ts:453 | a stylesheet opening with `:root {body}` yields `body` as the root block |
| CssParser.DeclAt | apps/docs/src/lib/utils.ts:456 | a declaration matched at the start ends inside the text |
| CssParser.Decls | apps/docs/src/lib/utils.ts:456-460 | no contract of its own; `DeclsRoundTrip` states that rendered declarations are read back |
| CssParser.DeclsRoundTrip | apps/docs/src/lib/utils.ts:456-460 | declarations rendered as `--name: value;` are read back exactly |
| CssParser.Store | apps/docs/src/lib/utils.ts:457-474 | the names present after filing are the old ones plus those of the kept declarations |
| CssParser.StoreFrame | apps/docs/src/lib/utils.ts:457-474 | a name no kept declaration assigns keeps its value |
| CssParser.StoreLastWins | apps/docs/src/lib/utils.ts:457-474 | the last kept declaration of a name decides its value |
| CssParser.FileDecls | apps/docs/src/lib/utils.ts:463-540 | no contract of its own; `FiledKeysClassified`, `LayerBaseIff` and `LastWinsAll` state it |
| CssParser.ParseCss | apps/docs/src/lib/utils.ts:439-542 | no contract of its own; `ParsedItemShape` and `RootBlockParsed` state it |
| CssParser.FiledKeysClassified | apps/docs/src/lib/utils.ts:463-527 | theme-level names reach only `theme`; the others reach only `light` or `dark` |
| CssParser.ParsedItemShape | apps/docs/src/lib/utils.ts:439-542 | the item is a theme with the given name or `custom-css-theme`, its variables filed by kind |
| CssParser.LayerBaseIff | apps/docs/src/lib/utils.ts:502-540 | base-layer rules exist iff the inline block declares a non-theme-level variable; each is stored as `--<name>` |
| CssParser.RootBlockParsed | apps/docs/src/lib/utils.ts:449-476 | a comment-free stylesheet opening with a `:root` block has as light variables exactly that block's non-theme-level declarations |
| CssParser.LastWinsAll | apps/docs/src/lib/utils.ts:457-474 | with distinct names, every non-theme-level declaration is filed with its own value |
| ThemeSwitcher.Toggle | apps/docs/src/components/hooks/use-tweakcn-switcher.ts:81 | toggling always changes the mode |
| ThemeSwitcher.ToggleInvolution | apps/docs/src/components/hooks/use-tweakcn-switcher.ts:81 | toggling twice gives back the mode |
| ThemeSwitcher.ParseSavedMode | apps/docs/src/components/hooks/use-tweakcn-switcher.ts:192-197 | a saved value is used iff it is exactly `dark` or `light`, and it names the mode read |
| ThemeSwitcher.SavedModeRoundTrip | apps/docs/src/components/hooks/use-tweakcn-switcher.ts:192-197 | a mode written by `setMode` is read back unchanged |
| ThemeSwitcher.OrElse | apps/docs/src/components/hooks/use-tweakcn-switcher.ts:300 | JavaScript `\|\|` on strings: the first string if non-empty, else the second |
| ThemeSwitcher.ThemeName | apps/docs/src/components/hooks/use-tweakcn-switcher.ts:300 | the name is never empty; it is the first non-empty of the explicit name, the item's name and the name from the URL |
| ThemeSwitcher.IndexOfUrl | apps/docs/src/components/hooks/use-tweakcn-switcher.ts:153 | the first position whose option has the URL, or none iff no option has it |
| ThemeSwitcher.IndexOfUrlIff | apps/docs/src/components/hooks/use-tweakcn-switcher.ts:153 | a position is found iff the list has an option with the URL |
| ThemeSwitcher.FindOrCreate | apps/docs/src/components/hooks/use-tweakcn-switcher.ts:152-166 | an option with the URL is reused and the list kept; otherwise the candidate is appended and becomes current |
| ThemeSwitcher.FindOrCreateUnique | apps/docs/src/components/hooks/use-tweakcn-switcher.ts:152-166 | find-or-create keeps the URLs of the list distinct |
| ThemeSwitcher.FailureMessage | apps/docs/src/components/hooks/use-tweakcn-switcher.ts:175-177 | an `Error`'s own message, or the fallback text for any other rejection |
| ThemeSwitcher.ApplyTheme | apps/docs/src/components/hooks/use-tweakcn-switcher.ts:139-182 | a failed fetch changes only the error; when applying the fetched item throws, the item is cached and the error set, and nothing else changes; a full success clears the error, caches the item, makes an option with the URL current, and appends one only if the URL was new |
| ThemeSwitcher.ApplyThemeOption | apps/docs/src/components/hooks/use-tweakcn-switcher.ts:290-292 | applying an option applies its URL, or the empty URL without one |
| ThemeSwitcher.AddTheme | apps/docs/src/components/hooks/use-tweakcn-switcher.ts:294-322 | a failure records the error's message and rethrows the original rejection; a success returns `theme-<name>` and appends only if the URL is new; current, mode and cache never change |
| ThemeSwitcher.WithoutId | apps/docs/src/components/hooks/use-tweakcn-switcher.ts:325 | the filtered list has no option with the id and is no longer than before |
| ThemeSwitcher.WithoutIdMembers | apps/docs/src/components/hooks/use-tweakcn-switcher.ts:325 | an option survives iff it was present and has another id |
| ThemeSwitcher.WithoutAbsentId | apps/docs/src/components/hooks/use-tweakcn-switcher.ts:325 | removing an id no option has keeps the list |
| ThemeSwitcher.WithoutIdAppend | apps/docs/src/components/hooks/use-tweakcn-switcher.ts:325 | removal keeps the order of the options left: it distributes over concatenation |
| ThemeSwitcher.RemoveTheme | apps/docs/src/components/hooks/use-tweakcn-switcher.ts:324-334 | exactly the options with the id go and the rest keep their order; the current theme and cache are cleared iff the current theme had that id |
| ThemeSwitcher.SetMode | apps/docs/src/components/hooks/use-tweakcn-switcher.ts:67-77 | only the mode changes |
| ThemeSwitcher.ToggleMode | apps/docs/src/components/hooks/use-tweakcn-switcher.ts:80-81 | the mode flips and nothing else changes |
| ThemeSwitcher.MountMode | apps/docs/src/components/hooks/use-tweakcn-switcher.ts:185-197 | on mount a valid saved mode is adopted when persistence is on; otherwise the state is kept |
| ThemeSwitcher.RestoreApplied | apps/docs/src/components/hooks/use-tweakcn-switcher.ts:218-233 | restoring an already-applied theme makes an option with the saved URL current, appending it only when the URL is new |
| ThemeSwitcher.ChangeEvent | apps/docs/src/components/hooks/use-tweakcn-switcher.ts:279-287 | the event carries the current id or `default`, the mode name and the current name or `Default` |
| ThemeSwitcher.InitValid | apps/docs/src/components/hooks/use-tweakcn-switcher.ts:32-38 | the initial state is consistent iff the default themes have distinct URLs |
| ThemeSwitcher.ApplyPreservesValid | apps/docs/src/components/hooks/use-tweakcn-switcher.ts:139-182 | applying keeps URLs distinct and the current theme in the list |
| ThemeSwitcher.AddPreservesValid | apps/docs/src/components/hooks/use-tweakcn-switcher.ts:294-322 | adding keeps URLs distinct and the current theme in the list |
| ThemeSwitcher.RemovePreservesValid | apps/docs/src/components/hooks/use-tweakcn-switcher.ts:324-334 | removing keeps URLs distinct and the current theme in the list |
| ThemeSwitcher.RestorePreservesValid | apps/docs/src/components/hooks/use-tweakcn-switcher.ts:218-233 | restoring keeps URLs distinct and the current theme in the list |
| ThemeSwitcher.ApplyIdempotent | apps/docs/src/components/hooks/use-tweakcn-switcher.ts:152-166 | applying the same successful fetch twice gives the same state as once |
| ThemeSwitcher.AddThenApplyKeepsList | apps/docs/src/components/hooks/use-tweakcn-switcher.ts:152-166 | applying a theme just added does not grow the list again |
| ThemeSwitcher.RemoveCurrentAnnouncesDefault | apps/docs/src/components/hooks/use-tweakcn-switcher.ts:279-287 | after removing the current theme the change event announces `default` |
| ThemeSwitcher.RestoreAgreesWithApply | apps/docs/src/components/hooks/use-tweakcn-switcher.ts:218-233 | restoring and applying the same URL produce the same list and current theme |
| EndToEnd.DefaultConfig | apps/cli/src/commands/init.ts:146-194 | the configuration read after a default `init` has the aliases `@/components/ui` and `@/lib/utils` |
| EndToEnd.DefaultComponentTarget | apps/cli/src/commands/add.ts:196-208 | after a default `init`, `ui/<name>` lands at `<cwd>/src/components/ui/<name>` |
| EndToEnd.DefaultLibTarget | apps/cli/src/commands/add.ts:209-216 | after a default `init`, `lib/<x>.<e>` lands at `<cwd>/src/lib/utils.<e>` |
| EndToEnd.DefaultInstallWrites | apps/cli/src/commands/add.ts:205-250 | after a default `init`, with nothing scaffolded, `add` creates exactly the component file and the utils file, each with its content |
| EndToEnd.FixedSolidComponentTarget | scripts/registry-fix-paths.js:14 | a Solid component path, once rewritten, installs at `<cwd>/src/components/ui/<name>` |
| Strings.Trim | apps/docs/src/lib/utils.ts:40 | the result neither starts nor ends with whitespace; it is empty iff the input is all whitespace |
| Strings.IndexOf | apps/cli/src/commands/init.ts:178-179 | the first occurrence of the pattern, found iff it occurs |
| Strings.ReplaceFirst | scripts/registry-fix-paths.js:13-15 | without an occurrence the text is unchanged |
| Strings.ReplaceAt | scripts/registry-fix-paths.js:13-15 | the first occurrence, and only it, is replaced |
| Strings.Split | apps/docs/src/lib/utils.ts:39 | the pieces contain no separator; one piece iff the text has none |
| Strings.JoinSplit | apps/docs/src/lib/utils.ts:39 | joining the pieces with the separator gives back the text |
| Strings.SplitJoin | apps/docs/src/lib/utils.ts:39 | splitting separator-free pieces joined by the separator gives back the pieces |
| Lists.FilterMap | apps/docs/src/lib/utils.ts:38-43 | every kept value passes the filter, and every mapped value that passes is kept |
| Lists.FilterMapOrigin | apps/docs/src/lib/utils.ts:38-43 | every kept value is the image of some input |
| Paths.Join | apps/cli/src/commands/add.ts:198-223 | a joined path is non-empty and has no `//` |
| Paths.Join3 | apps/cli/src/commands/add.ts:198 | three clean segments are joined with single `/` |
| Paths.JoinTwo | apps/cli/src/commands/add.ts:273-275 | joining two non-empty pieces is concatenating them around a `/` and collapsing every run of `/` |
| Paths.CollapseDoubled | apps/cli/src/commands/init.ts:219-221 | a doubled `/` between two clean pieces reads as one, as the file system reads it |

## Left out

- Console output, colours and emoji, and the exact wording of log lines are not modelled.
- Reading and writing files is not modelled. The file system is a map; creating directories is not modelled. The map holds files only, so a target that names an existing directory, or whose parent directory is a file, behaves differently in the source: there the directory counts as present and is skipped, and the write under a file fails and stops the command; here the target is written.
- HTTP is a parameter: the fetch of the index, of a registry item and of a theme returns a result supplied by the caller. Status filtering and body decoding are folded into that result.
- The scaffolding tool and the package manager are parameters returning a new world or an error. Their own behaviour is not modelled.
- `JSON.parse`, `JSON.stringify` and the Effect schema machinery are not modelled; documents arrive parsed as `Json`. The `$schema` value and the key order of the written document are not checked.
- `path.join` is modelled without `.` and `..` resolution: such segments are kept literally, whereas node resolves them. A `--cwd` or an `init --components-dir ../ui` (alias `@/../ui`) can bring them in.
- AddCommand.MissingDeps: the source's `d in installed` also sees keys inherited by every JavaScript object, so a dependency named `constructor` or `toString` counts as installed there; the model's map has only the manifest's own keys and lists it as missing.
- Interactive prompts are replaced by an `Answers` value.
- The theme hook's DOM writes (`applyThemeFromRegistry`'s `setProperty` calls, the `dark` class, the font `<link>`) are modelled only as the list of properties set. The view-transition animation, `isLoading` and `isInitialized` are not modelled.
- `localStorage` is reduced to the saved mode and the saved theme values passed in. The JSON object persisted with a theme is not modelled.
- ThemeSwitcher.RestoreApplied: the background fetch after a restore is not modelled, and neither is the check of whether styles are already applied. The caller decides which restore path applies.
- The branch of the mount logic that re-applies a saved theme by URL is `applyTheme` on that URL and is not modelled separately.
- `fetchThemeFromUrl` and `registry-fix-paths.js`'s directory walk and file I/O (`run`, lines 22-32) are not modelled; `FixDocument` is `fixFile` on the parsed document.
- ThemeUtils.IsCssCode: `new URL` validity is a parameter, and only the `:root` indicator is stated in the contract. The other four indicators are in the body.
- Case-insensitive matching folds ASCII letters only; JavaScript's `i` flag also folds other letters, which none of the names matched here contain.
- CssParser.StripComments: the contract states only that text never grows, plus the lemmas on text without comments and with single comments. General comment-free output is not stated, because an unclosed opener is kept.
- The theme-level `:root` variables are filed in `theme` before the inline block; their relative order matters only for equal names, where the inline value wins as in the source.
- `list.ts` and the rest of the repository (the component packages, the documentation site's other pages) are not part of this model.
