/** What the CLI reads from the project's `package.json`, and the package
    manager it chooses from the lockfiles next to it. Both commands use the same
    rules; the file is given already parsed, with version values as strings. */
module ProjectManifest {
  import opened Results
  import opened ComponentsConfig

  datatype PackageJson = PackageJson(dependencies: map<string, string>, devDependencies: map<string, string>)

  /** `{...dependencies, ...devDependencies}`; empty without a package.json. */
  function InstalledDeps(pkg: Option<PackageJson>): (r: map<string, string>)
    ensures pkg.None? ==> r == map[]
    ensures pkg.Some? ==> r.Keys == pkg.value.dependencies.Keys + pkg.value.devDependencies.Keys
    ensures pkg.Some? ==> forall k :: k in pkg.value.devDependencies ==> r[k] == pkg.value.devDependencies[k]
    ensures pkg.Some? ==> forall k :: k in pkg.value.dependencies && k !in pkg.value.devDependencies ==>
      r[k] == pkg.value.dependencies[k]
  {
    match pkg
    case None => map[]
    case Some(p) => p.dependencies + p.devDependencies
  }

  /** JavaScript truthiness of a looked-up version: present and not empty. */
  predicate Truthy(deps: map<string, string>, k: string) {
    k in deps && deps[k] != ""
  }

  /** Solid when the merged dependencies hold a truthy `solid-js`, React
      otherwise; the `react` branch of the source changes nothing. */
  function DetectFramework(pkg: Option<PackageJson>): Framework {
    if Truthy(InstalledDeps(pkg), "solid-js") then Solid else React
  }

  /** Detection stated on the raw manifest: a `devDependencies` entry shadows a
      `dependencies` entry, an empty version counts as absent, and a project
      without package.json is React. */
  lemma DetectFrameworkSpec(pkg: Option<PackageJson>)
    ensures pkg.None? ==> DetectFramework(pkg) == React
    ensures pkg.Some? ==>
      (DetectFramework(pkg) == Solid <==>
        if "solid-js" in pkg.value.devDependencies then pkg.value.devDependencies["solid-js"] != ""
        else "solid-js" in pkg.value.dependencies && pkg.value.dependencies["solid-js"] != "")
  {
  }

  datatype PackageManager = Npm | Pnpm | Yarn | Bun

  function ManagerCommand(pm: PackageManager): string {
    match pm
    case Npm => "npm"
    case Pnpm => "pnpm"
    case Yarn => "yarn"
    case Bun => "bun"
  }

  const PnpmLock: string := "pnpm-lock.yaml"
  const YarnLock: string := "yarn.lock"
  const BunLock: string := "bun.lockb"

  /** First lockfile wins in the order pnpm, yarn, bun; npm without any. */
  function PickManager(hasPnpmLock: bool, hasYarnLock: bool, hasBunLock: bool): (pm: PackageManager)
    ensures pm == Pnpm <==> hasPnpmLock
    ensures pm == Yarn <==> !hasPnpmLock && hasYarnLock
    ensures pm == Bun <==> !hasPnpmLock && !hasYarnLock && hasBunLock
    ensures pm == Npm <==> !hasPnpmLock && !hasYarnLock && !hasBunLock
  {
    if hasPnpmLock then Pnpm
    else if hasYarnLock then Yarn
    else if hasBunLock then Bun
    else Npm
  }

  /** `install` for npm, `add` for the others, followed by the packages. */
  function InstallArgs(pm: PackageManager, packages: seq<string>): (args: seq<string>)
    ensures |args| == |packages| + 1 && args[1..] == packages
    ensures args[0] == "install" <==> pm == Npm
    ensures args[0] == "add" <==> pm != Npm
  {
    [if pm == Npm then "install" else "add"] + packages
  }
}
