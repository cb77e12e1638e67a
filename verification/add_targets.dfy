/** Where `add` puts a registry item's files, and the fallback write that
    creates the ones the scaffolding tool did not. Files are a map from path
    to contents; directories are implicit. */
module AddTargets {
  import opened Results
  import opened Strings
  import Paths

  datatype RegistryFile = RegistryFile(path: string, content: string, fileType: Option<string>)
  datatype RegistryItem = RegistryItem(files: seq<RegistryFile>, dependencies: Option<seq<string>>)

  /** An alias `@/x` lives under `<cwd>/src`; any other alias is relative to
      the project root. */
  function ResolveAliasPath(cwd: string, alias: string): (r: string)
    ensures StartsWith(alias, "@/") ==> r == Paths.Join([cwd, "src", alias[2..]])
    ensures !StartsWith(alias, "@/") ==> r == Paths.Join([cwd, alias])
  {
    if StartsWith(alias, "@/") then
      var rest := ReplaceFirst(alias, "@/", "");
      ReplacePrefix(alias, "@/", "");
      assert rest == alias[2..];
      Paths.Join([cwd, "src", rest])
    else Paths.Join([cwd, alias])
  }

  /** A join ends with the separator followed by its last piece. */
  lemma {:induction false} JoinEndsWithLast(parts: seq<string>, sep: string)
    requires |parts| >= 2
    ensures EndsWith(JoinWith(parts, sep), sep + Last(parts))
    decreases |parts|
  {
    if |parts| == 2 {
      assert parts[1..] == [parts[1]];
      assert JoinWith(parts, sep) == parts[0] + (sep + parts[1]);
    } else {
      JoinEndsWithLast(parts[1..], sep);
      assert Last(parts[1..]) == Last(parts);
      var tail := JoinWith(parts[1..], sep);
      assert JoinWith(parts, sep) == (parts[0] + sep) + tail;
    }
  }

  /** `path.split(".").pop()`: the text after the last `.`, or the whole path
      when it has none (the `?? "ts"` fallback never applies, since a split is
      never empty). */
  function Extension(path: string): (ext: string)
    ensures '.' !in ext
    ensures '.' !in path ==> ext == path
    ensures '.' in path ==> EndsWith(path, "." + ext)
  {
    var parts := Split(path, '.');
    if '.' in path then
      JoinSplit(path, '.');
      JoinEndsWithLast(parts, ".");
      Last(parts)
    else
      SplitNoSeparator(path, '.');
      Last(parts)
  }

  /** A utils alias that does not end in `/` names a file, not a directory. */
  predicate IsFileAlias(utilsAlias: string) {
    !EndsWith(utilsAlias, "/")
  }

  /** Where a registry file lands: `ui/` files under the components alias,
      `lib/` files at the utils file (with the source's extension) or under the
      utils directory, anything else under `<cwd>/src`. */
  function TargetPath(cwd: string, componentsAlias: string, utilsAlias: string, path: string): (r: string)
    ensures StartsWith(path, "ui/") ==> r == Paths.Join([ResolveAliasPath(cwd, componentsAlias), path[3..]])
    ensures !StartsWith(path, "ui/") && StartsWith(path, "lib/") && IsFileAlias(utilsAlias) ==>
      r == ResolveAliasPath(cwd, utilsAlias) + "." + Extension(path)
    ensures !StartsWith(path, "ui/") && StartsWith(path, "lib/") && !IsFileAlias(utilsAlias) ==>
      r == Paths.Join([ResolveAliasPath(cwd, utilsAlias), path[4..]])
    ensures !StartsWith(path, "ui/") && !StartsWith(path, "lib/") ==> r == Paths.Join([cwd, "src", path])
  {
    if StartsWith(path, "ui/") then
      var rest := ReplaceFirst(path, "ui/", "");
      ReplacePrefix(path, "ui/", "");
      assert rest == path[3..];
      Paths.Join([ResolveAliasPath(cwd, componentsAlias), rest])
    else if StartsWith(path, "lib/") then
      if IsFileAlias(utilsAlias) then ResolveAliasPath(cwd, utilsAlias) + "." + Extension(path)
      else
        var rest := ReplaceFirst(path, "lib/", "");
        ReplacePrefix(path, "lib/", "");
        assert rest == path[4..];
        Paths.Join([ResolveAliasPath(cwd, utilsAlias), rest])
    else Paths.Join([cwd, "src", path])
  }

  /** With a file-style utils alias, every `lib/` file with the same extension
      lands on the same target, so a later one overwrites an earlier one. */
  lemma LibFilesCollide(cwd: string, components: string, utils: string, p1: string, p2: string)
    requires IsFileAlias(utils)
    requires StartsWith(p1, "lib/") && StartsWith(p2, "lib/")
    requires Extension(p1) == Extension(p2)
    ensures TargetPath(cwd, components, utils, p1) == TargetPath(cwd, components, utils, p2)
  {
    assert p1[0] == 'l' && p2[0] == 'l';
  }

  /** A `lib/` path without a `.` contributes the whole path as "extension". */
  lemma ExtensionlessLibPath(cwd: string, components: string, utils: string, path: string)
    requires IsFileAlias(utils)
    requires StartsWith(path, "lib/") && '.' !in path
    ensures TargetPath(cwd, components, utils, path) == ResolveAliasPath(cwd, utils) + "." + path
  {
    assert path[0] == 'l';
  }

  function TargetPaths(cwd: string, componentsAlias: string, utilsAlias: string, files: seq<RegistryFile>): (r: seq<string>)
    ensures |r| == |files|
    ensures forall i :: 0 <= i < |files| ==> r[i] == TargetPath(cwd, componentsAlias, utilsAlias, files[i].path)
  {
    seq(|files|, i requires 0 <= i < |files| => TargetPath(cwd, componentsAlias, utilsAlias, files[i].path))
  }

  /** The positions, in increasing order, whose target is not on disk. */
  function MissingIndexes(targets: seq<string>, files: map<string, string>): (r: seq<nat>)
    ensures forall k :: 0 <= k < |r| ==> r[k] < |targets| && targets[r[k]] !in files
    ensures forall i :: 0 <= i < |targets| && targets[i] !in files ==> i in r
    ensures forall k, l :: 0 <= k < l < |r| ==> r[k] < r[l]
    decreases |targets|
  {
    if |targets| == 0 then []
    else
      var n := |targets| - 1;
      var front := targets[..n];
      var prefix := MissingIndexes(front, files);
      assert forall i :: 0 <= i < n ==> front[i] == targets[i];
      var r := prefix + (if targets[n] !in files then [n] else []);
      assert forall k :: 0 <= k < |prefix| ==> r[k] == prefix[k] && prefix[k] < n;
      r
  }

  /** Nothing is missing exactly when every target exists. */
  lemma NothingMissing(targets: seq<string>, files: map<string, string>)
    ensures MissingIndexes(targets, files) == [] <==> forall i :: 0 <= i < |targets| ==> targets[i] in files
  {
    var r := MissingIndexes(targets, files);
    if r != [] {
      assert targets[r[0]] !in files;
    }
  }

  predicate Written(writes: seq<(string, string)>, p: string) {
    exists k :: 0 <= k < |writes| && writes[k].0 == p
  }

  /** Writing files in order: the paths present afterwards are the old ones
      and the written ones. */
  function ApplyWrites(fs: map<string, string>, writes: seq<(string, string)>): (r: map<string, string>)
    ensures forall p :: p in r <==> p in fs || Written(writes, p)
    decreases |writes|
  {
    if |writes| == 0 then fs
    else
      var n := |writes| - 1;
      assert forall p :: Written(writes, p) <==> Written(writes[..n], p) || writes[n].0 == p by {
        forall p ensures Written(writes, p) ==> Written(writes[..n], p) || writes[n].0 == p {
          if Written(writes, p) {
            var k :| 0 <= k < |writes| && writes[k].0 == p;
            if k < n { assert writes[..n][k] == writes[k]; }
          }
        }
        forall p ensures Written(writes[..n], p) ==> Written(writes, p) {
          if Written(writes[..n], p) {
            var k :| 0 <= k < n && writes[..n][k].0 == p;
            assert writes[k] == writes[..n][k];
          }
        }
      }
      ApplyWrites(fs, writes[..n])[writes[n].0 := writes[n].1]
  }

  /** A file no write targets keeps its contents. */
  lemma {:induction false} ApplyWritesKeeps(fs: map<string, string>, writes: seq<(string, string)>, p: string)
    requires p in fs && !Written(writes, p)
    ensures ApplyWrites(fs, writes)[p] == fs[p]
    decreases |writes|
  {
    if |writes| > 0 {
      var n := |writes| - 1;
      assert writes[n].0 != p;
      forall k | 0 <= k < n
        ensures writes[..n][k].0 != p
      {
        assert writes[..n][k] == writes[k];
      }
      ApplyWritesKeeps(fs, writes[..n], p);
    }
  }

  /** The last write to a path decides its contents. */
  lemma {:induction false} ApplyWritesLast(fs: map<string, string>, writes: seq<(string, string)>, k: nat)
    requires k < |writes|
    requires forall j :: k < j < |writes| ==> writes[j].0 != writes[k].0
    ensures writes[k].0 in ApplyWrites(fs, writes)
    ensures ApplyWrites(fs, writes)[writes[k].0] == writes[k].1
    decreases |writes|
  {
    var n := |writes| - 1;
    var before := ApplyWrites(fs, writes[..n]);
    assert ApplyWrites(fs, writes) == before[writes[n].0 := writes[n].1];
    if k < n {
      var prefix := writes[..n];
      assert prefix[k] == writes[k];
      assert forall j :: k < j < n ==> prefix[j].0 != prefix[k].0 by {
        forall j | k < j < n ensures prefix[j].0 != prefix[k].0 {
          assert prefix[j] == writes[j];
        }
      }
      ApplyWritesLast(fs, prefix, k);
      assert writes[n].0 != writes[k].0;
    }
  }

  /** The writes of the fallback: each missing target with its file's content. */
  function FallbackWrites(files: seq<RegistryFile>, targets: seq<string>, missing: seq<nat>): (w: seq<(string, string)>)
    requires |files| == |targets|
    requires forall k :: 0 <= k < |missing| ==> missing[k] < |targets|
    ensures |w| == |missing|
    ensures forall k :: 0 <= k < |missing| ==> w[k] == (targets[missing[k]], files[missing[k]].content)
  {
    seq(|missing|, k requires 0 <= k < |missing| => (targets[missing[k]], files[missing[k]].content))
  }

  /** The files after the fallback write for one registry item. */
  function FallbackFiles(cwd: string, componentsAlias: string, utilsAlias: string,
                         item: RegistryItem, fs: map<string, string>): map<string, string>
  {
    var targets := TargetPaths(cwd, componentsAlias, utilsAlias, item.files);
    ApplyWrites(fs, FallbackWrites(item.files, targets, MissingIndexes(targets, fs)))
  }

  /** The fallback never touches a file that was already there. */
  lemma FallbackKeepsExisting(cwd: string, componentsAlias: string, utilsAlias: string,
                              item: RegistryItem, fs: map<string, string>, p: string)
    requires p in fs
    ensures var after := FallbackFiles(cwd, componentsAlias, utilsAlias, item, fs);
      p in after && after[p] == fs[p]
  {
    var targets := TargetPaths(cwd, componentsAlias, utilsAlias, item.files);
    var missing := MissingIndexes(targets, fs);
    var writes := FallbackWrites(item.files, targets, missing);
    forall k | 0 <= k < |writes|
      ensures writes[k].0 != p
    {
      assert writes[k].0 == targets[missing[k]];
    }
    ApplyWritesKeeps(fs, writes, p);
  }

  /** After the fallback every target exists. */
  lemma FallbackCoversTargets(cwd: string, componentsAlias: string, utilsAlias: string,
                              item: RegistryItem, fs: map<string, string>)
    ensures var after := FallbackFiles(cwd, componentsAlias, utilsAlias, item, fs);
      forall t :: t in TargetPaths(cwd, componentsAlias, utilsAlias, item.files) ==> t in after
  {
    var targets := TargetPaths(cwd, componentsAlias, utilsAlias, item.files);
    var missing := MissingIndexes(targets, fs);
    var writes := FallbackWrites(item.files, targets, missing);
    var after := ApplyWrites(fs, writes);
    forall t | t in targets
      ensures t in after
    {
      var i :| 0 <= i < |targets| && targets[i] == t;
      if t !in fs {
        var k :| 0 <= k < |missing| && missing[k] == i;
        assert writes[k].0 == t;
      }
    }
  }

  /** The fallback creates no file other than a target. */
  lemma FallbackOnlyTargets(cwd: string, componentsAlias: string, utilsAlias: string,
                            item: RegistryItem, fs: map<string, string>)
    ensures var after := FallbackFiles(cwd, componentsAlias, utilsAlias, item, fs);
      forall p :: p in after && p !in fs ==> p in TargetPaths(cwd, componentsAlias, utilsAlias, item.files)
  {
    var targets := TargetPaths(cwd, componentsAlias, utilsAlias, item.files);
    var missing := MissingIndexes(targets, fs);
    var writes := FallbackWrites(item.files, targets, missing);
    var after := ApplyWrites(fs, writes);
    forall p | p in after && p !in fs
      ensures p in targets
    {
      var k :| 0 <= k < |writes| && writes[k].0 == p;
      assert writes[k].0 == targets[missing[k]];
    }
  }

  /** A new file receives the content of the last registry file aimed at it. */
  lemma FallbackWritesContent(cwd: string, componentsAlias: string, utilsAlias: string,
                              item: RegistryItem, fs: map<string, string>, i: nat)
    requires i < |item.files|
    requires TargetPath(cwd, componentsAlias, utilsAlias, item.files[i].path) !in fs
    requires forall j :: i < j < |item.files| ==>
      TargetPath(cwd, componentsAlias, utilsAlias, item.files[j].path) != TargetPath(cwd, componentsAlias, utilsAlias, item.files[i].path)
    ensures var after := FallbackFiles(cwd, componentsAlias, utilsAlias, item, fs);
      && TargetPath(cwd, componentsAlias, utilsAlias, item.files[i].path) in after
      && after[TargetPath(cwd, componentsAlias, utilsAlias, item.files[i].path)] == item.files[i].content
  {
    var targets := TargetPaths(cwd, componentsAlias, utilsAlias, item.files);
    var missing := MissingIndexes(targets, fs);
    var writes := FallbackWrites(item.files, targets, missing);
    var k :| 0 <= k < |missing| && missing[k] == i;
    forall j | k < j < |writes|
      ensures writes[j].0 != writes[k].0
    {
      assert missing[j] > i;
    }
    ApplyWritesLast(fs, writes, k);
  }

  /** Running the fallback again on its own result writes nothing. */
  lemma FallbackIdempotent(cwd: string, componentsAlias: string, utilsAlias: string,
                           item: RegistryItem, fs: map<string, string>)
    ensures var targets := TargetPaths(cwd, componentsAlias, utilsAlias, item.files);
      MissingIndexes(targets, FallbackFiles(cwd, componentsAlias, utilsAlias, item, fs)) == []
  {
    var targets := TargetPaths(cwd, componentsAlias, utilsAlias, item.files);
    var after := FallbackFiles(cwd, componentsAlias, utilsAlias, item, fs);
    FallbackCoversTargets(cwd, componentsAlias, utilsAlias, item, fs);
    forall i | 0 <= i < |targets|
      ensures targets[i] in after
    {
      assert targets[i] in targets;
    }
    NothingMissing(targets, after);
  }
}
