/** The registry post-processing step that rewrites every file path of a built
    registry document from its location in the monorepo to the logical
    `ui/...` / `lib/...` form that the installer understands. Reading and
    writing the JSON files is not modelled; the document is given parsed. */
module RegistryFixPaths {
  import opened Results
  import opened Strings
  import opened JsonValues

  const ReactUi: string := "packages/react/src/components/ui/"
  const SolidUi: string := "packages/solid/src/components/ui/"
  const SharedLib: string := "packages/shared/src/lib/"

  /** The three first-occurrence replacements, in source order. */
  function FixPath(p: string): string {
    var a := ReplaceFirst(p, ReactUi, "ui/");
    var b := ReplaceFirst(a, SolidUi, "ui/");
    ReplaceFirst(b, SharedLib, "lib/")
  }

  /** One file entry: `{...f, path: fixed}`. Reading `.path` of anything that is
      not an object holding a string path throws a TypeError in the script. */
  function FixEntry(f: Json): (r: Result<Json, string>)
    ensures r.Success? <==> f.JObject? && "path" in f.fields && f.fields["path"].JString?
    ensures r.Success? ==> r.value.JObject? && r.value.fields.Keys == f.fields.Keys
    ensures r.Success? ==> r.value.fields["path"] == JString(FixPath(f.fields["path"].s))
    ensures r.Success? ==> forall k :: k in f.fields && k != "path" ==> r.value.fields[k] == f.fields[k]
  {
    if f.JObject? && "path" in f.fields && f.fields["path"].JString? then
      Success(JObject(f.fields["path" := JString(FixPath(f.fields["path"].s))]))
    else Failure("TypeError: file path is not a string")
  }

  /** `json.files.map(...)`: every entry rewritten, in order. */
  function FixEntries(files: seq<Json>): (r: Result<seq<Json>, string>)
    ensures r.Success? <==> forall i :: 0 <= i < |files| ==> FixEntry(files[i]).Success?
    ensures r.Success? ==> |r.value| == |files|
    ensures r.Success? ==> forall i :: 0 <= i < |files| ==> r.value[i] == FixEntry(files[i]).value
  {
    if |files| == 0 then Success([])
    else
      var head :- FixEntry(files[0]);
      var tail :- FixEntries(files[1..]);
      assert forall i :: 1 <= i < |files| ==> files[i] == files[1..][i - 1];
      Success([head] + tail)
  }

  /** `fixFile` on a parsed document. Only an object with a `files` array is
      changed; reading `files` of `null` throws. */
  function FixDocument(doc: Json): (r: Result<Json, string>)
    ensures doc.JNull? ==> r.Failure?
    ensures !doc.JNull? && !(doc.JObject? && "files" in doc.fields && doc.fields["files"].JArray?) ==> r == Success(doc)
  {
    match doc
    case JNull => Failure("TypeError: cannot read files of null")
    case JObject(o) =>
      if "files" in o && o["files"].JArray? then
        var files :- FixEntries(o["files"].items);
        Success(JObject(o["files" := JArray(files)]))
      else Success(doc)
    case _ => Success(doc)
  }

  /** On a document with a `files` array: the number and order of entries is
      kept, each entry keeps every field but `path`, each path is rewritten, and
      the rest of the document is untouched. */
  lemma FixDocumentPreservesEntries(doc: Json)
    requires doc.JObject? && "files" in doc.fields && doc.fields["files"].JArray?
    requires FixDocument(doc).Success?
    ensures var files := doc.fields["files"].items;
      var out := FixDocument(doc).value;
      && out.JObject? && out.fields.Keys == doc.fields.Keys
      && (forall k :: k in doc.fields && k != "files" ==> out.fields[k] == doc.fields[k])
      && out.fields["files"].JArray? && |out.fields["files"].items| == |files|
      && forall i :: 0 <= i < |files| ==>
           && out.fields["files"].items[i].JObject?
           && out.fields["files"].items[i].fields.Keys == files[i].fields.Keys
           && out.fields["files"].items[i].fields["path"] == JString(FixPath(files[i].fields["path"].s))
           && forall k :: k in files[i].fields && k != "path" ==>
                out.fields["files"].items[i].fields[k] == files[i].fields[k]
  {
    var files := doc.fields["files"].items;
    assert FixEntries(files).Success?;
  }

  /** A replacement whose pattern begins with a character absent from `pre`
      cannot touch a leading `pre`. */
  lemma ReplaceKeepsPrefix(s: string, pattern: string, replacement: string, pre: string)
    requires StartsWith(s, pre) && |pattern| > 0 && pattern[0] !in pre
    ensures StartsWith(ReplaceFirst(s, pattern, replacement), pre)
  {
    match IndexOf(s, pattern)
    case None =>
    case Some(i) =>
      assert s[i] == pattern[0];
      assert StartsWith(s[..i], pre);
  }

  /** No occurrence can start inside a prefix that lacks the pattern's first character. */
  lemma AbsentAfterPrefix(pre: string, x: string, pattern: string)
    requires |pattern| > 0 && pattern[0] !in pre && !Contains(x, pattern)
    ensures !Contains(pre + x, pattern)
  {
    var s := pre + x;
    if Contains(s, pattern) {
      var i: nat :| i <= |s| && OccursAt(s, pattern, i);
      assert s[i] == pattern[0];
      if i >= |pre| {
        assert s[i..i + |pattern|] == x[i - |pre|..i - |pre| + |pattern|];
        assert OccursAt(x, pattern, i - |pre|);
      }
    }
  }

  /** A path without any of the three source directories is left unchanged. */
  lemma FixPathIdentity(p: string)
    requires !Contains(p, ReactUi) && !Contains(p, SolidUi) && !Contains(p, SharedLib)
    ensures FixPath(p) == p
  {
  }

  /** A React component path is rewritten into the installer's `ui/` form. */
  lemma ReactComponentBecomesUi(p: string)
    requires StartsWith(p, ReactUi)
    ensures StartsWith(FixPath(p), "ui/")
  {
    ReplacePrefix(p, ReactUi, "ui/");
    var a := ReplaceFirst(p, ReactUi, "ui/");
    ReplaceKeepsPrefix(a, SolidUi, "ui/", "ui/");
    ReplaceKeepsPrefix(ReplaceFirst(a, SolidUi, "ui/"), SharedLib, "lib/", "ui/");
  }

  /** A Solid component path is rewritten into the `ui/` form, provided it does
      not also mention the React directory (which would be replaced first). */
  lemma SolidComponentBecomesUi(p: string)
    requires StartsWith(p, SolidUi) && !Contains(p, ReactUi)
    ensures StartsWith(FixPath(p), "ui/")
  {
    ReplacePrefix(p, SolidUi, "ui/");
    var b := ReplaceFirst(p, SolidUi, "ui/");
    ReplaceKeepsPrefix(b, SharedLib, "lib/", "ui/");
  }

  /** A shared library path is rewritten into the `lib/` form, provided neither
      component directory occurs in it. */
  lemma SharedLibBecomesLib(p: string)
    requires StartsWith(p, SharedLib) && !Contains(p, ReactUi) && !Contains(p, SolidUi)
    ensures StartsWith(FixPath(p), "lib/")
  {
    ReplacePrefix(p, SharedLib, "lib/");
  }

  /** Exactly the directory prefix is replaced when the rest of the path
      mentions none of the three directories. */
  lemma ReactComponentExact(x: string)
    requires !Contains(x, SolidUi) && !Contains(x, SharedLib)
    ensures FixPath(ReactUi + x) == "ui/" + x
  {
    ReplacePrefix(ReactUi + x, ReactUi, "ui/");
    assert (ReactUi + x)[|ReactUi|..] == x;
    AbsentAfterPrefix("ui/", x, SolidUi);
    AbsentAfterPrefix("ui/", x, SharedLib);
  }

  lemma SolidComponentExact(x: string)
    requires !Contains(SolidUi + x, ReactUi) && !Contains(x, SharedLib)
    ensures FixPath(SolidUi + x) == "ui/" + x
  {
    ReplacePrefix(SolidUi + x, SolidUi, "ui/");
    assert (SolidUi + x)[|SolidUi|..] == x;
    AbsentAfterPrefix("ui/", x, SharedLib);
  }
}
