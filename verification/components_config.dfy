/** The `components.json` project configuration: its typed form, the schema it
    is decoded with (a declarative validity predicate over parsed JSON), the
    decoder, and the encoder the init command uses to write it. Excess keys are
    ignored by the decoder, as the schema library does by default. */
module ComponentsConfig {
  import opened Results
  import opened JsonValues

  datatype Style =
    | Default | NewYork
    | RadixVega | RadixNova | RadixMaia | RadixLyra | RadixMira
    | BaseVega | BaseNova | BaseMaia | BaseLyra | BaseMira

  /** The twelve accepted `style` literals, in schema order. */
  const StyleLiterals: seq<string> := [
    "default", "new-york",
    "radix-vega", "radix-nova", "radix-maia", "radix-lyra", "radix-mira",
    "base-vega", "base-nova", "base-maia", "base-lyra", "base-mira"
  ]

  function StyleName(s: Style): string {
    match s
    case Default => "default"
    case NewYork => "new-york"
    case RadixVega => "radix-vega"
    case RadixNova => "radix-nova"
    case RadixMaia => "radix-maia"
    case RadixLyra => "radix-lyra"
    case RadixMira => "radix-mira"
    case BaseVega => "base-vega"
    case BaseNova => "base-nova"
    case BaseMaia => "base-maia"
    case BaseLyra => "base-lyra"
    case BaseMira => "base-mira"
  }

  /** Decodes a `style` literal; exactly the twelve literals are accepted, and
      each decodes to the style whose name it is. */
  function ParseStyle(t: string): (r: Option<Style>)
    ensures r.Some? <==> t in StyleLiterals
    ensures r.Some? ==> StyleName(r.value) == t
  {
    if t == "default" then Some(Default)
    else if t == "new-york" then Some(NewYork)
    else if t == "radix-vega" then Some(RadixVega)
    else if t == "radix-nova" then Some(RadixNova)
    else if t == "radix-maia" then Some(RadixMaia)
    else if t == "radix-lyra" then Some(RadixLyra)
    else if t == "radix-mira" then Some(RadixMira)
    else if t == "base-vega" then Some(BaseVega)
    else if t == "base-nova" then Some(BaseNova)
    else if t == "base-maia" then Some(BaseMaia)
    else if t == "base-lyra" then Some(BaseLyra)
    else if t == "base-mira" then Some(BaseMira)
    else None
  }

  datatype Framework = React | Solid

  function FrameworkName(f: Framework): string {
    match f
    case React => "react"
    case Solid => "solid"
  }

  function ParseFramework(t: string): (r: Option<Framework>)
    ensures r.Some? <==> t in ["react", "solid"]
    ensures r.Some? ==> FrameworkName(r.value) == t
  {
    if t == "react" then Some(React) else if t == "solid" then Some(Solid) else None
  }

  datatype MenuColor = MenuDefault | Inverted

  function MenuColorName(m: MenuColor): string {
    match m
    case MenuDefault => "default"
    case Inverted => "inverted"
  }

  function ParseMenuColor(t: string): (r: Option<MenuColor>)
    ensures r.Some? <==> t in ["default", "inverted"]
    ensures r.Some? ==> MenuColorName(r.value) == t
  {
    if t == "default" then Some(MenuDefault) else if t == "inverted" then Some(Inverted) else None
  }

  datatype MenuAccent = Subtle | Bold

  function MenuAccentName(m: MenuAccent): string {
    match m
    case Subtle => "subtle"
    case Bold => "bold"
  }

  function ParseMenuAccent(t: string): (r: Option<MenuAccent>)
    ensures r.Some? <==> t in ["subtle", "bold"]
    ensures r.Some? ==> MenuAccentName(r.value) == t
  {
    if t == "subtle" then Some(Subtle) else if t == "bold" then Some(Bold) else None
  }

  datatype Tailwind = Tailwind(
    config: string, css: string, baseColor: string, cssVariables: bool, prefix: Option<string>)

  datatype Aliases = Aliases(
    utils: string, components: string, ui: Option<string>, lib: Option<string>, hooks: Option<string>)

  /** A `registries` entry: a bare URL template, or an endpoint with optional
      query parameters and headers. */
  datatype Registry =
    | RegistryUrl(url: string)
    | RegistryEndpoint(url: string, params: Option<map<string, string>>, headers: Option<map<string, string>>)

  datatype Arkitect = Arkitect(framework: Framework)

  datatype Config = Config(
    schema: string,
    style: Style,
    rsc: bool,
    tsx: Option<bool>,
    tailwind: Tailwind,
    aliases: Aliases,
    iconLibrary: Option<string>,
    menuColor: Option<MenuColor>,
    menuAccent: Option<MenuAccent>,
    rtl: Option<bool>,
    registries: Option<map<string, Registry>>,
    arkitect: Option<Arkitect>)

  // ---------------------------------------------------------------------------
  // The schema, as a predicate over parsed JSON

  predicate RequiredString(o: map<string, Json>, k: string) {
    k in o && o[k].JString?
  }

  predicate OptionalString(o: map<string, Json>, k: string) {
    k !in o || o[k].JString?
  }

  predicate RequiredBool(o: map<string, Json>, k: string) {
    k in o && o[k].JBool?
  }

  predicate OptionalBool(o: map<string, Json>, k: string) {
    k !in o || o[k].JBool?
  }

  predicate RequiredLiteral(o: map<string, Json>, k: string, literals: seq<string>) {
    k in o && o[k].JString? && o[k].s in literals
  }

  predicate OptionalLiteral(o: map<string, Json>, k: string, literals: seq<string>) {
    k !in o || (o[k].JString? && o[k].s in literals)
  }

  /** A string-to-string record. */
  predicate StringRecord(j: Json) {
    j.JObject? && forall k :: k in j.fields ==> j.fields[k].JString?
  }

  predicate OptionalStringRecord(o: map<string, Json>, k: string) {
    k !in o || StringRecord(o[k])
  }

  predicate ValidRegistry(j: Json) {
    || j.JString?
    || (&& j.JObject?
        && RequiredString(j.fields, "url")
        && OptionalStringRecord(j.fields, "params")
        && OptionalStringRecord(j.fields, "headers"))
  }

  predicate ValidTailwind(j: Json) {
    && j.JObject?
    && RequiredString(j.fields, "config")
    && RequiredString(j.fields, "css")
    && RequiredString(j.fields, "baseColor")
    && RequiredBool(j.fields, "cssVariables")
    && OptionalString(j.fields, "prefix")
  }

  predicate ValidAliases(j: Json) {
    && j.JObject?
    && RequiredString(j.fields, "utils")
    && RequiredString(j.fields, "components")
    && OptionalString(j.fields, "ui")
    && OptionalString(j.fields, "lib")
    && OptionalString(j.fields, "hooks")
  }

  predicate ValidRegistries(j: Json) {
    j.JObject? && forall k :: k in j.fields ==> ValidRegistry(j.fields[k])
  }

  predicate ValidArkitect(j: Json) {
    j.JObject? && RequiredLiteral(j.fields, "framework", ["react", "solid"])
  }

  /** `components.json` is accepted exactly when this holds. */
  predicate ValidConfig(j: Json) {
    && j.JObject?
    && var o := j.fields;
    && RequiredString(o, "$schema")
    && RequiredLiteral(o, "style", StyleLiterals)
    && RequiredBool(o, "rsc")
    && OptionalBool(o, "tsx")
    && "tailwind" in o && ValidTailwind(o["tailwind"])
    && "aliases" in o && ValidAliases(o["aliases"])
    && OptionalString(o, "iconLibrary")
    && OptionalLiteral(o, "menuColor", ["default", "inverted"])
    && OptionalLiteral(o, "menuAccent", ["subtle", "bold"])
    && OptionalBool(o, "rtl")
    && ("registries" !in o || ValidRegistries(o["registries"]))
    && ("arkitect" !in o || ValidArkitect(o["arkitect"]))
  }

  // ---------------------------------------------------------------------------
  // Decoding

  function GetString(o: map<string, Json>, k: string): Result<string, string> {
    if k in o && o[k].JString? then Success(o[k].s) else Failure("expected a string at " + k)
  }

  function GetBool(o: map<string, Json>, k: string): Result<bool, string> {
    if k in o && o[k].JBool? then Success(o[k].b) else Failure("expected a boolean at " + k)
  }

  function GetOptString(o: map<string, Json>, k: string): Result<Option<string>, string> {
    if k !in o then Success(None)
    else if o[k].JString? then Success(Some(o[k].s))
    else Failure("expected a string at " + k)
  }

  function GetOptBool(o: map<string, Json>, k: string): Result<Option<bool>, string> {
    if k !in o then Success(None)
    else if o[k].JBool? then Success(Some(o[k].b))
    else Failure("expected a boolean at " + k)
  }

  function DecodeStringRecord(j: Json): (r: Result<map<string, string>, string>)
    ensures r.Success? <==> StringRecord(j)
    ensures r.Success? ==> r.value.Keys == j.fields.Keys
  {
    if StringRecord(j) then Success(map k | k in j.fields :: j.fields[k].s)
    else Failure("expected a record of strings")
  }

  function GetOptStringRecord(o: map<string, Json>, k: string): Result<Option<map<string, string>>, string> {
    if k !in o then Success(None)
    else
      var m :- DecodeStringRecord(o[k]);
      Success(Some(m))
  }

  /** The union is tried in order: a string first, then the endpoint struct. */
  function DecodeRegistry(j: Json): (r: Result<Registry, string>)
    ensures r.Success? <==> ValidRegistry(j)
  {
    if j.JString? then Success(RegistryUrl(j.s))
    else if j.JObject? then
      var url :- GetString(j.fields, "url");
      var params :- GetOptStringRecord(j.fields, "params");
      var headers :- GetOptStringRecord(j.fields, "headers");
      Success(RegistryEndpoint(url, params, headers))
    else Failure("expected a registry URL or endpoint")
  }

  function DecodeRegistries(j: Json): (r: Result<map<string, Registry>, string>)
    ensures r.Success? <==> ValidRegistries(j)
  {
    if j.JObject? && forall k :: k in j.fields ==> DecodeRegistry(j.fields[k]).Success? then
      Success(map k | k in j.fields :: DecodeRegistry(j.fields[k]).value)
    else Failure("expected a record of registries")
  }

  function DecodeTailwind(j: Json): (r: Result<Tailwind, string>)
    ensures r.Success? <==> ValidTailwind(j)
  {
    if !j.JObject? then Failure("expected a tailwind object")
    else
      var o := j.fields;
      var config :- GetString(o, "config");
      var css :- GetString(o, "css");
      var baseColor :- GetString(o, "baseColor");
      var cssVariables :- GetBool(o, "cssVariables");
      var prefix :- GetOptString(o, "prefix");
      Success(Tailwind(config, css, baseColor, cssVariables, prefix))
  }

  function DecodeAliases(j: Json): (r: Result<Aliases, string>)
    ensures r.Success? <==> ValidAliases(j)
  {
    if !j.JObject? then Failure("expected an aliases object")
    else
      var o := j.fields;
      var utils :- GetString(o, "utils");
      var components :- GetString(o, "components");
      var ui :- GetOptString(o, "ui");
      var lib :- GetOptString(o, "lib");
      var hooks :- GetOptString(o, "hooks");
      Success(Aliases(utils, components, ui, lib, hooks))
  }

  function DecodeArkitect(j: Json): (r: Result<Arkitect, string>)
    ensures r.Success? <==> ValidArkitect(j)
  {
    if !j.JObject? then Failure("expected an arkitect object")
    else
      var name :- GetString(j.fields, "framework");
      match ParseFramework(name)
      case Some(f) => Success(Arkitect(f))
      case None => Failure("expected react or solid")
  }

  function DecodeLiteral<T>(o: map<string, Json>, k: string, parse: string -> Option<T>): Result<Option<T>, string> {
    if k !in o then Success(None)
    else if !o[k].JString? then Failure("expected a literal at " + k)
    else match parse(o[k].s)
      case Some(v) => Success(Some(v))
      case None => Failure("unexpected literal at " + k)
  }

  function DecodeStyle(o: map<string, Json>): (r: Result<Style, string>)
    ensures r.Success? <==> RequiredLiteral(o, "style", StyleLiterals)
  {
    var name :- GetString(o, "style");
    match ParseStyle(name)
    case Some(s) => Success(s)
    case None => Failure("unexpected style")
  }

  function DecodeOptRegistries(o: map<string, Json>): (r: Result<Option<map<string, Registry>>, string>)
    ensures r.Success? <==> ("registries" !in o || ValidRegistries(o["registries"]))
  {
    if "registries" in o then
      var m :- DecodeRegistries(o["registries"]);
      Success(Some(m))
    else Success(None)
  }

  function DecodeOptArkitect(o: map<string, Json>): (r: Result<Option<Arkitect>, string>)
    ensures r.Success? <==> ("arkitect" !in o || ValidArkitect(o["arkitect"]))
  {
    if "arkitect" in o then
      var a :- DecodeArkitect(o["arkitect"]);
      Success(Some(a))
    else Success(None)
  }

  /** The fields every configuration has. */
  datatype Required = Required(schema: string, style: Style, rsc: bool, tailwind: Tailwind, aliases: Aliases)

  /** The fields a configuration may omit. */
  datatype Optional = Optional(
    tsx: Option<bool>, iconLibrary: Option<string>, menuColor: Option<MenuColor>,
    menuAccent: Option<MenuAccent>, rtl: Option<bool>,
    registries: Option<map<string, Registry>>, arkitect: Option<Arkitect>)

  function DecodeRequired(o: map<string, Json>): (r: Result<Required, string>)
    ensures r.Success? <==>
      && RequiredString(o, "$schema") && RequiredLiteral(o, "style", StyleLiterals)
      && RequiredBool(o, "rsc")
      && "tailwind" in o && ValidTailwind(o["tailwind"])
      && "aliases" in o && ValidAliases(o["aliases"])
  {
    var schema :- GetString(o, "$schema");
    var style :- DecodeStyle(o);
    var rsc :- GetBool(o, "rsc");
    var tailwind :- if "tailwind" in o then DecodeTailwind(o["tailwind"]) else Failure("missing tailwind");
    var aliases :- if "aliases" in o then DecodeAliases(o["aliases"]) else Failure("missing aliases");
    Success(Required(schema, style, rsc, tailwind, aliases))
  }

  function DecodeOptional(o: map<string, Json>): (r: Result<Optional, string>)
    ensures r.Success? <==>
      && OptionalBool(o, "tsx")
      && OptionalString(o, "iconLibrary")
      && OptionalLiteral(o, "menuColor", ["default", "inverted"])
      && OptionalLiteral(o, "menuAccent", ["subtle", "bold"])
      && OptionalBool(o, "rtl")
      && ("registries" !in o || ValidRegistries(o["registries"]))
      && ("arkitect" !in o || ValidArkitect(o["arkitect"]))
  {
    var tsx :- GetOptBool(o, "tsx");
    var iconLibrary :- GetOptString(o, "iconLibrary");
    var menuColor :- DecodeLiteral(o, "menuColor", ParseMenuColor);
    var menuAccent :- DecodeLiteral(o, "menuAccent", ParseMenuAccent);
    var rtl :- GetOptBool(o, "rtl");
    var registries :- DecodeOptRegistries(o);
    var arkitect :- DecodeOptArkitect(o);
    Success(Optional(tsx, iconLibrary, menuColor, menuAccent, rtl, registries, arkitect))
  }

  function Assemble(q: Required, p: Optional): Config {
    Config(q.schema, q.style, q.rsc, p.tsx, q.tailwind, q.aliases, p.iconLibrary,
           p.menuColor, p.menuAccent, p.rtl, p.registries, p.arkitect)
  }

  /** Decodes `components.json`: succeeds exactly on documents the schema accepts. */
  function Decode(j: Json): (r: Result<Config, string>)
    ensures r.Success? <==> ValidConfig(j)
  {
    if !j.JObject? then Failure("expected an object")
    else
      var q :- DecodeRequired(j.fields);
      var p :- DecodeOptional(j.fields);
      Success(Assemble(q, p))
  }

  // ---------------------------------------------------------------------------
  // Encoding

  /** An object whose absent optional members are left out. */
  function Compact(m: map<string, Option<Json>>): map<string, Json> {
    map k | k in m && m[k].Some? :: m[k].value
  }

  function OptJString(v: Option<string>): Option<Json> {
    match v
    case Some(s) => Some(JString(s))
    case None => None
  }

  function OptJBool(v: Option<bool>): Option<Json> {
    match v
    case Some(b) => Some(JBool(b))
    case None => None
  }

  function EncodeStringRecord(m: map<string, string>): Json {
    JObject(map k | k in m :: JString(m[k]))
  }

  function OptJRecord(v: Option<map<string, string>>): Option<Json> {
    match v
    case Some(m) => Some(EncodeStringRecord(m))
    case None => None
  }

  function EncodeRegistry(r: Registry): Json {
    match r
    case RegistryUrl(url) => JString(url)
    case RegistryEndpoint(url, params, headers) =>
      JObject(Compact(map["url" := Some(JString(url)), "params" := OptJRecord(params),
                          "headers" := OptJRecord(headers)]))
  }

  function EncodeTailwind(t: Tailwind): Json {
    JObject(Compact(map[
      "config" := Some(JString(t.config)), "css" := Some(JString(t.css)),
      "baseColor" := Some(JString(t.baseColor)), "cssVariables" := Some(JBool(t.cssVariables)),
      "prefix" := OptJString(t.prefix)]))
  }

  function EncodeAliases(a: Aliases): Json {
    JObject(Compact(map[
      "utils" := Some(JString(a.utils)), "components" := Some(JString(a.components)),
      "ui" := OptJString(a.ui), "lib" := OptJString(a.lib), "hooks" := OptJString(a.hooks)]))
  }

  function EncodeRegistries(v: Option<map<string, Registry>>): Option<Json> {
    match v
    case Some(m) => Some(JObject(map k | k in m :: EncodeRegistry(m[k])))
    case None => None
  }

  function EncodeArkitect(v: Option<Arkitect>): Option<Json> {
    match v
    case Some(a) => Some(JObject(map["framework" := JString(FrameworkName(a.framework))]))
    case None => None
  }

  function EncodeMenuColor(v: Option<MenuColor>): Option<Json> {
    match v
    case Some(m) => Some(JString(MenuColorName(m)))
    case None => None
  }

  function EncodeMenuAccent(v: Option<MenuAccent>): Option<Json> {
    match v
    case Some(m) => Some(JString(MenuAccentName(m)))
    case None => None
  }

  function Members(c: Config): map<string, Option<Json>> {
    map[
      "$schema" := Some(JString(c.schema)),
      "style" := Some(JString(StyleName(c.style))),
      "rsc" := Some(JBool(c.rsc)),
      "tsx" := OptJBool(c.tsx),
      "tailwind" := Some(EncodeTailwind(c.tailwind)),
      "aliases" := Some(EncodeAliases(c.aliases)),
      "iconLibrary" := OptJString(c.iconLibrary),
      "menuColor" := EncodeMenuColor(c.menuColor),
      "menuAccent" := EncodeMenuAccent(c.menuAccent),
      "rtl" := OptJBool(c.rtl),
      "registries" := EncodeRegistries(c.registries),
      "arkitect" := EncodeArkitect(c.arkitect)]
  }

  function Encode(c: Config): Json {
    JObject(Compact(Members(c)))
  }

  // ---------------------------------------------------------------------------
  // Properties

  lemma StringRecordRoundTrip(m: map<string, string>)
    ensures DecodeStringRecord(EncodeStringRecord(m)) == Success(m)
  {
    var j := EncodeStringRecord(m);
    assert StringRecord(j);
    assert (map k | k in j.fields :: j.fields[k].s) == m;
  }

  lemma RegistryRoundTrip(r: Registry)
    ensures DecodeRegistry(EncodeRegistry(r)) == Success(r)
  {
    match r
    case RegistryUrl(_) =>
    case RegistryEndpoint(url, params, headers) =>
      if params.Some? { StringRecordRoundTrip(params.value); }
      if headers.Some? { StringRecordRoundTrip(headers.value); }
  }

  lemma RegistriesRoundTrip(m: map<string, Registry>)
    ensures DecodeRegistries(JObject(map k | k in m :: EncodeRegistry(m[k]))) == Success(m)
  {
    var j := JObject(map k | k in m :: EncodeRegistry(m[k]));
    forall k | k in j.fields
      ensures DecodeRegistry(j.fields[k]) == Success(m[k])
    {
      RegistryRoundTrip(m[k]);
    }
    assert (map k | k in j.fields :: DecodeRegistry(j.fields[k]).value) == m;
  }

  /** What the init command writes is read back unchanged by the installer:
      decoding an encoded configuration gives the configuration again. */
  lemma DecodeEncode(c: Config)
    ensures Decode(Encode(c)) == Success(c)
  {
    var o := Encode(c).fields;
    DecodeRequiredEncode(c);
    DecodeOptionalEncode(c);
  }

  lemma DecodeRequiredEncode(c: Config)
    ensures DecodeRequired(Encode(c).fields) == Success(Required(c.schema, c.style, c.rsc, c.tailwind, c.aliases))
  {
    var o := Encode(c).fields;
    EncodedStyle(c);
    EncodedStructs(c);
    TailwindRoundTrip(c.tailwind);
    AliasesRoundTrip(c.aliases);
    EncodedRequiredScalars(c);
    DecodeRequiredFrom(o, Required(c.schema, c.style, c.rsc, c.tailwind, c.aliases));
  }

  lemma EncodedRequiredScalars(c: Config)
    ensures GetString(Encode(c).fields, "$schema") == Success(c.schema)
    ensures GetBool(Encode(c).fields, "rsc") == Success(c.rsc)
  {
  }

  lemma DecodeRequiredFrom(o: map<string, Json>, q: Required)
    requires GetString(o, "$schema") == Success(q.schema)
    requires DecodeStyle(o) == Success(q.style)
    requires GetBool(o, "rsc") == Success(q.rsc)
    requires "tailwind" in o && DecodeTailwind(o["tailwind"]) == Success(q.tailwind)
    requires "aliases" in o && DecodeAliases(o["aliases"]) == Success(q.aliases)
    ensures DecodeRequired(o) == Success(q)
  {
  }

  lemma EncodedStyle(c: Config)
    ensures DecodeStyle(Encode(c).fields) == Success(c.style)
  {
    assert GetString(Encode(c).fields, "style") == Success(StyleName(c.style));
    match c.style
    case Default => case NewYork =>
    case RadixVega => case RadixNova => case RadixMaia => case RadixLyra => case RadixMira =>
    case BaseVega => case BaseNova => case BaseMaia => case BaseLyra => case BaseMira =>
  }

  lemma TailwindRoundTrip(t: Tailwind)
    ensures DecodeTailwind(EncodeTailwind(t)) == Success(t)
  {
  }

  lemma AliasesRoundTrip(a: Aliases)
    ensures DecodeAliases(EncodeAliases(a)) == Success(a)
  {
  }

  lemma EncodedStructs(c: Config)
    ensures "tailwind" in Encode(c).fields && Encode(c).fields["tailwind"] == EncodeTailwind(c.tailwind)
    ensures "aliases" in Encode(c).fields && Encode(c).fields["aliases"] == EncodeAliases(c.aliases)
  {
  }

  lemma EncodedLiterals(c: Config)
    ensures DecodeLiteral(Encode(c).fields, "menuColor", ParseMenuColor) == Success(c.menuColor)
    ensures DecodeLiteral(Encode(c).fields, "menuAccent", ParseMenuAccent) == Success(c.menuAccent)
  {
    var o := Encode(c).fields;
    if c.menuColor.Some? { assert o["menuColor"] == JString(MenuColorName(c.menuColor.value)); }
    if c.menuAccent.Some? { assert o["menuAccent"] == JString(MenuAccentName(c.menuAccent.value)); }
  }

  lemma EncodedRegistries(c: Config)
    ensures DecodeOptRegistries(Encode(c).fields) == Success(c.registries)
    ensures DecodeOptArkitect(Encode(c).fields) == Success(c.arkitect)
  {
    var o := Encode(c).fields;
    if c.registries.Some? {
      assert o["registries"] == JObject(map k | k in c.registries.value :: EncodeRegistry(c.registries.value[k]));
      RegistriesRoundTrip(c.registries.value);
    } else {
      assert "registries" !in o;
    }
    if c.arkitect.Some? {
      assert DecodeArkitect(o["arkitect"]) == Success(c.arkitect.value);
    } else {
      assert "arkitect" !in o;
    }
  }

  lemma EncodedScalars(c: Config)
    ensures GetOptBool(Encode(c).fields, "tsx") == Success(c.tsx)
    ensures GetOptString(Encode(c).fields, "iconLibrary") == Success(c.iconLibrary)
    ensures GetOptBool(Encode(c).fields, "rtl") == Success(c.rtl)
  {
  }

  lemma DecodeOptionalEncode(c: Config)
    ensures DecodeOptional(Encode(c).fields) ==
      Success(Optional(c.tsx, c.iconLibrary, c.menuColor, c.menuAccent, c.rtl, c.registries, c.arkitect))
  {
    EncodedScalars(c);
    EncodedLiterals(c);
    EncodedRegistries(c);
  }

  /** Every configuration the encoder produces satisfies the schema. */
  lemma EncodeValid(c: Config)
    ensures ValidConfig(Encode(c))
  {
    DecodeEncode(c);
  }

  /** `aliases.components` is required: a document without it is rejected,
      whatever else it holds. */
  lemma MissingComponentsRejected(j: Json)
    requires j.JObject? && "aliases" in j.fields
    requires j.fields["aliases"].JObject? && "components" !in j.fields["aliases"].fields
    ensures Decode(j).Failure?
  {
  }

  /** A `menuColor` that is not one of the strings `default` and `inverted`
      (such as "purple", or a number) is rejected, whatever else the
      document holds. */
  lemma MenuColorRejected(j: Json)
    requires j.JObject? && "menuColor" in j.fields
    requires !(j.fields["menuColor"].JString? && j.fields["menuColor"].s in ["default", "inverted"])
    ensures Decode(j).Failure?
  {
  }

  /** A registry given as an object must carry a `url`. */
  lemma RegistryWithoutUrlRejected(j: Json, name: string)
    requires j.JObject? && "registries" in j.fields && j.fields["registries"].JObject?
    requires name in j.fields["registries"].fields
    requires j.fields["registries"].fields[name].JObject?
    requires "url" !in j.fields["registries"].fields[name].fields
    ensures Decode(j).Failure?
  {
  }

  /** `arkitect.framework`, when `arkitect` is present, must be react or solid. */
  lemma ArkitectFrameworkChecked(j: Json)
    requires j.JObject? && "arkitect" in j.fields
    requires Decode(j).Success?
    ensures Decode(j).value.arkitect.Some?
    ensures j.fields["arkitect"].fields["framework"].s in ["react", "solid"]
  {
  }

  /** The smallest accepted document: every optional field omitted. */
  const MinimalDocument: Json := JObject(map[
    "$schema" := JString("https://ui.shadcn.com/schema.json"),
    "style" := JString("default"),
    "rsc" := JBool(true),
    "tailwind" := JObject(map[
      "config" := JString("tailwind.config.ts"),
      "css" := JString("src/styles/globals.css"),
      "baseColor" := JString("neutral"),
      "cssVariables" := JBool(true)]),
    "aliases" := JObject(map[
      "utils" := JString("@/lib/utils"),
      "components" := JString("@/components")])])

  /** Omitting `tsx`, `tailwind.prefix`, `iconLibrary`, `rtl` and the other
      optional fields is accepted; they decode as absent. */
  lemma OptionalFieldsMayBeOmitted()
    ensures Decode(MinimalDocument).Success?
    ensures var c := Decode(MinimalDocument).value;
      c.tsx.None? && c.tailwind.prefix.None? && c.iconLibrary.None? && c.rtl.None?
      && c.menuColor.None? && c.registries.None? && c.arkitect.None?
      && c.aliases == Aliases("@/lib/utils", "@/components", None, None, None)
  {
    var o := MinimalDocument.fields;
    var tailwind := Tailwind("tailwind.config.ts", "src/styles/globals.css", "neutral", true, None);
    var aliases := Aliases("@/lib/utils", "@/components", None, None, None);
    assert DecodeTailwind(o["tailwind"]) == Success(tailwind);
    assert DecodeAliases(o["aliases"]) == Success(aliases);
    assert DecodeStyle(o) == Success(Default);
    DecodeRequiredFrom(o, Required("https://ui.shadcn.com/schema.json", Default, true, tailwind, aliases));
    assert "tsx" !in o && "iconLibrary" !in o && "menuColor" !in o && "menuAccent" !in o;
    assert "rtl" !in o && "registries" !in o && "arkitect" !in o;
    assert DecodeOptional(o) == Success(Optional(None, None, None, None, None, None, None));
  }
}
