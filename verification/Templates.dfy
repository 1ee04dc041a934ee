/** Document templates: validation, rendering, and the admission checks of the worker that compiles the result. */
module Templates {
  import opened Json
  import opened Text
  import opened Graphs
  import opened Escaping
  import opened Substitution

  const MAX_PROJECT_BYTES: nat := 2 * 1024 * 1024
  const USIZE_MAX: nat := 0xFFFF_FFFF_FFFF_FFFF

  /** The content of an asset: a well-formed UTF-8 text, or bytes that are not. */
  datatype Data = Utf8(text: string) | Binary(bytes: seq<bv8>)

  function Size(d: Data): nat {
    match d
    case Utf8(text) => ByteLength(text)
    case Binary(bytes) => |bytes|
  }

  datatype Asset = Asset(path: string, data: Data)

  datatype VariableKind = TextKind | IntegerKind | BooleanKind | ChoiceKind

  datatype Variable = Variable(kind: VariableKind, required: bool, choices: seq<string>)

  datatype Scope = Personal | Project | Tenant | Plugin

  datatype Template = Template(
    id: string,
    name: string,
    description: string,
    scope: Scope,
    owner: string,
    project: Option<string>,
    plugin: Option<string>,
    entrypoint: string,
    assets: seq<Asset>,
    variables: map<string, Variable>)

  datatype Document = Document(variables: map<string, Value>, source: Option<string>)

  datatype Rendered = Rendered(entrypoint: string, assets: seq<Asset>)

  function SaturatingAdd(a: nat, b: nat): (r: nat)
    ensures r <= MAX_PROJECT_BYTES <==> a + b <= MAX_PROJECT_BYTES
    ensures r <= MAX_PROJECT_BYTES ==> r == a + b
  {
    if a + b <= USIZE_MAX then a + b else USIZE_MAX
  }

  // ---- paths ---------------------------------------------------------------

  predicate Segment(s: string) {
    s != "" && s[0] != '.'
  }

  /** The parts of a path between slashes. */
  function Parts(path: string): (r: seq<string>)
    ensures |r| > 0
  {
    if path == "" then [""]
    else
      var rest := Parts(path[1..]);
      if path[0] == '/' then [""] + rest else [[path[0]] + rest[0]] + rest[1..]
  }

  /** What follows the last dot. */
  function Extension(path: string): Option<string> {
    if path == "" then None
    else
      var rest := Extension(path[1..]);
      if rest.Some? then rest
      else if path[0] == '.' then Some(path[1..])
      else None
  }

  predicate PathChar(c: char) {
    AsciiAlphanumeric(c) || c in {'_', '-', '.', '/'}
  }

  const EXTENSIONS := {"tex", "cls", "sty", "bib", "bst", "png", "jpg", "jpeg", "pdf", "ttf", "otf"}

  predicate PathOk(path: string) {
    && 0 < ByteLength(path) <= 192
    && (forall part :: part in Parts(path) ==> Segment(part))
    && (forall i :: 0 <= i < |path| ==> PathChar(path[i]))
    && Extension(path).Some? && Extension(path).value in EXTENSIONS
  }

  // ---- templates -----------------------------------------------------------

  predicate HexId(s: string, n: nat) {
    |s| == n && forall i :: 0 <= i < |s| ==> '0' <= s[i] <= '9' || 'a' <= s[i] <= 'f'
  }

  predicate PluginId(s: string) {
    0 < ByteLength(s) <= 64 && forall i :: 0 <= i < |s| ==> AsciiAlphanumeric(s[i]) || s[i] == '-' || s[i] == '_'
  }

  predicate ScopeOk(t: Template) {
    match t.scope
    case Personal => t.project.None? && t.plugin.None?
    case Tenant => t.project.None? && t.plugin.None?
    case Project => t.project.Some? && HexId(t.project.value, 32) && t.plugin.None?
    case Plugin => t.project.None? && t.plugin.Some? && PluginId(t.plugin.value)
  }

  predicate MetadataOk(t: Template) {
    && HexId(t.id, 32)
    && !Blank(t.name) && ByteLength(t.name) <= 256 && ByteLength(t.description) <= 4096
    && 0 < ByteLength(t.owner) <= 256
    && ScopeOk(t)
    && 0 < |t.assets| <= 64 && |t.variables| <= 64
  }

  predicate VariableOk(name: string, v: Variable) {
    && 0 < ByteLength(name) <= 64
    && (forall i :: 0 <= i < |name| ==> AsciiAlphanumeric(name[i]) || name[i] == '_')
    && |v.choices| <= 64
    && forall c :: c in v.choices ==> ByteLength(c) <= 256
  }

  function TotalSize(assets: seq<Asset>): nat {
    if assets == [] then 0 else TotalSize(assets[..|assets| - 1]) + Size(assets[|assets| - 1].data)
  }

  ghost function Paths(assets: seq<Asset>): set<string> {
    set a | a in assets :: a.path
  }

  predicate Unique(assets: seq<Asset>) {
    forall i, j :: 0 <= i < j < |assets| ==> assets[i].path != assets[j].path
  }

  /** Files that fit together: good paths, none twice, and no more bytes than a project may have. */
  ghost predicate FilesOk(assets: seq<Asset>, already: nat) {
    && (forall a :: a in assets ==> PathOk(a.path))
    && Unique(assets)
    && already + TotalSize(assets) <= 2_097_152
  }

  ghost predicate TemplateOk(t: Template) {
    && MetadataOk(t)
    && PathOk(t.entrypoint) && Extension(t.entrypoint) == Some("tex")
    && FilesOk(t.assets, 0)
    && t.entrypoint in Paths(t.assets)
    && forall name :: name in t.variables ==> VariableOk(name, t.variables[name])
  }

  lemma {:induction false} SizeGrows(assets: seq<Asset>, n: nat)
    requires n <= |assets|
    ensures TotalSize(assets[..n]) <= TotalSize(assets)
  {
    if n == |assets| {
      assert assets[..n] == assets;
    } else {
      var front := assets[..|assets| - 1];
      assert front[..n] == assets[..n];
      SizeGrows(front, n);
    }
  }

  lemma OneMoreFile(assets: seq<Asset>, i: nat)
    requires i < |assets|
    ensures Paths(assets[..i + 1]) == Paths(assets[..i]) + {assets[i].path}
    ensures TotalSize(assets[..i + 1]) == TotalSize(assets[..i]) + Size(assets[i].data)
    ensures Unique(assets[..i]) ==> (Unique(assets[..i + 1]) <==> assets[i].path !in Paths(assets[..i]))
    ensures assets[i].path in Paths(assets[..i]) ==> !Unique(assets)
  {
    assert assets[..i + 1] == assets[..i] + [assets[i]];
    assert assets[..i + 1][..i] == assets[..i];
    if assets[i].path in Paths(assets[..i]) {
      var a :| a in assets[..i] && a.path == assets[i].path;
      var j :| 0 <= j < i && assets[j] == a;
      assert assets[..i + 1][j] == a && assets[..i + 1][i] == assets[i];
    } else {
      forall j | 0 <= j < i ensures assets[j].path != assets[i].path {
        assert assets[..i][j] in assets[..i];
      }
    }
  }

  /** The accumulating checks over assets, shared by templates and by the worker. */
  method CheckFiles(assets: seq<Asset>, already: nat) returns (ok: bool, paths: set<string>)
    requires already <= MAX_PROJECT_BYTES
    ensures ok <==> FilesOk(assets, already)
    ensures ok ==> paths == Paths(assets)
  {
    hide PathOk;
    paths := {};
    var size := already;
    for i := 0 to |assets|
      invariant forall j :: 0 <= j < i ==> PathOk(assets[j].path)
      invariant Unique(assets[..i]) && paths == Paths(assets[..i])
      invariant size == already + TotalSize(assets[..i]) <= MAX_PROJECT_BYTES
    {
      OneMoreFile(assets, i);
      if !PathOk(assets[i].path) {
        assert assets[i] in assets;
        return false, paths;
      }
      if assets[i].path in paths {
        return false, paths;
      }
      paths := paths + {assets[i].path};
      size := SaturatingAdd(size, Size(assets[i].data));
      if size > MAX_PROJECT_BYTES {
        SizeGrows(assets, i + 1);
        return false, paths;
      }
    }
    assert assets[..|assets|] == assets;
    ok := true;
  }

  method Validate(t: Template) returns (ok: bool)
    ensures ok <==> TemplateOk(t)
  {
    hide PathOk, FilesOk, MetadataOk, VariableOk, Extension;
    if !MetadataOk(t) || !PathOk(t.entrypoint) || Extension(t.entrypoint) != Some("tex") {
      return false;
    }
    var files, paths := CheckFiles(t.assets, 0);
    if !files || t.entrypoint !in paths {
      return false;
    }
    ok := forall name :: name in t.variables ==> VariableOk(name, t.variables[name]);
  }

  // ---- the worker ----------------------------------------------------------

  /** What the worker admits. */
  ghost predicate WorkerOk(project: Rendered) {
    && |project.assets| <= 63
    && ByteLength(project.entrypoint) <= 2_097_152
    && FilesOk(project.assets, ByteLength(project.entrypoint))
  }

  method Admit(project: Rendered) returns (ok: bool)
    ensures ok <==> WorkerOk(project)
  {
    hide FilesOk;
    if |project.assets| > 63 || ByteLength(project.entrypoint) > MAX_PROJECT_BYTES {
      return false;
    }
    var paths;
    ok, paths := CheckFiles(project.assets, ByteLength(project.entrypoint));
  }

  // ---- variables -----------------------------------------------------------

  const I64_MIN: int := -0x8000_0000_0000_0000
  const I64_MAX: int := 0x7FFF_FFFF_FFFF_FFFF

  function Numeral(n: int): string {
    if n < 0 then "-" + Decimal(-n) else Decimal(n)
  }

  /** A variable's value as TeX; none if the value does not fit the variable. */
  function RenderVariable(v: Variable, value: Value): Option<string> {
    match v.kind
    case TextKind => if value.Str? && ByteLength(value.s) <= 32768 then Some(Escape(value.s)) else None
    case IntegerKind => if value.Num? && I64_MIN <= value.n <= I64_MAX then Some(Numeral(value.n)) else None
    case BooleanKind => if value.Bool? then Some(if value.b then "true" else "false") else None
    case ChoiceKind => if value.Str? && value.s in v.choices then Some(Escape(value.s)) else None
  }

  /** The value that fills a variable's placeholders. */
  function ValueFor(t: Template, d: Document, name: string): Option<string>
    requires name in t.variables
  {
    if name in d.variables then RenderVariable(t.variables[name], d.variables[name])
    else if t.variables[name].required then None
    else Some("")
  }

  predicate ValuesOk(t: Template, d: Document) {
    && (forall name :: name in d.variables ==> name in t.variables)
    && forall name :: name in t.variables ==> ValueFor(t, d, name).Some?
  }

  function Values(t: Template, d: Document): map<string, string> {
    map name | name in t.variables && ValueFor(t, d, name).Some? :: ValueFor(t, d, name).value
  }

  method CollectValues(t: Template, d: Document) returns (r: Option<map<string, string>>)
    ensures r.Some? <==> ValuesOk(t, d)
    ensures r.Some? ==> r.value == Values(t, d)
  {
    if exists name :: name in d.variables && name !in t.variables {
      return None;
    }
    var values: map<string, string> := map[];
    var rest := t.variables.Keys;
    while rest != {}
      invariant rest <= t.variables.Keys
      invariant forall name :: name in t.variables && name !in rest ==> ValueFor(t, d, name).Some?
      invariant values == map name | name in t.variables && name !in rest :: ValueFor(t, d, name).value
      decreases rest
    {
      hide ValueFor;
      var name :| name in rest;
      var value := ValueFor(t, d, name);
      if value.None? {
        return None;
      }
      values := values[name := value.value];
      rest := rest - {name};
    }
    return Some(values);
  }

  // ---- rendering -----------------------------------------------------------

  predicate TexLike(path: string) {
    Extension(path) == Some("tex") || Extension(path) == Some("cls") || Extension(path) == Some("sty")
  }

  /** A file of the project, rendered if TeX reads it and copied otherwise. */
  ghost predicate FileRendered(values: map<string, string>, before: Asset, after: Asset) {
    && after.path == before.path
    && if TexLike(before.path)
       then before.data.Utf8? && after.data.Utf8? && Renders(before.data.text, values, MAX_PROJECT_BYTES, "", after.data.text)
       else after.data == before.data
  }

  /** The assets besides the entrypoint, in order. */
  function Others(assets: seq<Asset>, entrypoint: string): seq<Asset> {
    if assets == [] then []
    else
      var front := Others(assets[..|assets| - 1], entrypoint);
      if assets[|assets| - 1].path == entrypoint then front else front + [assets[|assets| - 1]]
  }

  ghost predicate FilesRendered(values: map<string, string>, before: seq<Asset>, after: seq<Asset>) {
    |after| == |before| && forall i :: 0 <= i < |before| ==> FileRendered(values, before[i], after[i])
  }

  datatype Refusal =
    | InvalidTemplate
    | InvalidVariables
    | MissingEntrypoint
    | SourceTooLarge
    | NotUtf8
    | Refused(error: RenderError)
    | ProjectTooLarge

  /** The text that is rendered in place of the entrypoint. */
  ghost predicate EntrySource(t: Template, d: Document, text: string) {
    if d.source.Some? then text == d.source.value
    else Asset(t.entrypoint, Utf8(text)) in t.assets
  }

  lemma {:induction false} OthersUnique(assets: seq<Asset>, entrypoint: string)
    requires Unique(assets)
    ensures Unique(Others(assets, entrypoint))
    ensures forall a :: a in Others(assets, entrypoint) <==> a in assets && a.path != entrypoint
    ensures |Others(assets, entrypoint)| + (if entrypoint in Paths(assets) then 1 else 0) == |assets|
  {
    if assets != [] {
      var front, last := assets[..|assets| - 1], assets[|assets| - 1];
      assert assets == front + [last];
      OthersUnique(front, entrypoint);
      forall a | a in front ensures a.path != last.path {
        var i :| 0 <= i < |front| && front[i] == a;
        assert assets[i] == a && assets[|assets| - 1] == last;
      }
      assert Paths(assets) == Paths(front) + {last.path};
      var others := Others(front, entrypoint);
      if last.path != entrypoint {
        forall i | 0 <= i < |others| ensures others[i].path != last.path { assert others[i] in others; }
      }
    }
  }

  lemma UniqueAfter(values: map<string, string>, before: seq<Asset>, after: seq<Asset>)
    requires Unique(before) && FilesRendered(values, before, after)
    ensures Unique(after)
  {
    forall i, j | 0 <= i < j < |after| ensures after[i].path != after[j].path {
      assert FileRendered(values, before[i], after[i]) && FileRendered(values, before[j], after[j]);
    }
  }

  lemma RenderedFits(text: string, values: map<string, string>, result: string)
    requires Renders(text, values, MAX_PROJECT_BYTES, "", result)
    ensures ByteLength(result) <= MAX_PROJECT_BYTES
  {
  }

  method RenderData(values: map<string, string>, data: Data) returns (r: Result<string, Refusal>)
    ensures r.Ok? ==> data.Utf8? && Renders(data.text, values, MAX_PROJECT_BYTES, "", r.value)
    ensures r.Err? && data.Utf8? ==> forall out :: !Renders(data.text, values, MAX_PROJECT_BYTES, "", out)
    ensures r.Err? ==> r.error.NotUtf8? || r.error.Refused?
  {
    if !data.Utf8? {
      return Err(NotUtf8);
    }
    var filled := Substitute(data.text, values, MAX_PROJECT_BYTES);
    match filled
    case Ok(text) => r := Ok(text);
    case Err(e) => r := Err(Refused(e));
  }

  lemma FileRenderedOnce(values: map<string, string>, before: Asset, x: Asset, y: Asset)
    requires FileRendered(values, before, x) && FileRendered(values, before, y)
    ensures x == y
  {
    hide Renders;
    if TexLike(before.path) {
      RendersOnce(before.data.text, values, MAX_PROJECT_BYTES, "", x.data.text, y.data.text);
    }
  }

  /** What is rendered so far is a prefix of every complete rendering. */
  lemma SamePrefix(values: map<string, string>, others: seq<Asset>, assets: seq<Asset>, after: seq<Asset>)
    requires |assets| <= |others| && (forall j :: 0 <= j < |assets| ==> FileRendered(values, others[j], assets[j]))
    requires FilesRendered(values, others, after)
    ensures assets <= after && TotalSize(assets) <= TotalSize(after)
  {
    hide FileRendered;
    forall j | 0 <= j < |assets| ensures assets[j] == after[j] {
      FileRenderedOnce(values, others[j], assets[j], after[j]);
    }
    assert after[..|assets|] == assets;
    SizeGrows(after, |assets|);
  }

  method RenderFile(values: map<string, string>, asset: Asset) returns (r: Result<Asset, Refusal>)
    ensures r.Ok? ==> FileRendered(values, asset, r.value)
    ensures r.Err? ==> r.error.NotUtf8? || r.error.Refused?
    ensures r.Err? ==> forall after :: !FileRendered(values, asset, after)
  {
    hide Renders, Extension;
    if !TexLike(asset.path) {
      return Ok(asset);
    }
    var filled := RenderData(values, asset.data);
    match filled
    case Err(e) => r := Err(e);
    case Ok(text) => r := Ok(Asset(asset.path, Utf8(text)));
  }

  lemma TotalMore(assets: seq<Asset>, a: Asset)
    ensures TotalSize(assets + [a]) == TotalSize(assets) + Size(a.data)
  {
    assert (assets + [a])[..|assets|] == assets;
  }

  lemma NoneRendered(values: map<string, string>, others: seq<Asset>, i: nat)
    requires i < |others| && forall after :: !FileRendered(values, others[i], after)
    ensures forall after :: !FilesRendered(values, others, after)
  {
    forall after ensures !FilesRendered(values, others, after) {
      if FilesRendered(values, others, after) { OneRendered(values, others, after, i); }
    }
  }

  lemma OneRendered(values: map<string, string>, others: seq<Asset>, after: seq<Asset>, i: nat)
    requires FilesRendered(values, others, after) && i < |others|
    ensures FileRendered(values, others[i], after[i])
  {
  }

  method RenderOthers(values: map<string, string>, others: seq<Asset>, already: nat) returns (r: Result<seq<Asset>, Refusal>)
    requires already <= MAX_PROJECT_BYTES
    ensures r.Ok? ==> FilesRendered(values, others, r.value) && already + TotalSize(r.value) <= MAX_PROJECT_BYTES
    ensures r.Err? ==> r.error.NotUtf8? || r.error.Refused? || r.error.ProjectTooLarge?
    ensures r.Err? ==> forall after :: FilesRendered(values, others, after) ==> already + TotalSize(after) > MAX_PROJECT_BYTES
  {
    hide FileRendered, Size;
    var assets: seq<Asset> := [];
    var total := already;
    for i := 0 to |others|
      invariant |assets| == i && forall j :: 0 <= j < i ==> FileRendered(values, others[j], assets[j])
      invariant total == already + TotalSize(assets) <= MAX_PROJECT_BYTES
    {
      var file := RenderFile(values, others[i]);
      if file.Err? {
        NoneRendered(values, others, i);
        return Err(file.error);
      }
      TotalMore(assets, file.value);
      assets := assets + [file.value];
      total := SaturatingAdd(total, Size(file.value.data));
      if total > MAX_PROJECT_BYTES {
        forall after | FilesRendered(values, others, after) ensures already + TotalSize(after) > MAX_PROJECT_BYTES {
          SamePrefix(values, others, assets, after);
        }
        return Err(ProjectTooLarge);
      }
    }
    return Ok(assets);
  }

  method FindAsset(assets: seq<Asset>, path: string) returns (r: Option<Asset>)
    ensures r.None? <==> path !in Paths(assets)
    ensures r.Some? ==> r.value in assets && r.value.path == path
  {
    for i := 0 to |assets|
      invariant forall j :: 0 <= j < i ==> assets[j].path != path
    {
      if assets[i].path == path {
        return Some(assets[i]);
      }
    }
    return None;
  }

  /** A rendering of a document: the source and every TeX file with their original placeholders filled, the rest copied. */
  ghost predicate RenderedAs(t: Template, d: Document, out: Rendered) {
    && TemplateOk(t) && ValuesOk(t, d)
    && (exists text :: EntrySource(t, d, text) && ByteLength(text) <= MAX_PROJECT_BYTES &&
          Renders(text, Values(t, d), MAX_PROJECT_BYTES, "", out.entrypoint))
    && FilesRendered(Values(t, d), Others(t.assets, t.entrypoint), out.assets)
    && ByteLength(out.entrypoint) + TotalSize(out.assets) <= MAX_PROJECT_BYTES
  }

  /** Renders a document, or finds that it has no rendering. */
  method Render(t: Template, d: Document) returns (r: Result<Rendered, Refusal>)
    ensures r == Err(InvalidTemplate) <==> !TemplateOk(t)
    ensures r == Err(InvalidVariables) <==> TemplateOk(t) && !ValuesOk(t, d)
    ensures r != Err(MissingEntrypoint)
    ensures r.Ok? ==> RenderedAs(t, d, r.value)
    ensures r.Err? ==> forall out :: !RenderedAs(t, d, out)
  {
    hide PathOk, Renders, MetadataOk, Extension, ValuesOk, Values, VariableOk, FilesRendered, FilesOk, Paths;
    var valid := Validate(t);
    if !valid {
      return Err(InvalidTemplate);
    }
    var values := CollectValues(t, d);
    if values.None? {
      return Err(InvalidVariables);
    }
    var original := FindAsset(t.assets, t.entrypoint);
    if original.None? {
      return Err(MissingEntrypoint);
    }
    var source := if d.source.Some? then Utf8(d.source.value) else original.value.data;
    forall text ensures EntrySource(t, d, text) <==> source == Utf8(text) {
      OneSource(t, d, original.value, text);
    }
    if Size(source) > MAX_PROJECT_BYTES {
      return Err(SourceTooLarge);
    }
    var entrypoint := RenderData(values.value, source);
    if entrypoint.Err? {
      return Err(entrypoint.error);
    }
    RenderedFits(source.text, values.value, entrypoint.value);
    var others := Others(t.assets, t.entrypoint);
    var assets := RenderOthers(values.value, others, ByteLength(entrypoint.value));
    forall out | RenderedAs(t, d, out) ensures out.entrypoint == entrypoint.value {
      RendersOnce(source.text, values.value, MAX_PROJECT_BYTES, "", out.entrypoint, entrypoint.value);
    }
    if assets.Err? {
      return Err(assets.error);
    }
    assert EntrySource(t, d, source.text);
    return Ok(Rendered(entrypoint.value, assets.value));
  }

  lemma OneSource(t: Template, d: Document, original: Asset, text: string)
    requires TemplateOk(t) && original in t.assets && original.path == t.entrypoint
    ensures EntrySource(t, d, text) <==> (if d.source.Some? then Utf8(d.source.value) else original.data) == Utf8(text)
  {
    hide PathOk, MetadataOk, VariableOk, Extension;
    if Asset(t.entrypoint, Utf8(text)) in t.assets {
      var i :| 0 <= i < |t.assets| && t.assets[i] == Asset(t.entrypoint, Utf8(text));
      var j :| 0 <= j < |t.assets| && t.assets[j] == original;
    }
  }

  /** Whatever is rendered passes the worker's checks on count, sizes, paths and uniqueness. */
  lemma RenderedIsAdmitted(t: Template, d: Document, out: Rendered)
    requires RenderedAs(t, d, out)
    ensures WorkerOk(out)
  {
    hide PathOk, Extension, Renders, MetadataOk;
    var values, others := Values(t, d), Others(t.assets, t.entrypoint);
    OthersUnique(t.assets, t.entrypoint);
    UniqueAfter(values, others, out.assets);
    AssetCount(t);
    forall a | a in out.assets ensures PathOk(a.path) {
      var i :| 0 <= i < |out.assets| && out.assets[i] == a;
      assert FileRendered(values, others[i], out.assets[i]);
      assert others[i] in others;
    }
  }

  lemma AssetCount(t: Template)
    requires TemplateOk(t)
    ensures |t.assets| <= 64
  {
  }
}
