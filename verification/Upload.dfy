/** The translation of an upload into one complete revision: retained, inherited, renamed and
    explicit bindings merged, checked and stored.

    The contract says what revision comes out without saying in which order anything is done:
    where each name's binding originates, what is stored of it, and what makes an upload
    unacceptable. The method does what the program does. */
module Upload {
  import opened Outcomes
  import opened NameOrder
  import opened UploadBindings

  const MAX_BINDINGS := 128
  const MAX_NAME := 128

  datatype Entry = Entry(binding: string, id: string)

  datatype Var = TextVar(text: string) | JsonVar(json: JsonText)

  datatype AssetFile = AssetFile(path: string, data: string)

  /** Of the asset configuration only the name of the binding matters here. */
  datatype AssetConfig = AssetConfig(binding: string, handling: string)

  datatype Deployment = Deployment(
    format: string, entrypoint: string, compatibilityDate: string, compatibilityFlags: seq<string>,
    vars: map<string, Var>, kvNamespaces: seq<Entry>, databases: seq<Entry>,
    dispatchNamespaces: seq<Entry>, buckets: seq<Entry>, services: seq<Entry>,
    assets: seq<AssetFile>, assetConfig: AssetConfig,
    files: seq<string>, dns: string, triggers: string)

  datatype Metadata = Metadata(
    mainModule: string, compatibilityDate: string, compatibilityFlags: seq<string>,
    bindings: seq<Binding>, keepBindings: seq<Kind>, keepAssets: bool,
    tags: Option<seq<string>>, strictInherit: bool)

  datatype Previous = Previous(deployment: Deployment, bindings: seq<Binding>, tags: seq<string>)

  datatype Candidate = Candidate(
    deployment: Deployment, bindings: seq<Binding>, tags: seq<string>,
    secrets: map<string, string>, keepSecrets: map<string, string>)

  /** Resolution of a resource name within the organization; None is an error or no result. */
  type Resolver = (Kind, string) -> Option<string>

  datatype Fault =
    | SecretKeyRetention | UnsupportedKeep | BadName | OldVersion | InheritFields | MissingInherited
    | TooManyBindings | UnsupportedType | InvalidBinding | SecretWithoutValue | NoResolver
    | UnknownResource | NamespaceChanged | NoPreviousAssets | NoAssets

  // ----- where the binding of a name originates

  /** The bindings by name; of two with one name the later counts. */
  function Named(bindings: seq<Binding>): map<string, Binding> {
    if bindings == [] then map[]
    else
      var last := bindings[|bindings| - 1];
      Named(bindings[..|bindings| - 1])[last.name := last]
  }

  function Prior(previous: Option<Previous>): map<string, Binding> {
    match previous case None => map[] case Some(p) => Named(p.bindings)
  }

  datatype Origin = Retained(from: string, prior: Binding) | Given(binding: Binding)

  function Source(b: Binding): string {
    if b.oldName == "" then b.name else b.oldName
  }

  /** An explicit entry decides its name; other names are retained by type. */
  function OriginOf(prior: map<string, Binding>, keep: seq<Kind>, given: map<string, Binding>,
                    n: string): Option<Origin> {
    if n in given then
      if !given[n].kind.Inherit? then Some(Given(given[n]))
      else if Source(given[n]) in prior then Some(Retained(Source(given[n]), prior[Source(given[n])]))
      else None
    else if n in prior && prior[n].kind in keep && prior[n].kind != SecretKey then Some(Retained(n, prior[n]))
    else None
  }

  function Origins(prior: map<string, Binding>, keep: seq<Kind>, given: map<string, Binding>): map<string, Origin> {
    map n | n in prior.Keys + given.Keys && OriginOf(prior, keep, given, n).Some? ::
      OriginOf(prior, keep, given, n).value
  }

  /** The binding itself: a retained one is the prior one under the name. */
  function BindingFrom(origin: Origin, n: string): Binding {
    match origin
    case Given(b) => b.(name := n)
    case Retained(_, b) => b.(name := n)
  }

  function Effective(origins: map<string, Origin>): map<string, Binding> {
    map n | n in origins :: BindingFrom(origins[n], n)
  }

  function RetainedFrom(origins: map<string, Origin>): map<string, string> {
    map n | n in origins && origins[n].Retained? :: origins[n].from
  }

  // ----- what is acceptable

  predicate DistinctNames(bindings: seq<Binding>) {
    forall i, j :: 0 <= i < j < |bindings| ==> bindings[i].name != bindings[j].name
  }

  predicate KeepAllowed(kind: Kind, prior: map<string, Binding>, allowDispatch: bool) {
    if kind == SecretKey then forall n :: n in prior ==> prior[n].kind != SecretKey
    else Supported(kind, allowDispatch)
  }

  predicate GivenAllowed(b: Binding, prior: map<string, Binding>, strict: bool) {
    && 0 < |b.name| <= MAX_NAME
    && (b.kind.Inherit? ==> b.versionID in {"", "latest"} && Bare(b) && (strict ==> Source(b) in prior))
  }

  /** The name by which a resource type is resolved. */
  function External(b: Binding): string {
    match b.kind
    case R2Bucket => b.bucketName
    case Service => b.service
    case DispatchNamespace => b.namespace
    case _ => ""
  }

  function Resolved(resolve: Option<Resolver>, b: Binding): Option<string> {
    match resolve
    case None => None
    case Some(f) => if f(b.kind, External(b)) == Some("") then None else f(b.kind, External(b))
  }

  /** The identity that the last entry for the binding holds. */
  function Pinned(entries: seq<Entry>, binding: string): string {
    if entries == [] then ""
    else
      var last := entries[|entries| - 1];
      if last.binding == binding then last.id else Pinned(entries[..|entries| - 1], binding)
  }

  /** What the upload's own secrets, its resources and its retained authority must be. */
  predicate OriginAllowed(b: Binding, origin: Origin, previous: Option<Previous>, resolve: Option<Resolver>) {
    match b.kind
    case SecretText => b.text.Some? || origin.Retained?
    case R2Bucket => Resolved(resolve, b).Some?
    case Service => Resolved(resolve, b).Some?
    case DispatchNamespace =>
      && Resolved(resolve, b).Some?
      && (origin.Retained? && previous.Some? ==>
            Resolved(resolve, b) == Some(Pinned(previous.value.deployment.dispatchNamespaces, origin.from)))
    case _ => true
  }

  predicate BindingAllowed(b: Binding, origin: Origin, previous: Option<Previous>, resolve: Option<Resolver>,
                           allowDispatch: bool) {
    Supported(b.kind, allowDispatch) && ValidBinding(b) && OriginAllowed(b, origin, previous, resolve)
  }

  function OriginsOf(m: Metadata, previous: Option<Previous>): map<string, Origin> {
    Origins(Prior(previous), m.keepBindings, Named(m.bindings))
  }

  predicate EntriesAllowed(m: Metadata, previous: Option<Previous>, allowDispatch: bool) {
    && (forall kind :: kind in m.keepBindings ==> KeepAllowed(kind, Prior(previous), allowDispatch))
    && DistinctNames(m.bindings)
    && (forall b :: b in m.bindings ==> GivenAllowed(b, Prior(previous), m.strictInherit))
  }

  predicate AllAllowed(m: Metadata, previous: Option<Previous>, resolve: Option<Resolver>, allowDispatch: bool) {
    var origins := OriginsOf(m, previous);
    forall n :: n in origins ==>
      BindingAllowed(BindingFrom(origins[n], n), origins[n], previous, resolve, allowDispatch)
  }

  function AssetsOf(m: Metadata, previous: Option<Previous>): seq<AssetFile> {
    if m.keepAssets && previous.Some? then previous.value.deployment.assets else []
  }

  predicate NamesAssets(origins: map<string, Origin>) {
    exists n :: n in origins && BindingFrom(origins[n], n).kind == Assets && n != ""
  }

  predicate Acceptable(m: Metadata, previous: Option<Previous>, resolve: Option<Resolver>, allowDispatch: bool) {
    && EntriesAllowed(m, previous, allowDispatch)
    && |OriginsOf(m, previous)| <= MAX_BINDINGS
    && AllAllowed(m, previous, resolve, allowDispatch)
    && (m.keepAssets ==> previous.Some?)
    && (NamesAssets(OriginsOf(m, previous)) ==> AssetsOf(m, previous) != [])
  }

  // ----- the revision

  function VarOf(b: Binding): Option<Var> {
    match b.kind
    case PlainText => (match b.text case Some(text) => Some(TextVar(text)) case None => None)
    case Json => (match b.json case Some(json) => Some(JsonVar(json)) case None => None)
    case _ => None
  }

  function Vars(origins: map<string, Origin>): map<string, Var> {
    map n | n in origins && VarOf(BindingFrom(origins[n], n)).Some? :: VarOf(BindingFrom(origins[n], n)).value
  }

  /** What a deployment lists of a resource binding: its name and the resource's identity. */
  function EntryOf(b: Binding, resolve: Option<Resolver>): Option<Entry> {
    match b.kind
    case KvNamespace => Some(Entry(b.name, b.namespaceID))
    case D1 => Some(Entry(b.name, DatabaseIDOf(b)))
    case _ => (match Resolved(resolve, b) case Some(id) => Some(Entry(b.name, id)) case None => None)
  }

  /** The entries of one type, in the order of the bindings. */
  function Entries(bindings: seq<Binding>, kind: Kind, resolve: Option<Resolver>): seq<Entry> {
    if bindings == [] then []
    else
      var last := bindings[|bindings| - 1];
      Entries(bindings[..|bindings| - 1], kind, resolve)
      + (if last.kind == kind && EntryOf(last, resolve).Some? then [EntryOf(last, resolve).value] else [])
  }

  function AssetsName(bindings: seq<Binding>): string {
    if bindings == [] then ""
    else
      var last := bindings[|bindings| - 1];
      if last.kind == Assets then last.name else AssetsName(bindings[..|bindings| - 1])
  }

  function Secrets(origins: map<string, Origin>): map<string, string> {
    map n | n in origins && BindingFrom(origins[n], n).kind == SecretText && BindingFrom(origins[n], n).text.Some?
      :: BindingFrom(origins[n], n).text.value
  }

  function KeepSecrets(origins: map<string, Origin>): map<string, string> {
    map n | n in origins && BindingFrom(origins[n], n).kind == SecretText && BindingFrom(origins[n], n).text.None?
            && origins[n].Retained?
      :: origins[n].from
  }

  function NamesOf(bindings: seq<Binding>): (names: seq<string>)
    ensures |names| == |bindings|
  {
    seq(|bindings|, i requires 0 <= i < |bindings| => bindings[i].name)
  }

  /** The bindings are those of the origins, stored, in the order of their names. */
  predicate Lists(bindings: seq<Binding>, origins: map<string, Origin>) {
    && Ascending(NamesOf(bindings))
    && Elements(NamesOf(bindings)) == origins.Keys
    && forall b :: b in bindings ==> b.name in origins && b == Stored(BindingFrom(origins[b.name], b.name))
  }

  function TagsOf(m: Metadata, previous: Option<Previous>): seq<string> {
    if m.tags.Some? then m.tags.value
    else if previous.Some? then previous.value.tags
    else []
  }

  function HandlingOf(m: Metadata, previous: Option<Previous>): string {
    if m.keepAssets && previous.Some? then previous.value.deployment.assetConfig.handling else ""
  }

  function DeploymentOf(m: Metadata, bindings: seq<Binding>, vars: map<string, Var>, resolve: Option<Resolver>,
                        assets: seq<AssetFile>, handling: string): Deployment {
    Deployment("modules", m.mainModule, m.compatibilityDate, m.compatibilityFlags, vars,
      Entries(bindings, KvNamespace, resolve), Entries(bindings, D1, resolve),
      Entries(bindings, DispatchNamespace, resolve), Entries(bindings, R2Bucket, resolve),
      Entries(bindings, Service, resolve), assets, AssetConfig(AssetsName(bindings), handling), [], "", "")
  }

  /** The candidate is the revision that the upload asks for. */
  predicate IsRevision(c: Candidate, m: Metadata, previous: Option<Previous>, resolve: Option<Resolver>) {
    var origins := OriginsOf(m, previous);
    && Lists(c.bindings, origins)
    && c.deployment == DeploymentOf(m, c.bindings, Vars(origins), resolve, AssetsOf(m, previous),
                                    HandlingOf(m, previous))
    && c.tags == TagsOf(m, previous)
    && c.secrets == Secrets(origins)
    && c.keepSecrets == KeepSecrets(origins)
  }
}
