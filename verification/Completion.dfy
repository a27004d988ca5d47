/** The completion of a decoded upload: loaded assets take the place of the previous ones, and
    touch nothing else. */
module Completion {
  import opened Outcomes
  import opened UploadBindings
  import opened Upload
  import opened Translation
  import opened UploadTheorems
  import opened UploadMeaning

  /** The upload's own assets, with the handling it asks for, if any. */
  datatype AssetUpload = AssetUpload(handling: Option<string>)

  /** A loader of asset files may be absent, and may fail. */
  datatype Loader = NoLoader | Failing | Loading(files: seq<AssetFile>)

  datatype CompletionFault = Unavailable | LoadFailed | Refused(fault: Fault)

  function TrimSlash(path: string): string {
    if path != "" && path[0] == '/' then path[1..] else path
  }

  function Trimmed(files: seq<AssetFile>): (trimmed: seq<AssetFile>)
    ensures |trimmed| == |files|
  {
    seq(|files|, i requires 0 <= i < |files| => files[i].(path := TrimSlash(files[i].path)))
  }

  const NO_REVISION := Previous(NO_DEPLOYMENT.(format := ""), [], [])

  function WithAssets(p: Previous, files: seq<AssetFile>, config: AssetConfig): Previous {
    p.(deployment := p.deployment.(assets := files, assetConfig := config))
  }

  function Handling(upload: AssetUpload): string {
    match upload.handling case Some(handling) => handling case None => ""
  }

  /** Which loader the upload needs. */
  function Needed(m: Metadata, upload: Option<AssetUpload>, previous: Option<Previous>, completed: Loader,
                  retained: Loader): Loader {
    if upload.Some? then completed
    else if m.keepAssets && previous.Some? then retained
    else NoLoader
  }

  /** The revision that the upload is translated against. */
  function Against(m: Metadata, upload: Option<AssetUpload>, previous: Option<Previous>,
                   loader: Loader): Option<Previous> {
    match loader
    case Loading(files) =>
      if upload.Some? then
        Some(WithAssets(OrNone(previous), Trimmed(files), AssetConfig("", Handling(upload.value))))
      else
        Some(WithAssets(OrNone(previous), files, OrNone(previous).deployment.assetConfig))
    case _ => previous
  }

  function OrNone(previous: Option<Previous>): Previous {
    match previous case Some(p) => p case None => NO_REVISION
  }

  /** The metadata that is translated. */
  function Translating(m: Metadata, upload: Option<AssetUpload>, strict: bool): Metadata {
    m.(strictInherit := strict, keepAssets := m.keepAssets || upload.Some?)
  }

  /** The loop over the copied files. */
  method TrimPaths(files: seq<AssetFile>) returns (assets: seq<AssetFile>)
    ensures assets == Trimmed(files)
  {
    assets := files;
    for i := 0 to |assets|
      invariant |assets| == |files|
      invariant forall j :: 0 <= j < |assets| ==>
        assets[j] == if j < i then files[j].(path := TrimSlash(files[j].path)) else files[j]
    {
      assets := assets[i := assets[i].(path := TrimSlash(assets[i].path))];
    }
  }

  method CompleteUpload(m: Metadata, upload: Option<AssetUpload>, files: seq<string>, previous: Option<Previous>,
                        resolve: Option<Resolver>, allowDispatch: bool, strict: bool, completed: Loader,
                        retained: Loader)
    returns (r: Result<Candidate, CompletionFault>)
    ensures var loader := Needed(m, upload, previous, completed, retained);
      var against, metadata := Against(m, upload, previous, loader), Translating(m, upload, strict);
      && (r == Err(Unavailable) <==> upload.Some? && loader.NoLoader?)
      && (r == Err(LoadFailed) <==> loader.Failing?)
      && (r.Ok? <==>
            && !(upload.Some? && loader.NoLoader?) && !loader.Failing?
            && Acceptable(metadata, against, resolve, allowDispatch))
      && (r.Err? && r.error.Refused? ==> Explains(r.error.fault, metadata, against, resolve, allowDispatch))
      && (r.Ok? ==> r.value.deployment.files == files
                    && IsRevision(r.value.(deployment := r.value.deployment.(files := [])), metadata, against, resolve))
  {
    hide Acceptable, IsRevision, Explains, Trimmed;
    var metadata, against := m.(strictInherit := strict), previous;
    if upload.Some? {
      if completed.NoLoader? { return Err(Unavailable); }
      if completed.Failing? { return Err(LoadFailed); }
      var copy := NO_REVISION;
      if previous.Some? { copy := previous.value; }
      var config := AssetConfig("", "");
      if upload.value.handling.Some? { config := AssetConfig("", upload.value.handling.value); }
      var assets := TrimPaths(completed.files);
      copy := copy.(deployment := copy.deployment.(assets := assets, assetConfig := config));
      against := Some(copy);
      metadata := metadata.(keepAssets := true);
    }
    if upload.None? && metadata.keepAssets && previous.Some? && !retained.NoLoader? {
      if retained.Failing? { return Err(LoadFailed); }
      var copy := previous.value;
      copy := copy.(deployment := copy.deployment.(assets := retained.files));
      against := Some(copy);
    }
    r := TranslateFiles(metadata, files, against, resolve, allowDispatch);
  }

  /** Translates, and adds the files of the upload. */
  method TranslateFiles(m: Metadata, files: seq<string>, previous: Option<Previous>, resolve: Option<Resolver>,
                        allowDispatch: bool)
    returns (r: Result<Candidate, CompletionFault>)
    ensures r.Ok? <==> Acceptable(m, previous, resolve, allowDispatch)
    ensures r.Ok? ==>
      && r.value.deployment.files == files
      && IsRevision(r.value.(deployment := r.value.deployment.(files := [])), m, previous, resolve)
    ensures r.Err? ==> r.error.Refused? && Explains(r.error.fault, m, previous, resolve, allowDispatch)
  {
    hide Acceptable, IsRevision, Explains;
    var translated := Translate(m, previous, resolve, allowDispatch);
    if translated.Err? { return Err(Refused(translated.error)); }
    assert translated.value.deployment.files == [] by { NoFilesYet(translated.value, m, previous, resolve); }
    r := Ok(translated.value.(deployment := translated.value.deployment.(files := files)));
  }

  lemma NoFilesYet(c: Candidate, m: Metadata, previous: Option<Previous>, resolve: Option<Resolver>)
    requires IsRevision(c, m, previous, resolve)
    ensures c.deployment.files == []
  {
    hide OriginsOf, Lists, Vars, Secrets, KeepSecrets, Entries, AssetsName;
  }

  /** Against loaded assets the revision is the one it would have been without them, but for the
      assets themselves and their handling. */
  lemma LoadedAssetsChangeNothingElse(m: Metadata, upload: Option<AssetUpload>, previous: Option<Previous>,
                                      loader: Loader,
                                      resolve: Option<Resolver>, strict: bool, c: Candidate, d: Candidate)
    requires loader.Loading? && (upload.Some? || previous.Some?)
    requires IsRevision(c, Translating(m, upload, strict), Against(m, upload, previous, loader), resolve)
    requires IsRevision(d, m.(strictInherit := strict), previous, resolve)
    ensures c == d.(deployment := d.deployment.(
                      assets := c.deployment.assets,
                      assetConfig := AssetConfig(d.deployment.assetConfig.binding, c.deployment.assetConfig.handling)))
    ensures upload.Some? ==> c.deployment.assets == Trimmed(loader.files)
  {
    hide Lists, Vars, Secrets, KeepSecrets, Entries, AssetsName, Origins;
    assert Prior(Against(m, upload, previous, loader)) == Prior(previous);
    ListsUnique(c.bindings, d.bindings, OriginsOf(m, previous));
  }

  // ----- what is completed

  /** The file without one leading slash of its path. */
  predicate Unslashed(file: AssetFile, loaded: AssetFile) {
    && file.data == loaded.data
    && loaded.path == (if loaded.path != "" && loaded.path[0] == '/' then "/" + file.path else file.path)
  }

  /** The assets that the revision holds: the completed upload's, or the retained ones as they were
      loaded, or those of the previous revision, if it is asked for either. */
  predicate AssetsAre(assets: seq<AssetFile>, m: Metadata, upload: Option<AssetUpload>, previous: Option<Previous>,
                      completed: Loader, retained: Loader) {
    if upload.Some? && completed.Loading? then
      |assets| == |completed.files| && forall i :: 0 <= i < |assets| ==> Unslashed(assets[i], completed.files[i])
    else if m.keepAssets && previous.Some? then
      assets == if retained.Loading? then retained.files else previous.value.deployment.assets
    else assets == []
  }

  predicate HandlingIs(handling: string, m: Metadata, upload: Option<AssetUpload>, previous: Option<Previous>) {
    handling == match upload
      case Some(AssetUpload(given)) => if given.Some? then given.value else ""
      case None => if m.keepAssets && previous.Some? then previous.value.deployment.assetConfig.handling else ""
  }

  /** The upload can be translated: no loader that it needs is absent or fails. */
  predicate Loads(m: Metadata, upload: Option<AssetUpload>, previous: Option<Previous>, completed: Loader,
                  retained: Loader) {
    if upload.Some? then completed.Loading? else m.keepAssets && previous.Some? ==> !retained.Failing?
  }

  lemma LoadsExactly(m: Metadata, upload: Option<AssetUpload>, previous: Option<Previous>, completed: Loader,
                     retained: Loader)
    ensures var loader := Needed(m, upload, previous, completed, retained);
      Loads(m, upload, previous, completed, retained) <==> !(upload.Some? && loader.NoLoader?) && !loader.Failing?
  {
  }

  lemma TrimmedExactly(files: seq<AssetFile>, i: nat)
    requires i < |files|
    ensures Unslashed(Trimmed(files)[i], files[i])
  {
    var path := files[i].path;
    assert path != "" ==> path == [path[0]] + path[1..];
  }

  lemma GivesAgainst(m: Metadata, upload: Option<AssetUpload>, previous: Option<Previous>, loader: Loader, strict: bool,
                     n: string, b: Binding, from: Option<string>)
    ensures Gives(Translating(m, upload, strict), Against(m, upload, previous, loader), n, b, from)
            <==> Gives(m, previous, n, b, from)
  {
    hide LastNamed;
    forall x, p ensures PriorAt(Against(m, upload, previous, loader), x, p) <==> PriorAt(previous, x, p) {
      NoneNamed(x, p);
    }
  }

  lemma NoneNamed(x: string, p: Binding)
    ensures !LastNamed([], x, p)
  {
  }

  /** A completed upload holds its loaded assets, and for the rest what the upload itself asks for of
      the previous revision. */
  lemma CompletedIsDescribed(c: Candidate, m: Metadata, upload: Option<AssetUpload>, previous: Option<Previous>,
                             completed: Loader, retained: Loader, resolve: Option<Resolver>, strict: bool)
    requires DistinctNames(m.bindings) && Loads(m, upload, previous, completed, retained)
    requires IsRevision(c, Translating(m, upload, strict),
               Against(m, upload, previous, Needed(m, upload, previous, completed, retained)), resolve)
    ensures AssetsAre(c.deployment.assets, m, upload, previous, completed, retained)
    ensures HandlingIs(c.deployment.assetConfig.handling, m, upload, previous)
    ensures BindingsOf(c.bindings, m, previous) && SecretsOf(c.secrets, c.keepSecrets, m, previous)
    ensures VariablesOf(c.deployment.vars, m, previous)
    ensures RestOf(c.(deployment := c.deployment.(assets := [], assetConfig := AssetConfig("", ""))),
              m.(keepAssets := false), previous)
  {
    var loader := Needed(m, upload, previous, completed, retained);
    var metadata, against := Translating(m, upload, strict), Against(m, upload, previous, loader);
    hide DistinctNames, IsRevision, Gives, BindingsOf, VariablesOf, SecretsOf, EntriesOf, AssetsNamedLast;
    assert DistinctNames(metadata.bindings);
    RevisionIsDescribed(c, metadata, against, resolve);
    forall n, b, from ensures Gives(metadata, against, n, b, from) <==> Gives(m, previous, n, b, from) {
      GivesAgainst(m, upload, previous, loader, strict, n, b, from);
    }
    SameMeaning(metadata, against, m, previous, c.bindings, c.deployment.vars, c.secrets, c.keepSecrets);
    if upload.Some? {
      forall i | 0 <= i < |completed.files| ensures Unslashed(Trimmed(completed.files)[i], completed.files[i]) {
        TrimmedExactly(completed.files, i);
      }
    }
  }

  /** When the completed upload is acceptable: its entries and bindings are, against the previous
      revision, with assets to keep if it asks for the old ones and none bound that are not there. */
  lemma CompletionAcceptableExactly(m: Metadata, upload: Option<AssetUpload>, previous: Option<Previous>,
                                    completed: Loader, retained: Loader, resolve: Option<Resolver>,
                                    allowDispatch: bool, strict: bool)
    requires Loads(m, upload, previous, completed, retained)
    ensures var loader := Needed(m, upload, previous, completed, retained);
      Acceptable(Translating(m, upload, strict), Against(m, upload, previous, loader), resolve, allowDispatch) <==>
        && FineBindings(m.(strictInherit := strict), previous, resolve, allowDispatch)
        && (m.keepAssets && upload.None? ==> previous.Some?)
        && (BindsAssets(m, previous) ==>
              exists assets :: AssetsAre(assets, m, upload, previous, completed, retained) && assets != [])
  {
    var loader := Needed(m, upload, previous, completed, retained);
    var metadata, against := Translating(m, upload, strict), Against(m, upload, previous, loader);
    hide Acceptable, Gives, FineBindings;
    AcceptableExactly(metadata, against, resolve, allowDispatch);
    forall n, b, from ensures Gives(metadata, against, n, b, from) <==> Gives(m, previous, n, b, from) {
      GivesAgainst(m, upload, previous, loader, strict, n, b, from);
    }
    FineAgainst(m, upload, previous, loader, resolve, allowDispatch, strict);
    if upload.Some? {
      forall i | 0 <= i < |completed.files| ensures Unslashed(Trimmed(completed.files)[i], completed.files[i]) {
        TrimmedExactly(completed.files, i);
      }
      assert AssetsAre(Trimmed(completed.files), m, upload, previous, completed, retained);
    } else if m.keepAssets && previous.Some? {
      assert AssetsAre(against.value.deployment.assets, m, upload, previous, completed, retained);
    }
  }

  lemma PriorAgainst(m: Metadata, upload: Option<AssetUpload>, previous: Option<Previous>, loader: Loader, x: string,
                     p: Binding)
    ensures PriorAt(Against(m, upload, previous, loader), x, p) <==> PriorAt(previous, x, p)
  {
    NoneNamed(x, p);
  }

  /** The types, entries and names of the upload against revisions with the same bindings. */
  lemma FineAgainst(m: Metadata, upload: Option<AssetUpload>, previous: Option<Previous>, loader: Loader,
                    resolve: Option<Resolver>, allowDispatch: bool, strict: bool)
    ensures FineBindings(Translating(m, upload, strict), Against(m, upload, previous, loader), resolve, allowDispatch)
            <==> FineBindings(m.(strictInherit := strict), previous, resolve, allowDispatch)
  {
    var metadata, against := Translating(m, upload, strict), Against(m, upload, previous, loader);
    var plain := m.(strictInherit := strict);
    hide FineBinding, FineEntry, MayKeep, Gives, Against;
    forall n, b, from ensures Gives(metadata, against, n, b, from) <==> Gives(plain, previous, n, b, from) {
      GivesAgainst(m, upload, previous, loader, strict, n, b, from);
      StrictGives(m, previous, strict, n, b, from);
    }
    forall n ensures Bound(metadata, against, n) <==> Bound(plain, previous, n) {
    }
    hide Bound;
    forall kind ensures MayKeep(kind, against, allowDispatch) <==> MayKeep(kind, previous, allowDispatch) {
      KeepAgainst(m, upload, previous, loader, kind, allowDispatch);
    }
    forall e ensures FineEntry(e, against, strict) <==> FineEntry(e, previous, strict) {
      EntryAgainst(m, upload, previous, loader, e, strict);
    }
    forall n, b, from | Gives(plain, previous, n, b, from)
      ensures FineBinding(b, from, against, resolve, allowDispatch)
              <==> FineBinding(b, from, previous, resolve, allowDispatch)
    {
      BindingAgainst(m, upload, previous, loader, resolve, allowDispatch, plain, n, b, from);
    }
  }

  lemma KeepAgainst(m: Metadata, upload: Option<AssetUpload>, previous: Option<Previous>, loader: Loader, kind: Kind,
                    allowDispatch: bool)
    ensures MayKeep(kind, Against(m, upload, previous, loader), allowDispatch) <==>
      MayKeep(kind, previous, allowDispatch)
  {
    hide PriorAt, Against;
    forall x, p ensures PriorAt(Against(m, upload, previous, loader), x, p) <==> PriorAt(previous, x, p) {
      PriorAgainst(m, upload, previous, loader, x, p);
    }
  }

  lemma EntryAgainst(m: Metadata, upload: Option<AssetUpload>, previous: Option<Previous>, loader: Loader, e: Binding,
                     strict: bool)
    ensures FineEntry(e, Against(m, upload, previous, loader), strict) <==> FineEntry(e, previous, strict)
  {
    hide PriorAt, Against;
    forall x, p ensures PriorAt(Against(m, upload, previous, loader), x, p) <==> PriorAt(previous, x, p) {
      PriorAgainst(m, upload, previous, loader, x, p);
    }
  }

  lemma BindingAgainst(m: Metadata, upload: Option<AssetUpload>, previous: Option<Previous>, loader: Loader,
                       resolve: Option<Resolver>, allowDispatch: bool, plain: Metadata, n: string, b: Binding,
                       from: Option<string>)
    requires Gives(plain, previous, n, b, from)
    ensures FineBinding(b, from, Against(m, upload, previous, loader), resolve, allowDispatch)
            <==> FineBinding(b, from, previous, resolve, allowDispatch)
  {
    hide Gives, LastEntry, ValidBinding, Offered, Identity;
    if from.Some? { RetainedIsPrior(plain, previous, n, b, from.value); }
  }

  lemma StrictGives(m: Metadata, previous: Option<Previous>, strict: bool, n: string, b: Binding, from: Option<string>)
    ensures Gives(m.(strictInherit := strict), previous, n, b, from) <==> Gives(m, previous, n, b, from)
  {
    hide PriorAt;
  }
}
