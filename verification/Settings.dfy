/** A settings patch: what it omits is preserved, what it lists is replaced. */
module Settings {
  import opened Outcomes
  import opened NameOrder
  import opened UploadBindings
  import opened Upload
  import opened Translation
  import opened UploadTheorems
  import opened UploadFixpoint
  import opened UploadMeaning
  import opened Utf8

  const MAX_TAGS := 8
  const MAX_TAG := 256

  datatype Patch = Patch(
    bindings: Option<seq<Binding>>, compatibilityDate: Option<string>,
    compatibilityFlags: Option<seq<string>>, tags: Option<seq<string>>)

  datatype SettingsFault = NoRevision | NativeOnly | BadPatch | Refused(fault: Fault) | AssetsUnbound

  predicate ValidTags(tags: seq<string>) {
    && |tags| <= MAX_TAGS
    && (forall tag :: tag in tags ==> 0 < |tag| <= MAX_TAG && ValidUtf8(tag))
    && forall i, j :: 0 <= i < j < |tags| ==> tags[i] != tags[j]
  }

  method ValidateTags(tags: seq<string>) returns (ok: bool)
    ensures ok <==> ValidTags(tags)
  {
    hide ValidUtf8;
    if |tags| > MAX_TAGS { return false; }
    var seen: set<string> := {};
    for i := 0 to |tags|
      invariant forall j :: 0 <= j < i ==> 0 < |tags[j]| <= MAX_TAG && ValidUtf8(tags[j]) && tags[j] in seen
      invariant forall t :: t in seen ==> exists j :: 0 <= j < i && tags[j] == t
      invariant forall j, k :: 0 <= j < k < i ==> tags[j] != tags[k]
    {
      var tag := tags[i];
      if tag == "" || |tag| > MAX_TAG || !ValidUtf8(tag) || tag in seen { return false; }
      seen := seen + {tag};
    }
    ok := true;
  }

  predicate PatchAllowed(patch: Patch) {
    && (patch.bindings.Some? ==> forall b :: b in patch.bindings.value ==> b.kind.Inherit? || ValidBinding(b))
    && (patch.tags.Some? ==> ValidTags(patch.tags.value))
  }

  method CheckPatch(patch: Patch) returns (ok: bool)
    ensures ok <==> PatchAllowed(patch)
  {
    hide ValidTags, ValidBinding;
    if patch.bindings.Some? {
      var bindings := patch.bindings.value;
      for i := 0 to |bindings|
        invariant forall j :: 0 <= j < i ==> bindings[j].kind.Inherit? || ValidBinding(bindings[j])
      {
        if !bindings[i].kind.Inherit? {
          var valid := Validate(bindings[i]);
          if !valid { return false; }
        }
      }
    }
    ok := true;
    if patch.tags.Some? { ok := ValidateTags(patch.tags.value); }
  }

  function OrElse<T>(given: Option<T>, otherwise: T): T {
    match given case Some(value) => value case None => otherwise
  }

  /** The upload that a patch stands for: strict, with the assets and, when the patch lists no
      bindings, with all of them. */
  function MetadataOf(patch: Patch, p: Previous): Metadata {
    Metadata(p.deployment.entrypoint,
      OrElse(patch.compatibilityDate, p.deployment.compatibilityDate),
      OrElse(patch.compatibilityFlags, p.deployment.compatibilityFlags),
      OrElse(patch.bindings, []), if patch.bindings.None? then PLAIN_KINDS else [], true, patch.tags, true)
  }

  predicate NativeRevision(p: Previous) {
    p.deployment.format != "modules" || p.deployment.dispatchNamespaces != []
  }

  predicate SettingsAcceptable(patch: Patch, previous: Option<Previous>, resolve: Option<Resolver>) {
    && previous.Some? && !NativeRevision(previous.value) && PatchAllowed(patch)
    && Acceptable(MetadataOf(patch, previous.value), previous, resolve, false)
    && (previous.value.deployment.assets != [] ==> NamesAssets(OriginsOf(MetadataOf(patch, previous.value), previous)))
  }

  /** The revision of the patch, with the code and the triggers of the one it patches. */
  predicate IsPatched(c: Candidate, patch: Patch, p: Previous, resolve: Option<Resolver>) {
    && c.deployment.files == p.deployment.files && c.deployment.dns == p.deployment.dns
    && c.deployment.triggers == p.deployment.triggers
    && IsRevision(c.(deployment := c.deployment.(files := [], dns := "", triggers := "")),
         MetadataOf(patch, p), Some(p), resolve)
  }

  method ApplySettings(patch: Patch, previous: Option<Previous>, resolve: Option<Resolver>)
    returns (r: Result<Candidate, SettingsFault>)
    ensures r.Ok? <==> SettingsAcceptable(patch, previous, resolve)
    ensures r.Ok? ==> IsPatched(r.value, patch, previous.value, resolve)
    ensures previous.None? <==> r == Err(NoRevision)
    ensures previous.Some? && NativeRevision(previous.value) <==> r == Err(NativeOnly)
    ensures previous.Some? && !NativeRevision(previous.value) && !PatchAllowed(patch) <==> r == Err(BadPatch)
    ensures r.Err? && r.error.Refused? ==>
      Explains(r.error.fault, MetadataOf(patch, previous.value), previous, resolve, false)
    ensures r == Err(AssetsUnbound) <==>
      && previous.Some? && !NativeRevision(previous.value) && PatchAllowed(patch)
      && Acceptable(MetadataOf(patch, previous.value), previous, resolve, false)
      && !SettingsAcceptable(patch, previous, resolve)
  {
    hide Acceptable, IsRevision, NamesAssets, OriginsOf, PatchAllowed, Explains;
    if previous.None? { return Err(NoRevision); }
    var p := previous.value;
    if p.deployment.format != "modules" || |p.deployment.dispatchNamespaces| > 0 { return Err(NativeOnly); }
    var allowed := CheckPatch(patch);
    if !allowed { return Err(BadPatch); }
    var m := Metadata(p.deployment.entrypoint, p.deployment.compatibilityDate, p.deployment.compatibilityFlags,
                      [], [], true, patch.tags, true);
    if patch.bindings.None? {
      m := m.(keepBindings := PLAIN_KINDS);
    } else {
      m := m.(bindings := patch.bindings.value);
    }
    if patch.compatibilityDate.Some? { m := m.(compatibilityDate := patch.compatibilityDate.value); }
    if patch.compatibilityFlags.Some? { m := m.(compatibilityFlags := patch.compatibilityFlags.value); }
    var translated := Translate(m, previous, resolve, false);
    if translated.Err? { return Err(Refused(translated.error)); }
    var c := translated.value;
    RevisionNamesAssets(c, m, previous, resolve);
    if |p.deployment.assets| > 0 && c.deployment.assetConfig.binding == "" { return Err(AssetsUnbound); }
    var d := p.deployment;
    c := c.(deployment := c.deployment.(files := d.files, dns := d.dns, triggers := d.triggers));
    r := Ok(c);
  }

  lemma RevisionNamesAssets(c: Candidate, m: Metadata, previous: Option<Previous>, resolve: Option<Resolver>)
    requires IsRevision(c, m, previous, resolve)
    ensures c.deployment.assetConfig.binding != "" <==> NamesAssets(OriginsOf(m, previous))
    ensures c.deployment.files == [] && c.deployment.dns == c.deployment.triggers == ""
  {
    hide OriginsOf, NamesAssets, Vars, Secrets, KeepSecrets, Entries, AssetsName, BindingFrom, Stored, Ascending;
    AssetsNamed(c.bindings);
    ListedAssets(c.bindings, OriginsOf(m, previous));
  }

  /** A patch without bindings, on a revision that was translated: it succeeds exactly when its
      tags are valid, the revision has no dispatch namespaces, and its assets, if any, are bound;
      and it then changes only what it mentions. */
  lemma OmittedBindingsArePreserved(c: Candidate, p: Previous, patch: Patch, resolve: Option<Resolver>,
                                    allowDispatch: bool,
                                    e: Candidate)
    requires Translated(c, resolve, allowDispatch) && Published(p, c) && patch.bindings.None?
    ensures SettingsAcceptable(patch, Some(p), resolve) <==>
      && (patch.tags.Some? ==> ValidTags(patch.tags.value))
      && p.deployment.dispatchNamespaces == []
      && (p.deployment.assets != [] ==> p.deployment.assetConfig.binding != "")
    ensures SettingsAcceptable(patch, Some(p), resolve) && IsPatched(e, patch, p, resolve) ==>
      OnlyMentioned(e, p, patch)
  {
    hide Translated, Sound, Published, SettingsAcceptable, IsPatched, OnlyMentioned, ValidTags;
    TranslatedIsSound(c, resolve, allowDispatch);
    OmittedAcceptable(c, p, patch, resolve, allowDispatch);
    if SettingsAcceptable(patch, Some(p), resolve) && IsPatched(e, patch, p, resolve) {
      OmittedPatched(c, p, patch, resolve, allowDispatch, e);
    }
  }

  /** The candidate is the revision with what the patch gives in place of what it had. */
  predicate OnlyMentioned(e: Candidate, p: Previous, patch: Patch) {
    && e.bindings == p.bindings
    && e.tags == OrElse(patch.tags, p.tags)
    && e.deployment == p.deployment.(
         compatibilityDate := OrElse(patch.compatibilityDate, p.deployment.compatibilityDate),
         compatibilityFlags := OrElse(patch.compatibilityFlags, p.deployment.compatibilityFlags))
    && e.secrets == map[]
    && e.keepSecrets == map n | n in SecretNames(p.bindings) :: n
  }

  lemma OmittedAcceptable(c: Candidate, p: Previous, patch: Patch, resolve: Option<Resolver>, allowDispatch: bool)
    requires Sound(c, resolve, allowDispatch) && Published(p, c) && patch.bindings.None?
    ensures SettingsAcceptable(patch, Some(p), resolve) <==>
      && (patch.tags.Some? ==> ValidTags(patch.tags.value))
      && p.deployment.dispatchNamespaces == []
      && (p.deployment.assets != [] ==> p.deployment.assetConfig.binding != "")
  {
    hide Sound, Acceptable, ValidTags, NamesAssets, OriginsOf;
    SoundFacts(c, resolve, allowDispatch);
    if p.deployment.dispatchNamespaces == [] {
      var m := MetadataOf(patch, p);
      SoundWithoutDispatch(c, resolve, allowDispatch);
      KeepingIsAcceptable(c, p, m, resolve, false);
      KeptNamesAssets(c, p, m, resolve);
    }
  }

  lemma OmittedPatched(c: Candidate, p: Previous, patch: Patch, resolve: Option<Resolver>, allowDispatch: bool,
                       e: Candidate)
    requires Sound(c, resolve, allowDispatch) && Published(p, c) && patch.bindings.None?
    requires SettingsAcceptable(patch, Some(p), resolve) && IsPatched(e, patch, p, resolve)
    ensures OnlyMentioned(e, p, patch)
  {
    hide Sound, Acceptable, IsRevision, ValidTags, NamesAssets, OriginsOf, SecretNames;
    SoundWithoutDispatch(c, resolve, allowDispatch);
    KeepEverything(c, p, MetadataOf(patch, p), resolve, false,
      e.(deployment := e.deployment.(files := [], dns := "", triggers := "")));
  }

  lemma SoundFacts(c: Candidate, resolve: Option<Resolver>, allowDispatch: bool)
    requires Sound(c, resolve, allowDispatch)
    ensures c.deployment.format == "modules" && Ascending(NamesOf(c.bindings))
    ensures c.deployment.assetConfig.binding == AssetsName(c.bindings)
  {
    hide Ascending, ValidBinding, Stored, VarsProject, EntryOf, Entries, AssetsName;
  }

  lemma KeptNamesAssets(c: Candidate, p: Previous, m: Metadata, resolve: Option<Resolver>)
    requires Sound(c, resolve, false) && Published(p, c) && KeepsEverything(m, false)
    ensures NamesAssets(OriginsOf(m, Some(p))) <==> p.deployment.assetConfig.binding != ""
  {
    hide Sound, KeepsEverything, Lists, NamesAssets, OriginsOf, AssetsName;
    SoundFacts(c, resolve, false);
    KeptLists(c, p, m, resolve, false);
    ListedAssets(c.bindings, OriginsOf(m, Some(p)));
    AssetsNamed(c.bindings);
  }

  const EMPTY := Patch(None, None, None, None)

  /** The empty patch is the identity on configuration whenever it succeeds. */
  lemma EmptyPatchIsIdentity(c: Candidate, p: Previous, resolve: Option<Resolver>, allowDispatch: bool, e: Candidate)
    requires Translated(c, resolve, allowDispatch) && Published(p, c)
    requires SettingsAcceptable(EMPTY, Some(p), resolve) && IsPatched(e, EMPTY, p, resolve)
    ensures e.deployment == p.deployment && e.bindings == p.bindings && e.tags == p.tags
  {
    hide Translated, SettingsAcceptable, IsPatched;
    OmittedBindingsArePreserved(c, p, EMPTY, resolve, allowDispatch, e);
  }

  // ----- when a patch is acceptable, and what it replaces

  /** At most eight tags, each of 1 to 256 bytes of UTF-8, all different. */
  predicate FineTags(tags: seq<string>) {
    && |tags| <= 8 && (forall i, j :: 0 <= i < j < |tags| ==> tags[i] != tags[j])
    && forall tag :: tag in tags ==> 1 <= |tag| <= 256 && ValidUtf8(tag)
  }

  /** The upload that stands for the patch: the entries it lists, or all retained ones, strictly, on
      the code, the assets and the settings that it leaves as they are. */
  ghost predicate Patches(m: Metadata, patch: Patch, p: Previous) {
    && m.mainModule == p.deployment.entrypoint && m.keepAssets && m.strictInherit && m.tags == patch.tags
    && m.compatibilityDate == (if patch.compatibilityDate.Some? then patch.compatibilityDate.value
                               else p.deployment.compatibilityDate)
    && m.compatibilityFlags == (if patch.compatibilityFlags.Some? then patch.compatibilityFlags.value
                                else p.deployment.compatibilityFlags)
    && (if patch.bindings.Some? then m.bindings == patch.bindings.value && m.keepBindings == []
        else m.bindings == [] && forall kind :: kind in m.keepBindings <==> kind in PLAIN)
  }

  lemma MetadataPatches(patch: Patch, p: Previous)
    ensures Patches(MetadataOf(patch, p), patch, p)
  {
  }

  /** A patch is acceptable exactly on a revision of modules without dispatch namespaces, when what it
      lists is well formed, when the upload it stands for is, and when the assets stay bound. */
  lemma SettingsAcceptableExactly(patch: Patch, p: Previous, resolve: Option<Resolver>)
    ensures SettingsAcceptable(patch, Some(p), resolve) <==>
      && p.deployment.format == "modules" && p.deployment.dispatchNamespaces == []
      && (patch.bindings.Some? ==> forall b :: b in patch.bindings.value ==> b.kind == Inherit || ValidBinding(b))
      && (patch.tags.Some? ==> FineTags(patch.tags.value))
      && (exists m :: Patches(m, patch, p) && FineUpload(m, Some(p), resolve, false)
                      && (p.deployment.assets != [] ==> BindsAssets(m, Some(p))))
  {
    hide Acceptable, FineUpload, NamesAssets, OriginsOf, Gives, ValidBinding, ValidUtf8, Patches, MetadataOf;
    var m := MetadataOf(patch, p);
    MetadataPatches(patch, p);
    AcceptableExactly(m, Some(p), resolve, false);
    assert patch.tags.Some? ==> (FineTags(patch.tags.value) <==> ValidTags(patch.tags.value));
    if Acceptable(m, Some(p), resolve, false) {
      AcceptableNames(m, Some(p), resolve, false);
      NamesAssetsExactly(m, Some(p));
    }
    forall n | Patches(n, patch, p)
      ensures FineUpload(n, Some(p), resolve, false) <==> FineUpload(m, Some(p), resolve, false)
      ensures BindsAssets(n, Some(p)) <==> BindsAssets(m, Some(p))
    {
      SamePatch(m, n, patch, p, resolve);
    }
  }

  /** The patch stands for one upload, but for the order of the retained types. */
  lemma SamePatch(m: Metadata, n: Metadata, patch: Patch, p: Previous, resolve: Option<Resolver>)
    requires Patches(m, patch, p) && Patches(n, patch, p)
    ensures FineUpload(n, Some(p), resolve, false) <==> FineUpload(m, Some(p), resolve, false)
    ensures BindsAssets(n, Some(p)) <==> BindsAssets(m, Some(p))
  {
    hide MayKeep, FineEntry, FineBinding, PriorAt;
    forall x, b, from ensures Gives(m, Some(p), x, b, from) <==> Gives(n, Some(p), x, b, from) {
    }
    hide Gives;
    forall x ensures Bound(m, Some(p), x) <==> Bound(n, Some(p), x) {
    }
  }

  /** What a patch makes of the revision: code, DNS settings and triggers stay, and the rest is what
      the upload that it stands for describes. */
  lemma PatchedIsDescribed(e: Candidate, patch: Patch, p: Previous, resolve: Option<Resolver>) returns (m: Metadata)
    requires SettingsAcceptable(patch, Some(p), resolve) && IsPatched(e, patch, p, resolve)
    ensures Patches(m, patch, p)
    ensures Describes(e.(deployment := e.deployment.(files := [], dns := "", triggers := "")), m, Some(p), resolve)
    ensures e.deployment.files == p.deployment.files && e.deployment.dns == p.deployment.dns
    ensures e.deployment.triggers == p.deployment.triggers
  {
    hide Acceptable, IsRevision, Describes, Patches, NamesAssets, OriginsOf, MetadataOf;
    m := MetadataOf(patch, p);
    MetadataPatches(patch, p);
    AcceptableNames(m, Some(p), resolve, false);
    RevisionIsDescribed(e.(deployment := e.deployment.(files := [], dns := "", triggers := "")), m, Some(p), resolve);
  }

  /** A patch that lists bindings replaces them all: the names afterwards are those it lists. */
  lemma ListedBindingsReplaceAll(e: Candidate, patch: Patch, p: Previous, resolve: Option<Resolver>, n: string)
    requires SettingsAcceptable(patch, Some(p), resolve) && IsPatched(e, patch, p, resolve) && patch.bindings.Some?
    ensures (exists b :: b in e.bindings && b.name == n) <==> exists b :: b in patch.bindings.value && b.name == n
  {
    hide IsPatched, SettingsAcceptable, BindingsOf, VariablesOf, SecretsOf, EntriesOf, AssetsNamedLast, RestOf,
         FineUpload, FineTags;
    var m := PatchedIsDescribed(e, patch, p, resolve);
    SettingsAcceptableExactly(patch, p, resolve);
    var w :| Patches(w, patch, p) && FineUpload(w, Some(p), resolve, false);
    SamePatch(m, w, patch, p, resolve);
    NamesAreListed(e.bindings, m, p, resolve, n);
  }

  lemma NamesAreListed(bindings: seq<Binding>, m: Metadata, p: Previous, resolve: Option<Resolver>, n: string)
    requires BindingsOf(bindings, m, Some(p)) && FineUpload(m, Some(p), resolve, false)
    requires m.strictInherit && m.keepBindings == []
    ensures (exists b :: b in bindings && b.name == n) <==> exists b :: b in m.bindings && b.name == n
  {
    hide Gives, StoredAs, Less, FineUpload;
    if stored :| stored in bindings && stored.name == n {
      var b, from :| Gives(m, Some(p), stored.name, b, from) && StoredAs(b, stored);
      NothingKept(m, p, n, b, from);
    }
    if b :| b in m.bindings && b.name == n {
      ListedIsBound(m, p, b, resolve);
      var g, from :| Gives(m, Some(p), n, g, from);
      GivenIsNamed(m, Some(p), n, g, from);
      StoredExactly(g, Stored(g));
      StoredIsStable(g);
      assert Gives(m, Some(p), Stored(g).name, g, from) && StoredAs(g, Stored(g));
    }
  }

  lemma NothingKept(m: Metadata, p: Previous, n: string, b: Binding, from: Option<string>)
    requires Gives(m, Some(p), n, b, from) && m.keepBindings == []
    ensures exists e :: e in m.bindings && e.name == n
  {
  }

  lemma GivenIsNamed(m: Metadata, previous: Option<Previous>, n: string, b: Binding, from: Option<string>)
    requires Gives(m, previous, n, b, from)
    ensures b.name == n
  {
  }

  lemma ListedIsBound(m: Metadata, p: Previous, e: Binding, resolve: Option<Resolver>)
    requires FineUpload(m, Some(p), resolve, false) && m.strictInherit && e in m.bindings
    ensures Bound(m, Some(p), e.name)
  {
    hide PriorAt, MayKeep, FineBinding;
    if e.kind == Inherit {
      assert FineEntry(e, Some(p), true);
      var source := if e.oldName == "" then e.name else e.oldName;
      var was :| PriorAt(Some(p), source, was);
      assert Gives(m, Some(p), e.name, was.(name := e.name), Some(source));
    } else {
      assert Gives(m, Some(p), e.name, e, None);
    }
  }
}
