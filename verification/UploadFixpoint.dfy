/** Keeping everything changes nothing: translating a revision with all its types and its assets
    retained gives that revision again. */
module UploadFixpoint {
  import opened Outcomes
  import opened Sequences
  import opened NameOrder
  import opened UploadBindings
  import opened Upload
  import opened UploadTheorems

  const PLAIN_KINDS := [PlainText, Json, SecretText, KvNamespace, D1, R2Bucket, Service, Assets]

  function AllKinds(allowDispatch: bool): seq<Kind> {
    if allowDispatch then PLAIN_KINDS + [DispatchNamespace] else PLAIN_KINDS
  }

  lemma AllKindsAre(allowDispatch: bool)
    ensures forall kind :: kind in AllKinds(allowDispatch) <==> Supported(kind, allowDispatch)
  {
  }

  /** The candidate was translated from some upload. */
  ghost predicate Translated(c: Candidate, resolve: Option<Resolver>, allowDispatch: bool) {
    exists m, previous :: Acceptable(m, previous, resolve, allowDispatch) && IsRevision(c, m, previous, resolve)
  }

  /** The revision as it is found later: its files, names and triggers were added. */
  predicate Published(p: Previous, c: Candidate) {
    && p.bindings == c.bindings && p.tags == c.tags
    && p.deployment.(files := [], dns := "", triggers := "") == c.deployment
  }

  /** No entries, every type retained, the assets kept. */
  predicate KeepsEverything(m: Metadata, allowDispatch: bool) {
    m.bindings == [] && m.keepAssets && multiset(m.keepBindings) == multiset(AllKinds(allowDispatch))
  }

  /** The deployment lists the bindings, each under its type. */
  predicate Projects(d: Deployment, bindings: seq<Binding>, resolve: Option<Resolver>) {
    && VarsProject(bindings, d.vars)
    && d.kvNamespaces == Entries(bindings, KvNamespace, resolve)
    && d.databases == Entries(bindings, D1, resolve)
    && d.dispatchNamespaces == Entries(bindings, DispatchNamespace, resolve)
    && d.buckets == Entries(bindings, R2Bucket, resolve)
    && d.services == Entries(bindings, Service, resolve)
    && d.assetConfig.binding == AssetsName(bindings)
    && d.format == "modules" && d.files == [] && d.dns == "" && d.triggers == ""
  }

  /** What a translated candidate is, apart from the upload it came from. */
  ghost predicate Sound(c: Candidate, resolve: Option<Resolver>, allowDispatch: bool) {
    && Ascending(NamesOf(c.bindings)) && |c.bindings| <= MAX_BINDINGS
    && (forall b :: b in c.bindings ==> Supported(b.kind, allowDispatch) && ValidBinding(b) && Stored(b) == b)
    && (forall b :: b in c.bindings && b.kind in RESOURCES ==> EntryOf(b, resolve).Some?)
    && Projects(c.deployment, c.bindings, resolve)
    && ((exists b :: b in c.bindings && b.kind == Assets && b.name != "") ==> c.deployment.assets != [])
  }

  lemma {:induction false} DistinctWhenAscending(bindings: seq<Binding>)
    requires Ascending(NamesOf(bindings))
    ensures DistinctNames(bindings)
  {
    hide Less;
    forall i, j | 0 <= i < j < |bindings| ensures bindings[i].name != bindings[j].name {
      assert Less(NamesOf(bindings)[i], NamesOf(bindings)[j]);
      LessIsStrict(NamesOf(bindings)[i], NamesOf(bindings)[j]);
    }
  }

  /** Everything is retained under its own name. */
  lemma KeptOrigins(m: Metadata, p: Previous, allowDispatch: bool)
    requires KeepsEverything(m, allowDispatch) && Ascending(NamesOf(p.bindings))
    requires forall b :: b in p.bindings ==> Supported(b.kind, allowDispatch)
    ensures var origins := OriginsOf(m, Some(p));
      && origins.Keys == Elements(NamesOf(p.bindings))
      && forall b :: b in p.bindings ==> b.name in origins && origins[b.name] == Retained(b.name, b)
  {
    hide Named, Ascending, AllKinds, Supported;
    DistinctWhenAscending(p.bindings);
    NamedDistinct(p.bindings);
    NamedFacts(p.bindings);
    AllKindsAre(allowDispatch);
    SameElements(m.keepBindings, AllKinds(allowDispatch));
    NothingNamed();
    SecretKeyUnsupported(allowDispatch);
    assert forall kind :: Supported(kind, allowDispatch) ==> kind != SecretKey;
    forall n ensures n in Elements(NamesOf(p.bindings)) <==> n in Named(p.bindings) {
      if n in Named(p.bindings) {
        var i :| 0 <= i < |p.bindings| && p.bindings[i] == Named(p.bindings)[n];
        assert NamesOf(p.bindings)[i] == n;
      }
      if n in Elements(NamesOf(p.bindings)) {
        var i :| 0 <= i < |p.bindings| && NamesOf(p.bindings)[i] == n;
        assert p.bindings[i] in p.bindings;
      }
    }
  }

  lemma NothingNamed()
    ensures Named([]) == map[]
  {
  }

  lemma SecretKeyUnsupported(allowDispatch: bool)
    ensures !Supported(SecretKey, allowDispatch)
  {
  }

  /** The pinned identity of a listed binding is the one it was listed with. */
  lemma {:induction false} PinnedEntry(bindings: seq<Binding>, b: Binding, resolve: Option<Resolver>)
    requires DistinctNames(bindings) && b in bindings && b.kind == DispatchNamespace && EntryOf(b, resolve).Some?
    ensures Pinned(Entries(bindings, DispatchNamespace, resolve), b.name) == EntryOf(b, resolve).value.id
    decreases |bindings|
  {
    hide EntryOf, Pinned, Entries;
    var init, last := bindings[..|bindings| - 1], bindings[|bindings| - 1];
    LastEntry(bindings, resolve, b.name);
    if b != last {
      assert b in init by { assert bindings == init + [last]; }
      var i :| 0 <= i < |init| && init[i] == b;
      assert bindings[i].name != bindings[|init|].name;
      PinnedEntry(init, b, resolve);
    }
  }

  /** What the last binding adds to the pinned identities. */
  lemma LastEntry(bindings: seq<Binding>, resolve: Option<Resolver>, n: string)
    requires bindings != []
    ensures var init, last := bindings[..|bindings| - 1], bindings[|bindings| - 1];
      Pinned(Entries(bindings, DispatchNamespace, resolve), n) ==
        if last.kind == DispatchNamespace && EntryOf(last, resolve).Some? && last.name == n
          then EntryOf(last, resolve).value.id
        else Pinned(Entries(init, DispatchNamespace, resolve), n)
  {
    hide EntryOf;
    var last := bindings[|bindings| - 1];
    EntryNames(last, resolve);
    var entries := Entries(bindings[..|bindings| - 1], DispatchNamespace, resolve);
    if last.kind == DispatchNamespace && EntryOf(last, resolve).Some? {
      var more := entries + [EntryOf(last, resolve).value];
      assert Entries(bindings, DispatchNamespace, resolve) == more && more[..|more| - 1] == entries;
    } else {
      assert Entries(bindings, DispatchNamespace, resolve) == entries + [] == entries;
    }
  }

  lemma EntryNames(b: Binding, resolve: Option<Resolver>)
    ensures EntryOf(b, resolve).Some? ==> EntryOf(b, resolve).value.binding == b.name
  {
  }

  lemma RetainedAllowed(c: Candidate, p: Previous, resolve: Option<Resolver>, allowDispatch: bool, b: Binding)
    requires Sound(c, resolve, allowDispatch) && Published(p, c) && b in c.bindings
    ensures BindingAllowed(b, Retained(b.name, b), Some(p), resolve, allowDispatch)
  {
    hide Ascending, ValidBinding, Supported, Stored, Resolved, Pinned, Entries;
    DistinctWhenAscending(c.bindings);
    if b.kind == DispatchNamespace { PinnedEntry(c.bindings, b, resolve); }
  }

  lemma ListedAssets(bindings: seq<Binding>, origins: map<string, Origin>)
    requires Lists(bindings, origins)
    ensures NamesAssets(origins) <==> exists b :: b in bindings && b.kind == Assets && b.name != ""
  {
    hide BindingFrom, Stored, Ascending;
    forall n | n in origins
      ensures Stored(BindingFrom(origins[n], n)) in bindings
      ensures Stored(BindingFrom(origins[n], n)).kind == BindingFrom(origins[n], n).kind
      ensures Stored(BindingFrom(origins[n], n)).name == n
    {
      ListsEach(bindings, origins, n);
      StoredIsStable(BindingFrom(origins[n], n));
      OriginName(origins[n], n);
    }
  }

  lemma OriginName(origin: Origin, n: string)
    ensures BindingFrom(origin, n).name == n
  {
  }

  lemma RevisionAssets(c: Candidate, m: Metadata, previous: Option<Previous>, resolve: Option<Resolver>,
                       allowDispatch: bool)
    requires Acceptable(m, previous, resolve, allowDispatch) && IsRevision(c, m, previous, resolve)
    ensures (exists b :: b in c.bindings && b.kind == Assets && b.name != "") ==> c.deployment.assets != []
    ensures Projects(c.deployment, c.bindings, resolve)
  {
    hide OriginsOf, Lists, Vars, Secrets, KeepSecrets, Entries, AllAllowed, EntriesAllowed, NamesAssets, AssetsOf,
         VarsProject,
         AssetsName;
    VarsAreProjected(c, m, previous, resolve);
    ListedAssets(c.bindings, OriginsOf(m, previous));
  }

  lemma TranslatedIsSound(c: Candidate, resolve: Option<Resolver>, allowDispatch: bool)
    requires Translated(c, resolve, allowDispatch)
    ensures Sound(c, resolve, allowDispatch)
  {
    hide Acceptable, IsRevision, Stored, Ascending;
    var m, previous :| Acceptable(m, previous, resolve, allowDispatch) && IsRevision(c, m, previous, resolve);
    RevisionIsComplete(c, m, previous, resolve, allowDispatch);
    RevisionAssets(c, m, previous, resolve, allowDispatch);
  }

  /** A revision is acceptable again as it is. */
  lemma KeepingIsAcceptable(c: Candidate, p: Previous, m: Metadata, resolve: Option<Resolver>, allowDispatch: bool)
    requires Sound(c, resolve, allowDispatch) && Published(p, c) && KeepsEverything(m, allowDispatch)
    ensures Acceptable(m, Some(p), resolve, allowDispatch)
  {
    hide Projects, Supported, Ascending, AllKinds, BindingFrom, OriginsOf, BindingAllowed, Named, Stored,
         ValidBinding, Entries,
         EntryOf, RESOURCES;
    var origins := OriginsOf(m, Some(p));
    KeptOrigins(m, p, allowDispatch);
    KeptEntriesAllowed(m, p, allowDispatch);
    AscendingCount(NamesOf(p.bindings));
    assert |origins| == |origins.Keys|;
    forall n | n in origins
      ensures exists b :: b in p.bindings && b.name == n && origins[n] == Retained(n, b)
                          && BindingFrom(origins[n], n) == b
    {
      var i :| 0 <= i < |p.bindings| && NamesOf(p.bindings)[i] == n;
      assert p.bindings[i] in p.bindings;
      RetainedItself(p.bindings[i]);
    }
    forall n | n in origins
      ensures BindingAllowed(BindingFrom(origins[n], n), origins[n], Some(p), resolve, allowDispatch)
    {
      RetainedAllowed(c, p, resolve, allowDispatch, BindingFrom(origins[n], n));
    }
  }

  lemma RetainedItself(b: Binding)
    ensures BindingFrom(Retained(b.name, b), b.name) == b
  {
  }

  lemma KeptEntriesAllowed(m: Metadata, p: Previous, allowDispatch: bool)
    requires KeepsEverything(m, allowDispatch)
    ensures EntriesAllowed(m, Some(p), allowDispatch)
  {
    hide Supported, AllKinds, Prior;
    AllKindsAre(allowDispatch);
    SameElements(m.keepBindings, AllKinds(allowDispatch));
    SecretKeyUnsupported(allowDispatch);
  }

  /** What keeping everything lists is what is there. */
  lemma KeptLists(c: Candidate, p: Previous, m: Metadata, resolve: Option<Resolver>, allowDispatch: bool)
    requires Sound(c, resolve, allowDispatch) && Published(p, c) && KeepsEverything(m, allowDispatch)
    ensures Lists(c.bindings, OriginsOf(m, Some(p)))
  {
    hide Projects, Supported, Ascending, AllKinds, BindingFrom, OriginsOf, Stored, ValidBinding, Entries, EntryOf,
         RESOURCES;
    KeptOrigins(m, p, allowDispatch);
    forall b | b in c.bindings ensures b == Stored(BindingFrom(OriginsOf(m, Some(p))[b.name], b.name)) {
      RetainedItself(b);
    }
  }

  /** Bindings that all are retained under their own names and hold no secret values. */
  ghost predicate AllRetained(bindings: seq<Binding>, origins: map<string, Origin>) {
    && origins.Keys == Elements(NamesOf(bindings))
    && forall b :: b in bindings ==>
         b.name in origins && origins[b.name] == Retained(b.name, b) && (b.kind == SecretText ==> b.text == None)
  }

  lemma RetainedAt(bindings: seq<Binding>, origins: map<string, Origin>, n: string) returns (b: Binding)
    requires AllRetained(bindings, origins) && n in origins
    ensures b in bindings && b.name == n && origins[n] == Retained(n, b) && BindingFrom(origins[n], n) == b
    ensures b.kind == SecretText ==> b.text == None
  {
    var i :| 0 <= i < |bindings| && NamesOf(bindings)[i] == n;
    b := bindings[i];
    assert b in bindings;
  }

  lemma RetainedSecrets(bindings: seq<Binding>, origins: map<string, Origin>)
    requires AllRetained(bindings, origins)
    ensures Secrets(origins) == map[]
    ensures KeepSecrets(origins) == map n | n in SecretNames(bindings) :: n
  {
    hide AllRetained, BindingFrom;
    forall n | n in origins
      ensures BindingFrom(origins[n], n).kind == SecretText ==> BindingFrom(origins[n], n).text == None
      ensures origins[n].Retained? && origins[n].from == n
      ensures BindingFrom(origins[n], n).kind == SecretText <==> n in SecretNames(bindings)
    {
      var b := RetainedAt(bindings, origins, n);
      NamedSecret(bindings, origins, n, b);
    }
    assert SecretNames(bindings) <= origins.Keys by { SecretsRetained(bindings, origins); }
  }

  lemma NamedSecret(bindings: seq<Binding>, origins: map<string, Origin>, n: string, b: Binding)
    requires AllRetained(bindings, origins) && b in bindings && b.name == n
    ensures b.kind == SecretText <==> n in SecretNames(bindings)
  {
    hide Elements, NamesOf;
    assert forall c :: c in bindings && c.name == n ==> Retained(n, c) == Retained(n, b);
  }

  lemma SecretsRetained(bindings: seq<Binding>, origins: map<string, Origin>)
    requires AllRetained(bindings, origins)
    ensures SecretNames(bindings) <= origins.Keys
  {
    hide Elements, NamesOf;
  }

  /** The secrets of a revision kept whole are kept under their own names. */
  lemma KeptSecrets(c: Candidate, p: Previous, m: Metadata, resolve: Option<Resolver>, allowDispatch: bool)
    requires Sound(c, resolve, allowDispatch) && Published(p, c) && KeepsEverything(m, allowDispatch)
    ensures Secrets(OriginsOf(m, Some(p))) == map[]
    ensures KeepSecrets(OriginsOf(m, Some(p))) == map n | n in SecretNames(c.bindings) :: n
  {
    hide Projects, Supported, Ascending, AllKinds, OriginsOf, ValidBinding, Entries, EntryOf, RESOURCES, Secrets,
         KeepSecrets;
    hide SecretNames, Elements, NamesOf;
    KeptOrigins(m, p, allowDispatch);
    RetainedSecrets(c.bindings, OriginsOf(m, Some(p)));
  }

  /** Keeping everything changes nothing but what the upload itself says: its main module, its
      compatibility settings and its tags. */
  lemma KeepEverything(c: Candidate, p: Previous, m: Metadata, resolve: Option<Resolver>, allowDispatch: bool,
                       e: Candidate)
    requires Sound(c, resolve, allowDispatch) && Published(p, c) && KeepsEverything(m, allowDispatch)
    requires IsRevision(e, m, Some(p), resolve)
    ensures e.bindings == c.bindings
    ensures e.deployment == c.deployment.(entrypoint := m.mainModule, compatibilityDate := m.compatibilityDate,
                                          compatibilityFlags := m.compatibilityFlags)
    ensures e.tags == if m.tags.Some? then m.tags.value else c.tags
    ensures e.secrets == map[]
    ensures e.keepSecrets == map n | n in SecretNames(c.bindings) :: n
  {
    hide Lists, Vars, Secrets, KeepSecrets, Entries, AssetsName, OriginsOf, AllKinds, VarsProject, Stored,
         ValidBinding, Supported;
    KeptLists(c, p, m, resolve, allowDispatch);
    KeptSecrets(c, p, m, resolve, allowDispatch);
    ListsUnique(e.bindings, c.bindings, OriginsOf(m, Some(p)));
    RevisionVars(e, m, Some(p), resolve);
    SameVars(c.bindings, c.deployment.vars, e.deployment.vars);
  }

  lemma RevisionVars(c: Candidate, m: Metadata, previous: Option<Previous>, resolve: Option<Resolver>)
    requires IsRevision(c, m, previous, resolve)
    ensures VarsProject(c.bindings, c.deployment.vars)
  {
    hide IsRevision, VarsProject;
    VarsAreProjected(c, m, previous, resolve);
  }

  lemma SameVars(bindings: seq<Binding>, vars: map<string, Var>, others: map<string, Var>)
    requires VarsProject(bindings, vars) && VarsProject(bindings, others)
    ensures vars == others
  {
    hide VarOf;
    forall x | x in Elements(NamesOf(bindings))
      ensures x in vars <==> x in others
      ensures x in vars ==> vars[x] == others[x]
    {
      var i :| 0 <= i < |bindings| && NamesOf(bindings)[i] == x;
      assert bindings[i] in bindings;
    }
    assert vars.Keys == others.Keys;
  }

  /** A sound candidate without dispatch namespaces needs no leave for them. */
  lemma SoundWithoutDispatch(c: Candidate, resolve: Option<Resolver>, allowDispatch: bool)
    requires Sound(c, resolve, allowDispatch) && c.deployment.dispatchNamespaces == []
    ensures Sound(c, resolve, false)
  {
    hide Ascending, ValidBinding, Stored, VarsProject, EntryOf, Entries;
    forall b | b in c.bindings ensures b.kind != DispatchNamespace {
      if b.kind == DispatchNamespace {
        ListedEntry(c.bindings, b, resolve);
        assert false;
      }
    }
  }

  lemma ListedEntry(bindings: seq<Binding>, b: Binding, resolve: Option<Resolver>)
    requires b in bindings && EntryOf(b, resolve).Some?
    ensures Entries(bindings, b.kind, resolve) != []
  {
    hide Entries, EntryOf;
    EntriesMembers(bindings, b.kind, resolve);
    assert EntryOf(b, resolve).value in Entries(bindings, b.kind, resolve);
  }
}
