/** What an upload asks for, told from its entries, its retained types and the prior revision: which
    binding each name gets and from where, when the upload is acceptable, and what the revision holds. */
module UploadMeaning {
  import opened Outcomes
  import opened NameOrder
  import opened UploadBindings
  import opened Upload
  import opened UploadTheorems

  // ----- where the binding of a name comes from

  /** The last of the bindings with this name. */
  predicate LastNamed(bindings: seq<Binding>, n: string, p: Binding) {
    p.name == n && exists i :: 0 <= i < |bindings| && bindings[i] == p
                               && forall j :: i < j < |bindings| ==> bindings[j].name != n
  }

  /** The prior binding of the name, of two the later. */
  predicate PriorAt(previous: Option<Previous>, n: string, p: Binding) {
    previous.Some? && LastNamed(previous.value.bindings, n, p)
  }

  lemma LastNamedStep(bindings: seq<Binding>, last: Binding, n: string, p: Binding)
    ensures LastNamed(bindings + [last], n, p) <==> if last.name == n then last == p else LastNamed(bindings, n, p)
  {
    var more, k := bindings + [last], |bindings|;
    assert more[k] == last && forall j :: 0 <= j < k ==> more[j] == bindings[j];
    if p.name == n {
      if i :| 0 <= i < |more| && more[i] == p && forall j :: i < j < |more| ==> more[j].name != n {
        if i < k { assert more[k].name != n && bindings[i] == p; }
      }
      if last.name != n && LastNamed(bindings, n, p) {
        var i :| 0 <= i < |bindings| && bindings[i] == p && forall j :: i < j < |bindings| ==> bindings[j].name != n;
        assert more[i] == p;
      }
      if last == p { assert more[k] == p; }
    }
  }

  lemma {:induction false} NamedAt(bindings: seq<Binding>, n: string, p: Binding)
    ensures n in Named(bindings) && Named(bindings)[n] == p <==> LastNamed(bindings, n, p)
    decreases |bindings|
  {
    if bindings != [] {
      hide LastNamed;
      var k := |bindings| - 1;
      NamedAt(bindings[..k], n, p);
      LastNamedStep(bindings[..k], bindings[k], n, p);
      assert bindings == bindings[..k] + [bindings[k]];
      if n in Named(bindings) { NamedFacts(bindings); }
    }
  }

  lemma PriorExactly(previous: Option<Previous>, n: string, p: Binding)
    ensures n in Prior(previous) && Prior(previous)[n] == p <==> PriorAt(previous, n, p)
  {
    hide Named;
    if previous.Some? { NamedAt(previous.value.bindings, n, p); }
  }

  /** The upload gives the name the binding: its own entry, the prior binding that its inherit entry
      names, or, without an entry, the prior binding of a retained type. `from` is the prior name of
      what is retained. */
  ghost predicate Gives(m: Metadata, previous: Option<Previous>, n: string, b: Binding, from: Option<string>) {
    if exists e :: e in m.bindings && e.name == n then
      || (b in m.bindings && b.name == n && b.kind != Inherit && from == None)
      || (exists e :: e in m.bindings && e.name == n && e.kind == Inherit
            && from == Some(if e.oldName == "" then n else e.oldName)
            && exists p :: PriorAt(previous, from.value, p) && b == p.(name := n))
    else from == Some(n) && PriorAt(previous, n, b) && b.kind in m.keepBindings && b.kind != SecretKey
  }

  function FromOf(origin: Origin): Option<string> {
    match origin case Given(_) => None case Retained(from, _) => Some(from)
  }

  /** Given with this binding and source, in the terms of the translation. */
  predicate Originates(m: Metadata, previous: Option<Previous>, n: string, b: Binding, from: Option<string>) {
    var origins := OriginsOf(m, previous);
    n in origins && BindingFrom(origins[n], n) == b && FromOf(origins[n]) == from
  }

  lemma NamedEntry(m: Metadata, n: string)
    requires DistinctNames(m.bindings)
    ensures n in Named(m.bindings) <==> exists e :: e in m.bindings && e.name == n
    ensures forall e :: e in m.bindings && e.name == n ==> n in Named(m.bindings) && Named(m.bindings)[n] == e
    ensures n in Named(m.bindings) ==> Named(m.bindings)[n] in m.bindings && Named(m.bindings)[n].name == n
  {
    hide Named;
    NamedFacts(m.bindings);
    NamedDistinct(m.bindings);
  }

  lemma OriginatesExactly(m: Metadata, previous: Option<Previous>, n: string, b: Binding, from: Option<string>)
    requires DistinctNames(m.bindings)
    ensures Originates(m, previous, n, b, from) <==> Gives(m, previous, n, b, from)
  {
    hide Named, PriorAt, Prior, DistinctNames;
    NamedEntry(m, n);
    forall x, p ensures x in Prior(previous) && Prior(previous)[x] == p <==> PriorAt(previous, x, p) {
      PriorExactly(previous, x, p);
    }
    var prior, given := Prior(previous), Named(m.bindings);
    if n in given {
      var e := given[n];
      var source := Source(e);
      if e.kind == Inherit {
        if source in prior { assert PriorAt(previous, source, prior[source]); }
      } else {
        assert e.(name := n) == e;
      }
    } else if n in prior {
      assert PriorAt(previous, n, prior[n]);
      PriorNames(previous, n);
    }
  }

  lemma PriorNames(previous: Option<Previous>, n: string)
    requires n in Prior(previous)
    ensures Prior(previous)[n].name == n && Prior(previous)[n].(name := n) == Prior(previous)[n]
  {
    hide Named;
    NamedFacts(previous.value.bindings);
  }

  // ----- when the upload is acceptable

  const PLAIN: set<Kind> := {PlainText, Json, SecretText, KvNamespace, D1, R2Bucket, Service, Assets}

  predicate Offered(kind: Kind, allowDispatch: bool) {
    kind in PLAIN || (kind == DispatchNamespace && allowDispatch)
  }

  /** A type can be retained if it is offered; secret keys only where there are none. */
  ghost predicate MayKeep(kind: Kind, previous: Option<Previous>, allowDispatch: bool) {
    if kind == SecretKey then forall n, p :: PriorAt(previous, n, p) ==> p.kind != SecretKey
    else Offered(kind, allowDispatch)
  }

  ghost predicate HasPrior(previous: Option<Previous>, n: string) {
    exists p :: PriorAt(previous, n, p)
  }

  /** A name of 1 to 128 bytes; an inherit entry holds only its name, source and version, which is
      the latest, and names what is there if it must. */
  ghost predicate FineEntry(e: Binding, previous: Option<Previous>, strict: bool) {
    && 1 <= |e.name| <= 128
    && (e.kind == Inherit ==>
          && (e.versionID == "" || e.versionID == "latest")
          && e == Binding(e.name, Inherit, None, None, "", "", "", "", "", "", "", e.oldName, e.versionID)
          && (strict ==> HasPrior(previous, if e.oldName == "" then e.name else e.oldName)))
  }

  /** The resolver gives the resource this identity. */
  ghost predicate Identity(resolve: Option<Resolver>, kind: Kind, name: string, id: string) {
    resolve.Some? && resolve.value(kind, name) == Some(id) && id != ""
  }

  /** The last entry of the binding holds the identity. */
  predicate LastEntry(entries: seq<Entry>, binding: string, id: string) {
    exists i :: 0 <= i < |entries| && entries[i] == Entry(binding, id)
                && forall j :: i < j < |entries| ==> entries[j].binding != binding
  }

  /** A secret has a value or is retained; a resource has an identity, and a retained namespace the
      one that the previous deployment lists. */
  ghost predicate FineBinding(b: Binding, from: Option<string>, previous: Option<Previous>, resolve: Option<Resolver>,
                              allowDispatch: bool) {
    && Offered(b.kind, allowDispatch) && ValidBinding(b)
    && match b.kind
       case SecretText => b.text.Some? || from.Some?
       case R2Bucket => exists id :: Identity(resolve, R2Bucket, b.bucketName, id)
       case Service => exists id :: Identity(resolve, Service, b.service, id)
       case DispatchNamespace =>
         exists id :: Identity(resolve, DispatchNamespace, b.namespace, id)
           && (from.Some? && previous.Some? ==>
                 LastEntry(previous.value.deployment.dispatchNamespaces, from.value, id))
       case _ => true
  }

  ghost predicate Bound(m: Metadata, previous: Option<Previous>, n: string) {
    exists b, from :: Gives(m, previous, n, b, from)
  }

  /** Some binding of the assets type has a name. */
  ghost predicate BindsAssets(m: Metadata, previous: Option<Previous>) {
    exists n, b: Binding, from :: n != "" && b.kind == Assets && Gives(m, previous, n, b, from)
  }

  ghost predicate FineBindings(m: Metadata, previous: Option<Previous>, resolve: Option<Resolver>,
                               allowDispatch: bool) {
    && (forall kind :: kind in m.keepBindings ==> MayKeep(kind, previous, allowDispatch))
    && (forall i, j :: 0 <= i < j < |m.bindings| ==> m.bindings[i].name != m.bindings[j].name)
    && (forall e :: e in m.bindings ==> FineEntry(e, previous, m.strictInherit))
    && (exists names: set<string> :: |names| <= 128 && forall n :: n in names <==> Bound(m, previous, n))
    && (forall n, b, from :: Gives(m, previous, n, b, from) ==> FineBinding(b, from, previous, resolve, allowDispatch))
  }

  /** Assets are kept where there are some, and bound only where some are kept. */
  ghost predicate FineUpload(m: Metadata, previous: Option<Previous>, resolve: Option<Resolver>, allowDispatch: bool) {
    && FineBindings(m, previous, resolve, allowDispatch)
    && (m.keepAssets ==> previous.Some?)
    && (BindsAssets(m, previous) ==> m.keepAssets && previous.Some? && previous.value.deployment.assets != [])
  }

  lemma OfferedExactly(kind: Kind, allowDispatch: bool)
    ensures Supported(kind, allowDispatch) <==> Offered(kind, allowDispatch)
  {
  }

  lemma LastEntryStep(entries: seq<Entry>, last: Entry, binding: string, id: string)
    ensures LastEntry(entries + [last], binding, id) <==>
      if last.binding == binding then last.id == id else LastEntry(entries, binding, id)
  {
    var more, k := entries + [last], |entries|;
    assert more[k] == last && forall j :: 0 <= j < k ==> more[j] == entries[j];
    if i :| 0 <= i < |more| && more[i] == Entry(binding, id) && forall j :: i < j < |more| ==>
      more[j].binding != binding {
      if i < k { assert more[k].binding != binding && entries[i] == Entry(binding, id); }
    }
    if last.binding != binding && LastEntry(entries, binding, id) {
      var i :| 0 <= i < |entries| && entries[i] == Entry(binding, id)
               && forall j :: i < j < |entries| ==> entries[j].binding != binding;
      assert more[i] == Entry(binding, id);
    }
    if last == Entry(binding, id) { assert more[k] == Entry(binding, id); }
  }

  lemma {:induction false} PinnedExactly(entries: seq<Entry>, binding: string, id: string)
    requires id != ""
    ensures Pinned(entries, binding) == id <==> LastEntry(entries, binding, id)
    decreases |entries|
  {
    if entries != [] {
      hide LastEntry;
      var k := |entries| - 1;
      PinnedExactly(entries[..k], binding, id);
      LastEntryStep(entries[..k], entries[k], binding, id);
      assert entries == entries[..k] + [entries[k]];
    }
  }

  lemma BareExactly(e: Binding)
    ensures Bare(e) <==> e == Binding(e.name, e.kind, None, None, "", "", "", "", "", "", "", e.oldName, e.versionID)
  {
    if Bare(e) {
      assert forall field :: Fills(e, field) ==> field in Filled(e);
      assert !Fills(e, TextField) && !Fills(e, JsonField) && !Fills(e, NamespaceIDField) && !Fills(e, NamespaceField);
      assert !Fills(e, IDField) && !Fills(e, DatabaseIDField) && !Fills(e, BucketNameField);
      assert !Fills(e, ServiceField) && !Fills(e, EnvironmentField);
    }
  }

  lemma ResolvedExactly(resolve: Option<Resolver>, b: Binding, id: string)
    ensures Resolved(resolve, b) == Some(id) <==> Identity(resolve, b.kind, External(b), id)
  {
  }

  lemma FineBindingExactly(b: Binding, origin: Origin, previous: Option<Previous>, resolve: Option<Resolver>,
                           allowDispatch: bool)
    ensures BindingAllowed(b, origin, previous, resolve, allowDispatch)
            <==> FineBinding(b, FromOf(origin), previous, resolve, allowDispatch)
  {
    hide ValidBinding, Resolved, Pinned, LastEntry, Supported, Offered;
    OfferedExactly(b.kind, allowDispatch);
    forall id ensures Resolved(resolve, b) == Some(id) <==> Identity(resolve, b.kind, External(b), id) {
      ResolvedExactly(resolve, b, id);
    }
    if previous.Some? && origin.Retained? && Resolved(resolve, b).Some? {
      var id := Resolved(resolve, b).value;
      assert id != "";
      PinnedExactly(previous.value.deployment.dispatchNamespaces, origin.from, id);
    }
  }

  lemma FineEntryExactly(e: Binding, previous: Option<Previous>, strict: bool)
    ensures GivenAllowed(e, Prior(previous), strict) <==> FineEntry(e, previous, strict)
  {
    hide Bare, PriorAt, Prior;
    BareExactly(e);
    forall x, p ensures x in Prior(previous) && Prior(previous)[x] == p <==> PriorAt(previous, x, p) {
      PriorExactly(previous, x, p);
    }
    if Source(e) in Prior(previous) { assert PriorAt(previous, Source(e), Prior(previous)[Source(e)]); }
  }

  lemma MayKeepExactly(kind: Kind, previous: Option<Previous>, allowDispatch: bool)
    ensures KeepAllowed(kind, Prior(previous), allowDispatch) <==> MayKeep(kind, previous, allowDispatch)
  {
    hide PriorAt, Prior, Supported, Offered;
    OfferedExactly(kind, allowDispatch);
    forall x, p ensures x in Prior(previous) && Prior(previous)[x] == p <==> PriorAt(previous, x, p) {
      PriorExactly(previous, x, p);
    }
    assert forall n :: n in Prior(previous) ==> PriorAt(previous, n, Prior(previous)[n]);
  }

  lemma BoundExactly(m: Metadata, previous: Option<Previous>, n: string)
    requires DistinctNames(m.bindings)
    ensures n in OriginsOf(m, previous) <==> Bound(m, previous, n)
  {
    hide OriginsOf, Gives, BindingFrom, DistinctNames;
    var origins := OriginsOf(m, previous);
    if n in origins {
      OriginatesExactly(m, previous, n, BindingFrom(origins[n], n), FromOf(origins[n]));
    }
    if b, from :| Gives(m, previous, n, b, from) { OriginatesExactly(m, previous, n, b, from); }
  }

  lemma AllAllowedExactly(m: Metadata, previous: Option<Previous>, resolve: Option<Resolver>, allowDispatch: bool)
    requires DistinctNames(m.bindings)
    ensures AllAllowed(m, previous, resolve, allowDispatch) <==>
      forall n, b, from :: Gives(m, previous, n, b, from) ==> FineBinding(b, from, previous, resolve, allowDispatch)
  {
    hide OriginsOf, Gives, BindingFrom, BindingAllowed, FineBinding, DistinctNames;
    var origins := OriginsOf(m, previous);
    if AllAllowed(m, previous, resolve, allowDispatch) {
      forall n, b, from | Gives(m, previous, n, b, from)
        ensures FineBinding(b, from, previous, resolve, allowDispatch) {
        OriginatesExactly(m, previous, n, b, from);
        FineBindingExactly(b, origins[n], previous, resolve, allowDispatch);
      }
    }
    if forall n, b, from :: Gives(m, previous, n, b, from) ==> FineBinding(b, from, previous, resolve, allowDispatch) {
      forall n | n in origins
        ensures BindingAllowed(BindingFrom(origins[n], n), origins[n], previous, resolve, allowDispatch) {
        OriginatesExactly(m, previous, n, BindingFrom(origins[n], n), FromOf(origins[n]));
        FineBindingExactly(BindingFrom(origins[n], n), origins[n], previous, resolve, allowDispatch);
      }
    }
  }

  lemma NamesAssetsExactly(m: Metadata, previous: Option<Previous>)
    requires DistinctNames(m.bindings)
    ensures NamesAssets(OriginsOf(m, previous)) <==> BindsAssets(m, previous)
  {
    hide OriginsOf, Gives, BindingFrom, DistinctNames;
    var origins := OriginsOf(m, previous);
    if n :| n in origins && BindingFrom(origins[n], n).kind == Assets && n != "" {
      OriginatesExactly(m, previous, n, BindingFrom(origins[n], n), FromOf(origins[n]));
    }
    if n, b: Binding, from :| n != "" && b.kind == Assets && Gives(m, previous, n, b, from) {
      OriginatesExactly(m, previous, n, b, from);
    }
  }

  lemma CountExactly(m: Metadata, previous: Option<Previous>)
    requires DistinctNames(m.bindings)
    ensures |OriginsOf(m, previous)| <= 128 <==>
      exists names: set<string> :: |names| <= 128 && forall n :: n in names <==> Bound(m, previous, n)
  {
    hide OriginsOf, Bound, DistinctNames;
    var keys := OriginsOf(m, previous).Keys;
    forall n ensures n in keys <==> Bound(m, previous, n) {
      BoundExactly(m, previous, n);
    }
    assert |OriginsOf(m, previous)| == |keys|;
    if names: set<string> :| |names| <= 128 && forall n :: n in names <==> Bound(m, previous, n) {
      assert names == keys;
    }
  }

  /** The upload is acceptable exactly when its retained types, its entries, the number of its names
      and each of its bindings are. */
  lemma AcceptableExactly(m: Metadata, previous: Option<Previous>, resolve: Option<Resolver>, allowDispatch: bool)
    ensures Acceptable(m, previous, resolve, allowDispatch) <==> FineUpload(m, previous, resolve, allowDispatch)
  {
    hide OriginsOf, AllAllowed, NamesAssets, Gives, FineBinding, Bound, MayKeep, FineEntry, KeepAllowed, GivenAllowed,
         Prior;
    forall kind ensures KeepAllowed(kind, Prior(previous), allowDispatch) <==> MayKeep(kind, previous, allowDispatch) {
      MayKeepExactly(kind, previous, allowDispatch);
    }
    forall e ensures GivenAllowed(e, Prior(previous), m.strictInherit) <==> FineEntry(e, previous, m.strictInherit) {
      FineEntryExactly(e, previous, m.strictInherit);
    }
    if DistinctNames(m.bindings) {
      AllAllowedExactly(m, previous, resolve, allowDispatch);
      NamesAssetsExactly(m, previous);
      CountExactly(m, previous);
    }
  }

  // ----- what the revision holds

  /** The identifier of a D1 binding under its current or its former name. */
  function Database(b: Binding): string {
    if b.databaseID == "" then b.id else b.databaseID
  }

  /** What is stored of the binding: no secret text, and of D1 the current identifier only. */
  predicate StoredAs(b: Binding, stored: Binding) {
    match b.kind
    case SecretText => stored == b.(text := None)
    case D1 => stored == b.(id := "", databaseID := Database(b))
    case _ => stored == b
  }

  lemma StoredExactly(b: Binding, stored: Binding)
    ensures Stored(b) == stored <==> StoredAs(b, stored)
  {
  }

  predicate VariableOf(b: Binding, v: Var) {
    || (b.kind == PlainText && b.text.Some? && v == TextVar(b.text.value))
    || (b.kind == Json && b.json.Some? && v == JsonVar(b.json.value))
  }

  /** The entry that a resource binding has in the deployment. */
  ghost predicate EntryFor(b: Binding, e: Entry, resolve: Option<Resolver>) {
    && e.binding == b.name
    && match b.kind
       case KvNamespace => e.id == b.namespaceID
       case D1 => e.id == Database(b)
       case R2Bucket => Identity(resolve, R2Bucket, b.bucketName, e.id)
       case Service => Identity(resolve, Service, b.service, e.id)
       case DispatchNamespace => Identity(resolve, DispatchNamespace, b.namespace, e.id)
       case _ => false
  }

  predicate InOrder(entries: seq<Entry>) {
    forall i, j :: 0 <= i < j < |entries| ==> Less(entries[i].binding, entries[j].binding)
  }

  /** The entries of the type, one for each binding, in the order of their names. */
  ghost predicate EntriesOf(entries: seq<Entry>, m: Metadata, previous: Option<Previous>, kind: Kind,
                            resolve: Option<Resolver>) {
    && InOrder(entries)
    && (forall e :: e in entries <==> ListedEntry(e, m, previous, kind, resolve))
  }

  ghost predicate ListedEntry(e: Entry, m: Metadata, previous: Option<Previous>, kind: Kind,
                              resolve: Option<Resolver>) {
    exists b, from :: Gives(m, previous, e.binding, b, from) && b.kind == kind && EntryFor(b, e, resolve)
  }

  ghost predicate AssetsNamedLast(name: string, m: Metadata, previous: Option<Previous>) {
    if forall n, b, from :: Gives(m, previous, n, b, from) ==> b.kind != Assets then name == ""
    else
      && (exists b, from :: Gives(m, previous, name, b, from) && b.kind == Assets)
      && forall n, b, from :: Gives(m, previous, n, b, from) && b.kind == Assets ==> n == name || Less(n, name)
  }

  ghost predicate BindingsOf(bindings: seq<Binding>, m: Metadata, previous: Option<Previous>) {
    && (forall i, j :: 0 <= i < j < |bindings| ==> Less(bindings[i].name, bindings[j].name))
    && (forall stored :: stored in bindings <==>
          exists b, from :: Gives(m, previous, stored.name, b, from) && StoredAs(b, stored))
  }

  ghost predicate IsVariable(m: Metadata, previous: Option<Previous>, n: string, v: Var) {
    exists b, from :: Gives(m, previous, n, b, from) && VariableOf(b, v)
  }

  ghost predicate VariablesOf(vars: map<string, Var>, m: Metadata, previous: Option<Previous>) {
    forall n, v :: n in vars && vars[n] == v <==> IsVariable(m, previous, n, v)
  }

  ghost predicate IsNewSecret(m: Metadata, previous: Option<Previous>, n: string, text: string) {
    exists b, from :: Gives(m, previous, n, b, from) && b.kind == SecretText && b.text == Some(text)
  }

  ghost predicate IsKeptSecret(m: Metadata, previous: Option<Previous>, n: string, source: string) {
    exists b :: Gives(m, previous, n, b, Some(source)) && b.kind == SecretText && b.text == None
  }

  /** A secret with a value is new; one without keeps the value of the prior secret. */
  ghost predicate SecretsOf(secrets: map<string, string>, kept: map<string, string>, m: Metadata,
                            previous: Option<Previous>) {
    && (forall n, text :: n in secrets && secrets[n] == text <==> IsNewSecret(m, previous, n, text))
    && (forall n, source :: n in kept && kept[n] == source <==> IsKeptSecret(m, previous, n, source))
  }

  predicate RestOf(c: Candidate, m: Metadata, previous: Option<Previous>) {
    var d := c.deployment;
    && d.format == "modules" && d.entrypoint == m.mainModule && d.compatibilityDate == m.compatibilityDate
    && d.compatibilityFlags == m.compatibilityFlags && d.files == [] && d.dns == "" && d.triggers == ""
    && c.tags == (match m.tags
                  case Some(tags) => tags
                  case None => if previous.Some? then previous.value.tags else [])
    && (if m.keepAssets && previous.Some?
        then d.assets == previous.value.deployment.assets
             && d.assetConfig.handling == previous.value.deployment.assetConfig.handling
        else d.assets == [] && d.assetConfig.handling == "")
  }

  ghost predicate Describes(c: Candidate, m: Metadata, previous: Option<Previous>, resolve: Option<Resolver>) {
    && BindingsOf(c.bindings, m, previous)
    && VariablesOf(c.deployment.vars, m, previous)
    && SecretsOf(c.secrets, c.keepSecrets, m, previous)
    && EntriesOf(c.deployment.kvNamespaces, m, previous, KvNamespace, resolve)
    && EntriesOf(c.deployment.databases, m, previous, D1, resolve)
    && EntriesOf(c.deployment.dispatchNamespaces, m, previous, DispatchNamespace, resolve)
    && EntriesOf(c.deployment.buckets, m, previous, R2Bucket, resolve)
    && EntriesOf(c.deployment.services, m, previous, Service, resolve)
    && AssetsNamedLast(c.deployment.assetConfig.binding, m, previous)
    && RestOf(c, m, previous)
  }

  // ----- the revision is so described

  lemma BindingsDescribed(bindings: seq<Binding>, m: Metadata, previous: Option<Previous>)
    requires DistinctNames(m.bindings) && Lists(bindings, OriginsOf(m, previous))
    ensures BindingsOf(bindings, m, previous)
  {
    hide OriginsOf, Gives, BindingFrom, Stored, StoredAs, Less, DistinctNames;
    var origins := OriginsOf(m, previous);
    forall i, j | 0 <= i < j < |bindings| ensures Less(bindings[i].name, bindings[j].name) {
      assert Less(NamesOf(bindings)[i], NamesOf(bindings)[j]);
    }
    forall stored
      ensures stored in bindings <==> exists b, from :: Gives(m, previous, stored.name, b, from) && StoredAs(b, stored)
    {
      if stored in bindings {
        var b := BindingFrom(origins[stored.name], stored.name);
        OriginatesExactly(m, previous, stored.name, b, FromOf(origins[stored.name]));
        StoredExactly(b, stored);
      }
      if b, from :| Gives(m, previous, stored.name, b, from) && StoredAs(b, stored) {
        OriginatesExactly(m, previous, stored.name, b, from);
        StoredExactly(b, stored);
        ListsEach(bindings, origins, stored.name);
      }
    }
  }

  lemma VariableExactly(b: Binding, v: Var)
    ensures VarOf(b) == Some(v) <==> VariableOf(b, v)
  {
  }

  lemma VariablesDescribed(m: Metadata, previous: Option<Previous>)
    requires DistinctNames(m.bindings)
    ensures VariablesOf(Vars(OriginsOf(m, previous)), m, previous)
  {
    hide OriginsOf, Gives, BindingFrom, VarOf, VariableOf, DistinctNames;
    var origins := OriginsOf(m, previous);
    forall n, v ensures n in Vars(origins) && Vars(origins)[n] == v <==> IsVariable(m, previous, n, v) {
      if n in Vars(origins) && Vars(origins)[n] == v {
        OriginatesExactly(m, previous, n, BindingFrom(origins[n], n), FromOf(origins[n]));
        VariableExactly(BindingFrom(origins[n], n), v);
      }
      if b, from :| Gives(m, previous, n, b, from) && VariableOf(b, v) {
        OriginatesExactly(m, previous, n, b, from);
        VariableExactly(b, v);
      }
    }
  }

  lemma NewSecretsDescribed(m: Metadata, previous: Option<Previous>, n: string, text: string)
    requires DistinctNames(m.bindings)
    ensures var secrets := Secrets(OriginsOf(m, previous)); n in secrets && secrets[n] == text <==>
      IsNewSecret(m, previous, n, text)
  {
    hide OriginsOf, Gives, BindingFrom, DistinctNames;
    var origins := OriginsOf(m, previous);
    if n in origins { OriginatesExactly(m, previous, n, BindingFrom(origins[n], n), FromOf(origins[n])); }
    if b, from :| Gives(m, previous, n, b, from) && b.kind == SecretText && b.text == Some(text) {
      OriginatesExactly(m, previous, n, b, from);
    }
  }

  lemma KeptSecretsDescribed(m: Metadata, previous: Option<Previous>, n: string, source: string)
    requires DistinctNames(m.bindings)
    ensures var kept := KeepSecrets(OriginsOf(m, previous)); n in kept && kept[n] == source <==>
      IsKeptSecret(m, previous, n, source)
  {
    hide OriginsOf, Gives, BindingFrom, DistinctNames;
    var origins := OriginsOf(m, previous);
    if n in origins { OriginatesExactly(m, previous, n, BindingFrom(origins[n], n), FromOf(origins[n])); }
    if b :| Gives(m, previous, n, b, Some(source)) && b.kind == SecretText && b.text == None {
      OriginatesExactly(m, previous, n, b, Some(source));
    }
  }

  lemma SecretsDescribed(m: Metadata, previous: Option<Previous>)
    requires DistinctNames(m.bindings)
    ensures SecretsOf(Secrets(OriginsOf(m, previous)), KeepSecrets(OriginsOf(m, previous)), m, previous)
  {
    hide OriginsOf, DistinctNames, Secrets, KeepSecrets, IsNewSecret, IsKeptSecret;
    var secrets, kept := Secrets(OriginsOf(m, previous)), KeepSecrets(OriginsOf(m, previous));
    forall n, text ensures n in secrets && secrets[n] == text <==> IsNewSecret(m, previous, n, text) {
      NewSecretsDescribed(m, previous, n, text);
    }
    forall n, source ensures n in kept && kept[n] == source <==> IsKeptSecret(m, previous, n, source) {
      KeptSecretsDescribed(m, previous, n, source);
    }
  }

  lemma EntryExactly(b: Binding, e: Entry, kind: Kind, resolve: Option<Resolver>)
    requires kind in RESOURCES
    ensures Stored(b).kind == kind && EntryOf(Stored(b), resolve) == Some(e) <==>
      b.kind == kind && EntryFor(b, e, resolve)
  {
    hide Resolved;
    ResolvedExactly(resolve, Stored(b), e.id);
  }

  /** The entries are in the order of the bindings. */
  lemma {:induction false} EntriesAscend(bindings: seq<Binding>, kind: Kind, resolve: Option<Resolver>)
    requires Ascending(NamesOf(bindings))
    ensures InOrder(Entries(bindings, kind, resolve))
    ensures forall e :: e in Entries(bindings, kind, resolve) ==> exists b :: b in bindings && b.name == e.binding
    decreases |bindings|
  {
    hide Less, EntryOf;
    if bindings != [] {
      var k := |bindings| - 1;
      var init, last := bindings[..k], bindings[k];
      assert NamesOf(init) == NamesOf(bindings)[..k];
      EntriesAscend(init, kind, resolve);
      forall b | b in init ensures Less(b.name, last.name) {
        var i :| 0 <= i < |init| && init[i] == b;
        assert Less(NamesOf(bindings)[i], NamesOf(bindings)[k]);
      }
      EntryNamed(last, resolve);
      var before, entries := Entries(init, kind, resolve), Entries(bindings, kind, resolve);
      forall e | e in before ensures Less(e.binding, last.name) && exists b :: b in bindings && b.name == e.binding {
        var b :| b in init && b.name == e.binding;
        assert b in bindings;
      }
      assert last in bindings;
      forall i, j | 0 <= i < j < |entries| ensures Less(entries[i].binding, entries[j].binding) {
        assert entries[i] == before[i] && before[i] in before;
        if j < |before| { assert Less(before[i].binding, before[j].binding); }
      }
    }
  }

  lemma EntryNamed(b: Binding, resolve: Option<Resolver>)
    ensures EntryOf(b, resolve).Some? ==> EntryOf(b, resolve).value.binding == b.name
  {
    hide Resolved;
  }

  lemma EntryDescribed(bindings: seq<Binding>, m: Metadata, previous: Option<Previous>, kind: Kind,
                       resolve: Option<Resolver>, e: Entry)
    requires DistinctNames(m.bindings) && Lists(bindings, OriginsOf(m, previous)) && kind in RESOURCES
    requires e in Entries(bindings, kind, resolve)
    ensures ListedEntry(e, m, previous, kind, resolve)
  {
    hide OriginsOf, Gives, BindingFrom, Stored, Less, DistinctNames, Entries, EntryOf, EntryFor, RESOURCES;
    var origins := OriginsOf(m, previous);
    EntriesMembers(bindings, kind, resolve);
    var b :| b in bindings && b.kind == kind && EntryOf(b, resolve) == Some(e);
    EntryNamed(b, resolve);
    var g := BindingFrom(origins[b.name], b.name);
    OriginatesExactly(m, previous, b.name, g, FromOf(origins[b.name]));
    EntryExactly(g, e, kind, resolve);
  }

  lemma DescribedEntry(bindings: seq<Binding>, m: Metadata, previous: Option<Previous>, kind: Kind,
                       resolve: Option<Resolver>, e: Entry)
    requires DistinctNames(m.bindings) && Lists(bindings, OriginsOf(m, previous)) && kind in RESOURCES
    requires ListedEntry(e, m, previous, kind, resolve)
    ensures e in Entries(bindings, kind, resolve)
  {
    hide OriginsOf, Gives, BindingFrom, Stored, Less, DistinctNames, Entries, EntryOf, EntryFor, RESOURCES, Lists;
    EntriesMembers(bindings, kind, resolve);
    var g, from :| Gives(m, previous, e.binding, g, from) && g.kind == kind && EntryFor(g, e, resolve);
    OriginatesExactly(m, previous, e.binding, g, from);
    EntryExactly(g, e, kind, resolve);
    ListsEach(bindings, OriginsOf(m, previous), e.binding);
  }

  lemma EntriesDescribed(bindings: seq<Binding>, m: Metadata, previous: Option<Previous>, kind: Kind,
                         resolve: Option<Resolver>)
    requires DistinctNames(m.bindings) && Lists(bindings, OriginsOf(m, previous)) && kind in RESOURCES
    ensures EntriesOf(Entries(bindings, kind, resolve), m, previous, kind, resolve)
  {
    hide OriginsOf, ListedEntry, Less, DistinctNames, Entries, RESOURCES, Ascending, Elements;
    var entries := Entries(bindings, kind, resolve);
    EntriesAscend(bindings, kind, resolve);
    forall e ensures e in entries <==> ListedEntry(e, m, previous, kind, resolve) {
      if e in entries { EntryDescribed(bindings, m, previous, kind, resolve, e); }
      if ListedEntry(e, m, previous, kind, resolve) { DescribedEntry(bindings, m, previous, kind, resolve, e); }
    }
  }

  lemma {:induction false} LastAssets(bindings: seq<Binding>)
    requires Ascending(NamesOf(bindings))
    ensures if forall b :: b in bindings ==> b.kind != Assets then AssetsName(bindings) == ""
            else (exists b :: b in bindings && b.kind == Assets && b.name == AssetsName(bindings))
                 && forall b :: b in bindings && b.kind == Assets ==>
                      b.name == AssetsName(bindings) || Less(b.name, AssetsName(bindings))
    decreases |bindings|
  {
    hide Less;
    if bindings != [] {
      var k := |bindings| - 1;
      var init, last := bindings[..k], bindings[k];
      assert bindings == init + [last];
      if last.kind == Assets {
        forall b | b in init ensures Less(b.name, last.name) {
          var i :| 0 <= i < |init| && init[i] == b;
          assert Less(NamesOf(bindings)[i], NamesOf(bindings)[k]);
        }
      } else {
        assert NamesOf(init) == NamesOf(bindings)[..k];
        LastAssets(init);
      }
    }
  }

  lemma AssetsDescribed(bindings: seq<Binding>, m: Metadata, previous: Option<Previous>)
    requires DistinctNames(m.bindings) && Lists(bindings, OriginsOf(m, previous))
    ensures AssetsNamedLast(AssetsName(bindings), m, previous)
  {
    hide OriginsOf, Gives, BindingFrom, Less, DistinctNames, AssetsName, Ascending, Elements;
    var origins := OriginsOf(m, previous);
    LastAssets(bindings);
    forall b | b in bindings && b.kind == Assets
      ensures exists g, from :: Gives(m, previous, b.name, g, from) && g.kind == Assets
    {
      var g := BindingFrom(origins[b.name], b.name);
      OriginatesExactly(m, previous, b.name, g, FromOf(origins[b.name]));
      assert Stored(g).kind == g.kind;
    }
    forall n, g, from | Gives(m, previous, n, g, from) && g.kind == Assets
      ensures exists b :: b in bindings && b.kind == Assets && b.name == n
    {
      OriginatesExactly(m, previous, n, g, from);
      ListsEach(bindings, origins, n);
      BindingNamed(origins[n], n);
      assert Stored(g).kind == g.kind && Stored(g).name == n;
    }
  }

  lemma BindingNamed(origin: Origin, n: string)
    ensures BindingFrom(origin, n).name == n
  {
  }

  /** The revision holds what the entries, the retained types and the prior revision give it, each in
      its place and nothing else. */
  lemma RevisionIsDescribed(c: Candidate, m: Metadata, previous: Option<Previous>, resolve: Option<Resolver>)
    requires DistinctNames(m.bindings) && IsRevision(c, m, previous, resolve)
    ensures Describes(c, m, previous, resolve)
  {
    hide OriginsOf, Lists, Vars, Secrets, KeepSecrets, Entries, AssetsName, DistinctNames;
    hide BindingsOf, VariablesOf, SecretsOf, EntriesOf, AssetsNamedLast;
    BindingsDescribed(c.bindings, m, previous);
    VariablesDescribed(m, previous);
    SecretsDescribed(m, previous);
    EntriesDescribed(c.bindings, m, previous, KvNamespace, resolve);
    EntriesDescribed(c.bindings, m, previous, D1, resolve);
    EntriesDescribed(c.bindings, m, previous, DispatchNamespace, resolve);
    EntriesDescribed(c.bindings, m, previous, R2Bucket, resolve);
    EntriesDescribed(c.bindings, m, previous, Service, resolve);
    AssetsDescribed(c.bindings, m, previous);
  }

  /** What a revision holds of bindings depends on what the upload gives each name. */
  lemma SameMeaning(m: Metadata, previous: Option<Previous>, n: Metadata, other: Option<Previous>,
                    bindings: seq<Binding>, vars: map<string, Var>, secrets: map<string, string>,
                    kept: map<string, string>)
    requires forall x, b, from :: Gives(m, previous, x, b, from) <==> Gives(n, other, x, b, from)
    ensures BindingsOf(bindings, m, previous) <==> BindingsOf(bindings, n, other)
    ensures VariablesOf(vars, m, previous) <==> VariablesOf(vars, n, other)
    ensures SecretsOf(secrets, kept, m, previous) <==> SecretsOf(secrets, kept, n, other)
  {
    hide Gives, StoredAs, VariableOf, Less;
    forall x, v ensures IsVariable(m, previous, x, v) <==> IsVariable(n, other, x, v) {
    }
    forall x, text ensures IsNewSecret(m, previous, x, text) <==> IsNewSecret(n, other, x, text) {
    }
    forall x, source ensures IsKeptSecret(m, previous, x, source) <==> IsKeptSecret(n, other, x, source) {
    }
  }

  // ----- retained authority

  lemma AcceptableNames(m: Metadata, previous: Option<Previous>, resolve: Option<Resolver>, allowDispatch: bool)
    requires Acceptable(m, previous, resolve, allowDispatch)
    ensures DistinctNames(m.bindings)
  {
    hide AllAllowed, OriginsOf;
  }

  /** A namespace binding that is retained, under whatever name, keeps the identity that the previous
      deployment lists for it: the resolver still gives it, and the revision lists it. */
  lemma RetainedNamespaceKeepsItsIdentity(c: Candidate, m: Metadata, previous: Option<Previous>,
                                          resolve: Option<Resolver>, allowDispatch: bool, n: string, b: Binding,
                                          from: string)
    returns (id: string)
    requires Acceptable(m, previous, resolve, allowDispatch) && IsRevision(c, m, previous, resolve)
    requires Gives(m, previous, n, b, Some(from)) && b.kind == DispatchNamespace
    ensures previous.Some? && Identity(resolve, DispatchNamespace, b.namespace, id)
    ensures LastEntry(previous.value.deployment.dispatchNamespaces, from, id)
    ensures Entry(n, id) in c.deployment.dispatchNamespaces
  {
    hide Acceptable, IsRevision, Gives, LastEntry, Identity, Offered, ValidBinding, MayKeep, FineEntry, Bound;
    hide BindingsOf, VariablesOf, SecretsOf, AssetsNamedLast, RestOf, InOrder;
    AcceptableNames(m, previous, resolve, allowDispatch);
    AcceptableExactly(m, previous, resolve, allowDispatch);
    RevisionIsDescribed(c, m, previous, resolve);
    assert FineBinding(b, Some(from), previous, resolve, allowDispatch);
    RetainedIsPrior(m, previous, n, b, from);
    id :| Identity(resolve, DispatchNamespace, b.namespace, id)
          && (Some(from).Some? && previous.Some? ==>
                LastEntry(previous.value.deployment.dispatchNamespaces, from, id));
    assert EntryFor(b, Entry(n, id), resolve);
    assert ListedEntry(Entry(n, id), m, previous, DispatchNamespace, resolve);
  }

  lemma RetainedIsPrior(m: Metadata, previous: Option<Previous>, n: string, b: Binding, from: string)
    requires Gives(m, previous, n, b, Some(from))
    ensures previous.Some? && b.name == n
  {
    hide LastNamed;
    if !exists e :: e in m.bindings && e.name == n { PriorIsNamed(previous, n, b); }
  }

  lemma PriorIsNamed(previous: Option<Previous>, n: string, b: Binding)
    requires PriorAt(previous, n, b)
    ensures b.name == n
  {
  }

  /** A namespace that was renamed or recreated since, so that its name now has another identity or
      the deployment lists none for it, is refused. */
  lemma ChangedIdentityIsRefused(m: Metadata, previous: Option<Previous>, resolve: Option<Resolver>,
                                 allowDispatch: bool, n: string, b: Binding, from: string)
    requires previous.Some? && Gives(m, previous, n, b, Some(from)) && b.kind == DispatchNamespace
    requires forall id :: Identity(resolve, DispatchNamespace, b.namespace, id) ==>
      !LastEntry(previous.value.deployment.dispatchNamespaces, from, id)
    ensures !Acceptable(m, previous, resolve, allowDispatch)
  {
    hide Acceptable, Gives, LastEntry, Identity, Offered, ValidBinding, MayKeep, FineEntry, Bound;
    AcceptableExactly(m, previous, resolve, allowDispatch);
  }
}
