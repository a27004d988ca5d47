/** The faults that a translation names, in the terms of the upload. */
module UploadFaults {
  import opened Outcomes
  import opened UploadBindings
  import opened Upload
  import opened UploadMeaning
  import opened Translation

  ghost predicate GivesSome(m: Metadata, previous: Option<Previous>, kinds: set<Kind>) {
    exists n, b, from :: Gives(m, previous, n, b, from) && b.kind in kinds
  }

  /** The fault is there, in the terms of the upload. */
  ghost predicate Faulty(fault: Fault, m: Metadata, previous: Option<Previous>, resolve: Option<Resolver>,
                         allowDispatch: bool) {
    match fault
    case SecretKeyRetention => SecretKey in m.keepBindings && exists n, p ::
      PriorAt(previous, n, p) && p.kind == SecretKey
    case UnsupportedKeep => exists kind :: kind in m.keepBindings && kind != SecretKey && !Offered(kind, allowDispatch)
    case BadName =>
      || (exists e :: e in m.bindings && !(1 <= |e.name| <= 128))
      || exists i, j :: 0 <= i < j < |m.bindings| && m.bindings[i].name == m.bindings[j].name
    case OldVersion => exists e :: e in m.bindings && e.kind == Inherit && e.versionID != "" && e.versionID != "latest"
    case InheritFields =>
      exists e :: e in m.bindings && e.kind == Inherit
        && e != Binding(e.name, Inherit, None, None, "", "", "", "", "", "", "", e.oldName, e.versionID)
    case MissingInherited =>
      && m.strictInherit
      && exists e :: e in m.bindings && e.kind == Inherit
                     && !HasPrior(previous, if e.oldName == "" then e.name else e.oldName)
    case TooManyBindings =>
      !exists names: set<string> :: |names| <= 128 && forall n :: n in names <==> Bound(m, previous, n)
    case UnsupportedType => exists n, b, from :: Gives(m, previous, n, b, from) && !Offered(b.kind, allowDispatch)
    case InvalidBinding => exists n, b, from :: Gives(m, previous, n, b, from) && !ValidBinding(b)
    case SecretWithoutValue =>
      exists n, b :: Gives(m, previous, n, b, None) && b.kind == SecretText && b.text == None
    case NoResolver => resolve.None? && GivesSome(m, previous, {R2Bucket, Service, DispatchNamespace})
    case UnknownResource => exists n, b, from :: Gives(m, previous, n, b, from) && Unknown(b, resolve)
    case NamespaceChanged =>
      exists n, b, from, id :: Gives(m, previous, n, b, Some(from)) && b.kind == DispatchNamespace
        && Identity(resolve, DispatchNamespace, b.namespace, id)
        && previous.Some? && !LastEntry(previous.value.deployment.dispatchNamespaces, from, id)
    case NoPreviousAssets => m.keepAssets && previous.None?
    case NoAssets =>
      GivesSome(m, previous, {Assets})
      && !(m.keepAssets && previous.Some? && previous.value.deployment.assets != [])
  }

  ghost predicate Unknown(b: Binding, resolve: Option<Resolver>) {
    match b.kind
    case R2Bucket => forall id :: !Identity(resolve, R2Bucket, b.bucketName, id)
    case Service => forall id :: !Identity(resolve, Service, b.service, id)
    case DispatchNamespace => forall id :: !Identity(resolve, DispatchNamespace, b.namespace, id)
    case _ => false
  }

  lemma KeepFaultMeans(kind: Kind, fault: Fault, m: Metadata, previous: Option<Previous>, resolve: Option<Resolver>,
                       allowDispatch: bool)
    requires kind in m.keepBindings && KeepFault(kind, Prior(previous), allowDispatch) == Some(fault)
    ensures Faulty(fault, m, previous, resolve, allowDispatch)
  {
    hide Prior, Offered, Gives, Identity, LastEntry, ValidBinding, LastNamed;
    MayKeepExactly(kind, previous, allowDispatch);
    OfferedExactly(kind, allowDispatch);
  }

  lemma GivenFaultMeans(e: Binding, fault: Fault, m: Metadata, previous: Option<Previous>, resolve: Option<Resolver>,
                        allowDispatch: bool)
    requires e in m.bindings && GivenFault(e, Prior(previous), m.strictInherit) == Some(fault)
    ensures Faulty(fault, m, previous, resolve, allowDispatch)
  {
    hide Prior, Offered, Gives, Identity, LastEntry, ValidBinding, PriorAt, Bare;
    BareExactly(e);
    forall x, p ensures x in Prior(previous) && Prior(previous)[x] == p <==> PriorAt(previous, x, p) {
      PriorExactly(previous, x, p);
    }
  }

  lemma BindingFaultMeans(b: Binding, origin: Origin, n: string, fault: Fault, m: Metadata,
                          previous: Option<Previous>, resolve: Option<Resolver>, allowDispatch: bool)
    requires Gives(m, previous, n, b, FromOf(origin))
    requires BindingFault(b, origin, previous, resolve, allowDispatch) == Some(fault)
    ensures Faulty(fault, m, previous, resolve, allowDispatch)
  {
    hide Gives, LastEntry, ValidBinding, PriorAt, Supported, Offered, Resolved, Pinned;
    OfferedExactly(b.kind, allowDispatch);
    forall id ensures Resolved(resolve, b) == Some(id) <==> Identity(resolve, b.kind, External(b), id) {
      ResolvedExactly(resolve, b, id);
    }
    if Resolved(resolve, b).Some? { assert Identity(resolve, b.kind, External(b), Resolved(resolve, b).value); }
    if previous.Some? && origin.Retained? && Resolved(resolve, b).Some? {
      PinnedExactly(previous.value.deployment.dispatchNamespaces, origin.from, Resolved(resolve, b).value);
    }
  }

  lemma RepeatedNames(m: Metadata, previous: Option<Previous>, resolve: Option<Resolver>, allowDispatch: bool)
    requires !DistinctNames(m.bindings)
    ensures Faulty(BadName, m, previous, resolve, allowDispatch)
  {
  }

  lemma EntriesDiffer(m: Metadata, previous: Option<Previous>, allowDispatch: bool)
    requires EntriesAllowed(m, previous, allowDispatch)
    ensures DistinctNames(m.bindings)
  {
  }

  /** Whatever fault a translation names is there. */
  lemma FaultsAreThere(fault: Fault, m: Metadata, previous: Option<Previous>, resolve: Option<Resolver>,
                       allowDispatch: bool)
    requires Explains(fault, m, previous, resolve, allowDispatch)
    ensures Faulty(fault, m, previous, resolve, allowDispatch)
  {
    hide Prior, Gives, Offered, Identity, LastEntry, ValidBinding, PriorAt, OriginsOf, KeepFault, GivenFault,
         BindingFault, BindingFrom, Bound, NamesAssets, Faulty, DistinctNames, EntriesAllowed;
    var prior, origins := Prior(previous), OriginsOf(m, previous);
    if kind :| kind in m.keepBindings && KeepFault(kind, prior, allowDispatch) == Some(fault) {
      KeepFaultMeans(kind, fault, m, previous, resolve, allowDispatch);
    } else if e :| e in m.bindings && GivenFault(e, prior, m.strictInherit) == Some(fault) {
      GivenFaultMeans(e, fault, m, previous, resolve, allowDispatch);
    } else if !DistinctNames(m.bindings) {
      if EntriesAllowed(m, previous, allowDispatch) { EntriesDiffer(m, previous, allowDispatch); }
      RepeatedNames(m, previous, resolve, allowDispatch);
    } else if n :| n in origins && BindingFault(BindingFrom(origins[n], n), origins[n], previous, resolve,
                                                allowDispatch) == Some(fault) {
      OriginatesExactly(m, previous, n, BindingFrom(origins[n], n), FromOf(origins[n]));
      BindingFaultMeans(BindingFrom(origins[n], n), origins[n], n, fault, m, previous, resolve, allowDispatch);
    } else {
      WholeFaultMeans(fault, m, previous, resolve, allowDispatch);
    }
  }

  lemma WholeFaultMeans(fault: Fault, m: Metadata, previous: Option<Previous>, resolve: Option<Resolver>,
                        allowDispatch: bool)
    requires DistinctNames(m.bindings)
    requires || (fault == TooManyBindings && |OriginsOf(m, previous)| > MAX_BINDINGS)
             || (fault == NoPreviousAssets && m.keepAssets && previous.None?)
             || (fault == NoAssets && NamesAssets(OriginsOf(m, previous)) && AssetsOf(m, previous) == [])
    ensures Faulty(fault, m, previous, resolve, allowDispatch)
  {
    hide Gives, Offered, Identity, LastEntry, ValidBinding, PriorAt, OriginsOf, Bound, NamesAssets, DistinctNames;
    CountExactly(m, previous);
    NamesAssetsExactly(m, previous);
  }
}
