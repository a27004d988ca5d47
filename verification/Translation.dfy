/** The translation as the program performs it, against the revision that `Upload` describes. */
module Translation {
  import opened Outcomes
  import opened NameOrder
  import opened UploadBindings
  import opened Upload

  // ----- which fault

  function KeepFault(kind: Kind, prior: map<string, Binding>, allowDispatch: bool): Option<Fault> {
    if KeepAllowed(kind, prior, allowDispatch) then None
    else if kind == SecretKey then Some(SecretKeyRetention)
    else Some(UnsupportedKeep)
  }

  function GivenFault(b: Binding, prior: map<string, Binding>, strict: bool): Option<Fault> {
    if b.name == "" || |b.name| > MAX_NAME then Some(BadName)
    else if !b.kind.Inherit? then None
    else if b.versionID !in {"", "latest"} then Some(OldVersion)
    else if !Bare(b) then Some(InheritFields)
    else if strict && Source(b) !in prior then Some(MissingInherited)
    else None
  }

  function BindingFault(b: Binding, origin: Origin, previous: Option<Previous>, resolve: Option<Resolver>,
                        allowDispatch: bool): Option<Fault> {
    if !Supported(b.kind, allowDispatch) then Some(UnsupportedType)
    else if !ValidBinding(b) then Some(InvalidBinding)
    else if OriginAllowed(b, origin, previous, resolve) then None
    else if b.kind == SecretText then Some(SecretWithoutValue)
    else if resolve.None? then Some(NoResolver)
    else if Resolved(resolve, b).None? then Some(UnknownResource)
    else Some(NamespaceChanged)
  }

  /** The fault is that of some part of the upload. */
  predicate Explains(fault: Fault, m: Metadata, previous: Option<Previous>, resolve: Option<Resolver>,
                     allowDispatch: bool) {
    var prior := Prior(previous);
    || (exists kind :: kind in m.keepBindings && KeepFault(kind, prior, allowDispatch) == Some(fault))
    || (fault == BadName && !DistinctNames(m.bindings))
    || (exists b :: b in m.bindings && GivenFault(b, prior, m.strictInherit) == Some(fault))
    || (EntriesAllowed(m, previous, allowDispatch) && ExplainsWhole(fault, m, previous, resolve, allowDispatch))
  }

  /** Of an upload whose types and entries are in order, the fault is that of a binding or of the whole. */
  predicate ExplainsWhole(fault: Fault, m: Metadata, previous: Option<Previous>, resolve: Option<Resolver>,
                          allowDispatch: bool) {
    var origins := OriginsOf(m, previous);
    || (fault == TooManyBindings && |origins| > MAX_BINDINGS)
    || (exists n :: n in origins
                    && BindingFault(BindingFrom(origins[n], n), origins[n], previous, resolve, allowDispatch) ==
                         Some(fault))
    || (fault == NoPreviousAssets && m.keepAssets && previous.None?)
    || (fault == NoAssets && NamesAssets(origins) && AssetsOf(m, previous) == [])
  }

  lemma EntryFaultsRefuse(fault: Fault, m: Metadata, previous: Option<Previous>, allowDispatch: bool)
    requires || (exists kind ::
      kind in m.keepBindings && KeepFault(kind, Prior(previous), allowDispatch) == Some(fault))
             || !DistinctNames(m.bindings)
             || exists b :: b in m.bindings && GivenFault(b, Prior(previous), m.strictInherit) == Some(fault)
    ensures !EntriesAllowed(m, previous, allowDispatch)
  {
    hide Prior, Supported, Bare, Source;
  }

  lemma WholeFaultsRefuse(fault: Fault, m: Metadata, previous: Option<Previous>, resolve: Option<Resolver>,
                          allowDispatch: bool)
    requires ExplainsWhole(fault, m, previous, resolve, allowDispatch)
    ensures !Acceptable(m, previous, resolve, allowDispatch)
  {
    hide EntriesAllowed, OriginsOf, BindingFault, BindingAllowed, BindingFrom, NamesAssets;
    forall n | n in OriginsOf(m, previous)
      ensures var origin := OriginsOf(m, previous)[n]; var b := BindingFrom(origin, n);
        BindingFault(b, origin, previous, resolve, allowDispatch) == None
        <==> BindingAllowed(b, origin, previous, resolve, allowDispatch)
    {
      var origin := OriginsOf(m, previous)[n];
      FaultlessIsAllowed(BindingFrom(origin, n), origin, previous, resolve, allowDispatch);
    }
  }

  lemma ExplainedIsUnacceptable(fault: Fault, m: Metadata, previous: Option<Previous>, resolve: Option<Resolver>,
                                allowDispatch: bool)
    requires Explains(fault, m, previous, resolve, allowDispatch)
    ensures !Acceptable(m, previous, resolve, allowDispatch)
  {
    hide EntriesAllowed, ExplainsWhole, OriginsOf, Prior, KeepFault, GivenFault, AllAllowed, NamesAssets, DistinctNames;
    if EntriesAllowed(m, previous, allowDispatch) && ExplainsWhole(fault, m, previous, resolve, allowDispatch) {
      WholeFaultsRefuse(fault, m, previous, resolve, allowDispatch);
    } else {
      EntryFaultsRefuse(fault, m, previous, allowDispatch);
    }
  }

  // ----- the prior revision and what is retained of it

  method ReadPrior(bindings: seq<Binding>) returns (prior: map<string, Binding>)
    ensures prior == Named(bindings)
  {
    prior := map[];
    for i := 0 to |bindings|
      invariant prior == Named(bindings[..i])
    {
      assert bindings[..i + 1][..i] == bindings[..i];
      prior := prior[bindings[i].name := bindings[i]];
    }
    assert bindings[..|bindings|] == bindings;
  }

  lemma {:induction false} NamedNames(bindings: seq<Binding>)
    ensures forall n :: n in Named(bindings) ==> Named(bindings)[n].name == n && Named(bindings)[n] in bindings
    decreases |bindings|
  {
    if bindings != [] {
      var init := bindings[..|bindings| - 1];
      NamedNames(init);
      assert forall b :: b in init ==> b in bindings;
    }
  }

  ghost predicate Tracks(bindings: map<string, Binding>, retained: map<string, string>, origins: map<string, Origin>) {
    bindings == Effective(origins) && retained == RetainedFrom(origins)
  }

  lemma TracksOne(bindings: map<string, Binding>, retained: map<string, string>, origins: map<string, Origin>,
                  n: string, origin: Origin)
    requires Tracks(bindings, retained, origins)
    ensures var more := origins[n := origin];
      Tracks(bindings[n := BindingFrom(origin, n)],
             if origin.Retained? then retained[n := origin.from] else retained - {n}, more)
  {
    hide BindingFrom;
  }

  lemma TracksNone(bindings: map<string, Binding>, retained: map<string, string>, origins: map<string, Origin>,
                   n: string)
    requires Tracks(bindings, retained, origins)
    ensures Tracks(bindings - {n}, retained - {n}, origins - {n})
  {
    hide BindingFrom;
  }

  /** What is retained by the types of `keep` and, but for the names left, by one type more. */
  ghost function KeptSoFar(prior: map<string, Binding>, keep: seq<Kind>, kind: Kind,
                           left: set<string>): map<string, Origin> {
    map n | n in prior
            && ((n !in left && prior[n].kind == kind) || (prior[n].kind in keep && prior[n].kind != SecretKey))
      :: Retained(n, prior[n])
  }

  lemma KeptOrigin(prior: map<string, Binding>, keep: seq<Kind>, n: string)
    ensures OriginOf(prior, keep, map[], n) ==
            if n in prior && prior[n].kind in keep && prior[n].kind != SecretKey then Some(Retained(n, prior[n]))
              else None
  {
    hide Source;
  }

  /** With no entries what is retained is what the types say. */
  lemma KeptOrigins(prior: map<string, Binding>, keep: seq<Kind>)
    ensures Origins(prior, keep, map[]) ==
            map n | n in prior && prior[n].kind in keep && prior[n].kind != SecretKey :: Retained(n, prior[n])
  {
    hide OriginOf;
    forall n ensures OriginOf(prior, keep, map[], n) ==
      if n in prior && prior[n].kind in keep && prior[n].kind != SecretKey then Some(Retained(n, prior[n])) else None
    {
      KeptOrigin(prior, keep, n);
    }
  }

  lemma KeptEnds(prior: map<string, Binding>, keep: seq<Kind>, kind: Kind)
    requires kind != SecretKey
    ensures KeptSoFar(prior, keep, kind, prior.Keys) == Origins(prior, keep, map[])
    ensures KeptSoFar(prior, keep, kind, {}) == Origins(prior, keep + [kind], map[])
  {
    hide Origins;
    KeptOrigins(prior, keep);
    KeptOrigins(prior, keep + [kind]);
    var more := keep + [kind];
    forall n | n in prior ensures prior[n].kind in more <==> prior[n].kind in keep || prior[n].kind == kind {
    }
  }

  lemma KeptStep(prior: map<string, Binding>, keep: seq<Kind>, kind: Kind, left: set<string>, n: string)
    requires n in left && n in prior
    ensures KeptSoFar(prior, keep, kind, left - {n}) ==
            if prior[n].kind == kind then KeptSoFar(prior, keep, kind, left)[n := Retained(n, prior[n])]
            else KeptSoFar(prior, keep, kind, left)
  {
  }

  method KeepOne(prior: map<string, Binding>, kind: Kind, before: map<string, Binding>, held: map<string, string>,
                 ghost keep: seq<Kind>)
    returns (bindings: map<string, Binding>, retained: map<string, string>)
    requires forall n :: n in prior ==> prior[n].name == n
    requires kind != SecretKey
    requires Tracks(before, held, Origins(prior, keep, map[]))
    ensures Tracks(bindings, retained, Origins(prior, keep + [kind], map[]))
  {
    hide Tracks, KeptSoFar, Origins, BindingFrom;
    bindings, retained := before, held;
    KeptEnds(prior, keep, kind);
    var left := prior.Keys;
    while left != {}
      invariant left <= prior.Keys && Tracks(bindings, retained, KeptSoFar(prior, keep, kind, left))
      decreases |left|
    {
      var name :| name in left;
      KeptStep(prior, keep, kind, left, name);
      if prior[name].kind == kind {
        TracksOne(bindings, retained, KeptSoFar(prior, keep, kind, left), name, Retained(name, prior[name]));
        RetainedBinding(name, prior[name], name);
        bindings, retained := bindings[name := prior[name]], retained[name := name];
      }
      left := left - {name};
    }
  }

  lemma NothingTracked(prior: map<string, Binding>)
    ensures Tracks(map[], map[], Origins(prior, [], map[]))
  {
  }

  lemma SecretKeysNotKept(prior: map<string, Binding>, keep: seq<Kind>)
    ensures Origins(prior, keep + [SecretKey], map[]) == Origins(prior, keep, map[])
  {
  }

  method AnyOfKind(prior: map<string, Binding>, kind: Kind) returns (found: bool)
    ensures found <==> exists n :: n in prior && prior[n].kind == kind
  {
    var left := prior.Keys;
    while left != {}
      invariant left <= prior.Keys
      invariant forall n :: n in prior && n !in left ==> prior[n].kind != kind
      decreases |left|
    {
      var name :| name in left;
      if prior[name].kind == kind { return true; }
      left := left - {name};
    }
    found := false;
  }

  method KeepBindings(prior: map<string, Binding>, keep: seq<Kind>, allowDispatch: bool)
    returns (fault: Option<Fault>, bindings: map<string, Binding>, retained: map<string, string>)
    requires forall n :: n in prior ==> prior[n].name == n
    ensures fault.None? ==> Tracks(bindings, retained, Origins(prior, keep, map[]))
    ensures fault.None? ==> forall kind :: kind in keep ==> KeepAllowed(kind, prior, allowDispatch)
    ensures fault.Some? ==> exists kind :: kind in keep && KeepFault(kind, prior, allowDispatch) == fault
  {
    hide Tracks, Origins;
    bindings, retained := map[], map[];
    NothingTracked(prior);
    for i := 0 to |keep|
      invariant Tracks(bindings, retained, Origins(prior, keep[..i], map[]))
      invariant forall kind :: kind in keep[..i] ==> KeepAllowed(kind, prior, allowDispatch)
    {
      var kind := keep[i];
      assert keep[..i + 1] == keep[..i] + [kind];
      if kind == SecretKey {
        var found := AnyOfKind(prior, kind);
        assert found ==> KeepFault(kind, prior, allowDispatch) == Some(SecretKeyRetention);
        if found { return Some(SecretKeyRetention), bindings, retained; }
        SecretKeysNotKept(prior, keep[..i]);
      } else {
        assert !Supported(kind, allowDispatch) ==> KeepFault(kind, prior, allowDispatch) == Some(UnsupportedKeep);
        if !Supported(kind, allowDispatch) { return Some(UnsupportedKeep), bindings, retained; }
        bindings, retained := KeepOne(prior, kind, bindings, retained, keep[..i]);
      }
    }
    assert keep[..|keep|] == keep;
    fault := None;
  }

  // ----- explicit and inherited entries

  lemma OriginsStep(prior: map<string, Binding>, keep: seq<Kind>, given: map<string, Binding>, b: Binding)
    ensures var origins, more := Origins(prior, keep, given), Origins(prior, keep, given[b.name := b]);
      if b.kind.Inherit? && Source(b) !in prior then more == origins - {b.name}
      else more == origins[b.name := if b.kind.Inherit? then Retained(Source(b), prior[Source(b)]) else Given(b)]
  {
    hide Source, OriginOf;
    var more := given[b.name := b];
    forall n | n != b.name
      ensures OriginOf(prior, keep, more, n) == OriginOf(prior, keep, given, n)
    {
      OriginElsewhere(prior, keep, given, b, n);
    }
    OriginHere(prior, keep, more, b.name);
  }

  lemma OriginElsewhere(prior: map<string, Binding>, keep: seq<Kind>, given: map<string, Binding>, b: Binding,
                        n: string)
    requires n != b.name
    ensures OriginOf(prior, keep, given[b.name := b], n) == OriginOf(prior, keep, given, n)
  {
    hide Source;
  }

  lemma OriginHere(prior: map<string, Binding>, keep: seq<Kind>, given: map<string, Binding>, n: string)
    requires n in given
    ensures var b, origin := given[n], OriginOf(prior, keep, given, n);
      if b.kind.Inherit? && Source(b) !in prior then origin == None
      else origin == Some(if b.kind.Inherit? then Retained(Source(b), prior[Source(b)]) else Given(b))
  {
    hide Source;
  }

  /** One entry: it replaces what its name has so far. */
  method ApplyOne(prior: map<string, Binding>, before: map<string, Binding>, held: map<string, string>,
                  b: Binding, strict: bool, ghost keep: seq<Kind>, ghost given: map<string, Binding>)
    returns (fault: Option<Fault>, bindings: map<string, Binding>, retained: map<string, string>)
    requires Tracks(before, held, Origins(prior, keep, given)) && 0 < |b.name| <= MAX_NAME
    ensures fault == GivenFault(b, prior, strict)
    ensures fault.None? ==> Tracks(bindings, retained, Origins(prior, keep, given[b.name := b]))
  {
    hide Tracks, Source, Origins, Bare, BindingFrom;
    bindings, retained := before, held;
    ghost var origins := Origins(prior, keep, given);
    OriginsStep(prior, keep, given, b);
    fault := None;
    if b.kind.Inherit? {
      if b.versionID != "" && b.versionID != "latest" { return Some(OldVersion), bindings, retained; }
      if !Bare(b) { return Some(InheritFields), bindings, retained; }
      var source := Source(b);
      if source !in prior {
        if strict { return Some(MissingInherited), bindings, retained; }
        TracksNone(bindings, retained, origins, b.name);
        bindings, retained := bindings - {b.name}, retained - {b.name};
      } else {
        TracksOne(bindings, retained, origins, b.name, Retained(source, prior[source]));
        RetainedBinding(source, prior[source], b.name);
        retained := retained[b.name := source];
        bindings := bindings[b.name := prior[source].(name := b.name)];
      }
    } else {
      TracksOne(bindings, retained, origins, b.name, Given(b));
      RetainedBinding(b.name, b, b.name);
      retained := retained - {b.name};
      bindings := bindings[b.name := b];
    }
  }

  /** The first i entries are distinct and without fault, and their names are the ones seen. */
  predicate Checked(given: seq<Binding>, i: nat, seen: set<string>, prior: map<string, Binding>, strict: bool)
    requires i <= |given|
  {
    && (forall j :: 0 <= j < i ==> given[j].name in seen && GivenFault(given[j], prior, strict) == None)
    && (forall n :: n in seen ==> exists j :: 0 <= j < i && given[j].name == n)
    && (forall j, k :: 0 <= j < k < i ==> given[j].name != given[k].name)
  }

  lemma CheckedMore(given: seq<Binding>, i: nat, seen: set<string>, prior: map<string, Binding>, strict: bool)
    requires i < |given| && Checked(given, i, seen, prior, strict)
    ensures given[i].name in seen ==> !DistinctNames(given)
    ensures given[i].name !in seen && GivenFault(given[i], prior, strict) == None ==>
      Checked(given, i + 1, seen + {given[i].name}, prior, strict)
  {
    hide GivenFault;
  }

  lemma CheckedAll(given: seq<Binding>, seen: set<string>, prior: map<string, Binding>, strict: bool)
    requires Checked(given, |given|, seen, prior, strict)
    ensures DistinctNames(given) && forall b :: b in given ==> GivenFault(b, prior, strict) == None
  {
    hide GivenFault;
  }

  lemma BadlyNamed(b: Binding, prior: map<string, Binding>, strict: bool)
    requires b.name == "" || |b.name| > MAX_NAME
    ensures GivenFault(b, prior, strict) == Some(BadName)
  {
  }

  method ApplyGiven(prior: map<string, Binding>, kept: map<string, Binding>, held: map<string, string>,
                    given: seq<Binding>, strict: bool, ghost keep: seq<Kind>)
    returns (fault: Option<Fault>, bindings: map<string, Binding>, retained: map<string, string>)
    requires Tracks(kept, held, Origins(prior, keep, map[]))
    ensures fault.None? ==> Tracks(bindings, retained, Origins(prior, keep, Named(given)))
    ensures fault.None? ==> DistinctNames(given) && forall b :: b in given ==> GivenFault(b, prior, strict) == None
    ensures fault.Some? ==>
      || (fault.value == BadName && !DistinctNames(given))
      || (exists b :: b in given && GivenFault(b, prior, strict) == fault)
  {
    hide Tracks, Source, Origins, Bare, GivenFault, Checked, DistinctNames;
    bindings, retained := kept, held;
    var seen: set<string> := {};
    assert Checked(given, 0, seen, prior, strict) by { NothingChecked(given, prior, strict); }
    for i := 0 to |given|
      invariant Tracks(bindings, retained, Origins(prior, keep, Named(given[..i])))
      invariant Checked(given, i, seen, prior, strict)
    {
      var b := given[i];
      CheckedMore(given, i, seen, prior, strict);
      if b.name == "" || |b.name| > MAX_NAME || b.name in seen {
        if b.name == "" || |b.name| > MAX_NAME { BadlyNamed(b, prior, strict); }
        return Some(BadName), bindings, retained;
      }
      seen := seen + {b.name};
      assert given[..i + 1][..i] == given[..i];
      fault, bindings, retained := ApplyOne(prior, bindings, retained, b, strict, keep, Named(given[..i]));
      if fault.Some? { return; }
    }
    assert given[..|given|] == given;
    CheckedAll(given, seen, prior, strict);
    fault := None;
  }

  lemma NothingChecked(given: seq<Binding>, prior: map<string, Binding>, strict: bool)
    ensures Checked(given, 0, {}, prior, strict)
  {
  }

  lemma RetainedBinding(from: string, b: Binding, n: string)
    ensures BindingFrom(Retained(from, b), n) == b.(name := n) == BindingFrom(Given(b), n)
    ensures n == b.name ==> b.(name := n) == b
  {
  }

  // ----- the bindings in order

  /** The candidate so far: the revision of the names assembled. */
  ghost predicate Assembled(c: Candidate, m: Metadata, names: seq<string>, origins: map<string, Origin>,
                            resolve: Option<Resolver>) {
    && NamesOf(c.bindings) == names
    && Elements(names) == origins.Keys
    && (forall b :: b in c.bindings ==> b.name in origins && b == Stored(BindingFrom(origins[b.name], b.name)))
    && c.deployment == DeploymentOf(m, c.bindings, Vars(origins), resolve, [], "")
    && c.secrets == Secrets(origins)
    && c.keepSecrets == KeepSecrets(origins)
  }

  function Extend(entries: seq<Entry>, b: Binding, kind: Kind, resolve: Option<Resolver>): seq<Entry> {
    if b.kind == kind && EntryOf(b, resolve).Some? then entries + [EntryOf(b, resolve).value] else entries
  }

  lemma EntriesStep(bindings: seq<Binding>, b: Binding, resolve: Option<Resolver>)
    ensures forall kind ::
      Entries(bindings + [b], kind, resolve) == Extend(Entries(bindings, kind, resolve), b, kind, resolve)
    ensures AssetsName(bindings + [b]) == if b.kind == Assets then b.name else AssetsName(bindings)
  {
    hide EntryOf;
    assert (bindings + [b])[..|bindings|] == bindings;
  }

  lemma VarsStep(origins: map<string, Origin>, n: string, origin: Origin)
    requires n !in origins
    ensures var b, more := BindingFrom(origin, n), origins[n := origin];
      Vars(more) == if VarOf(b).Some? then Vars(origins)[n := VarOf(b).value] else Vars(origins)
  {
    hide BindingFrom, VarOf;
  }

  lemma SecretsStep(origins: map<string, Origin>, n: string, origin: Origin)
    requires n !in origins
    ensures var b, more := BindingFrom(origin, n), origins[n := origin];
      Secrets(more) == if b.kind == SecretText && b.text.Some? then Secrets(origins)[n := b.text.value]
        else Secrets(origins)
  {
    hide BindingFrom;
  }

  lemma KeepSecretsStep(origins: map<string, Origin>, n: string, origin: Origin)
    requires n !in origins
    ensures var b, more := BindingFrom(origin, n), origins[n := origin];
      KeepSecrets(more) == if b.kind == SecretText && b.text.None? && origin.Retained?
        then KeepSecrets(origins)[n := origin.from]
                           else KeepSecrets(origins)
  {
    hide BindingFrom;
  }

  /** The candidate with one binding more. */
  ghost function Append(c: Candidate, b: Binding, origin: Origin, resolve: Option<Resolver>): Candidate {
    var d, n := c.deployment, b.name;
    var stored := Stored(b);
    c.(bindings := c.bindings + [stored],
       secrets := if b.kind == SecretText && b.text.Some? then c.secrets[n := b.text.value] else c.secrets,
       keepSecrets := if b.kind == SecretText && b.text.None? && origin.Retained? then c.keepSecrets[n := origin.from]
         else c.keepSecrets,
       deployment := d.(
         vars := if VarOf(b).Some? then d.vars[n := VarOf(b).value] else d.vars,
         kvNamespaces := Extend(d.kvNamespaces, stored, KvNamespace, resolve),
         databases := Extend(d.databases, stored, D1, resolve),
         dispatchNamespaces := Extend(d.dispatchNamespaces, stored, DispatchNamespace, resolve),
         buckets := Extend(d.buckets, stored, R2Bucket, resolve),
         services := Extend(d.services, stored, Service, resolve),
         assetConfig := if b.kind == Assets then d.assetConfig.(binding := n) else d.assetConfig))
  }

  lemma BindingFromName(origin: Origin, n: string)
    ensures BindingFrom(origin, n).name == n
  {
  }

  lemma AssembledAppend(c: Candidate, m: Metadata, names: seq<string>, done: map<string, Origin>,
                        resolve: Option<Resolver>,
                        n: string, origin: Origin)
    requires Assembled(c, m, names, done, resolve) && n !in done
    ensures Assembled(Append(c, BindingFrom(origin, n), origin, resolve), m, names + [n], done[n := origin], resolve)
  {
    hide BindingFrom, VarOf, Stored, Extend, Entries, AssetsName, Vars, Secrets, KeepSecrets, Elements, NamesOf;
    var b := BindingFrom(origin, n);
    BindingFromName(origin, n);
    StoredIsStable(b);
    EntriesStep(c.bindings, Stored(b), resolve);
    VarsStep(done, n, origin);
    SecretsStep(done, n, origin);
    KeepSecretsStep(done, n, origin);
    NamesAppend(c.bindings, Stored(b));
    ListsAppend(c.bindings, done, n, origin);
  }

  lemma NamesAppend(bindings: seq<Binding>, b: Binding)
    ensures NamesOf(bindings + [b]) == NamesOf(bindings) + [b.name]
    ensures Elements(NamesOf(bindings + [b])) == Elements(NamesOf(bindings)) + {b.name}
  {
    assert NamesOf(bindings + [b]) == NamesOf(bindings) + [b.name];
  }

  lemma ListsAppend(bindings: seq<Binding>, done: map<string, Origin>, n: string, origin: Origin)
    requires forall b :: b in bindings ==> b.name in done && b == Stored(BindingFrom(done[b.name], b.name))
    requires n !in done
    ensures var more, next := done[n := origin], Stored(BindingFrom(origin, n));
      forall b :: b in bindings + [next] ==> b.name in more && b == Stored(BindingFrom(more[b.name], b.name))
  {
    hide BindingFrom, Stored;
    BindingFromName(origin, n);
    StoredIsStable(BindingFrom(origin, n));
  }

  /** The identity that the previous deployment pins for a binding. */
  method FindPinned(entries: seq<Entry>, source: string) returns (pinned: string)
    ensures pinned == Pinned(entries, source)
  {
    pinned := "";
    for i := 0 to |entries|
      invariant pinned == Pinned(entries[..i], source)
    {
      assert entries[..i + 1][..i] == entries[..i];
      if entries[i].binding == source { pinned := entries[i].id; }
    }
    assert entries[..|entries|] == entries;
  }

  lemma ValidIsSufficient(b: Binding)
    requires ValidBinding(b)
    ensures Sufficient(b)
  {
  }

  method ResolveResource(b: Binding, external: string, resolve: Option<Resolver>)
    returns (fault: Option<Fault>, id: string)
    requires b.kind in {DispatchNamespace, R2Bucket, Service} && external == External(b)
    ensures fault == if resolve.None? then Some(NoResolver)
      else if Resolved(resolve, b).None? then Some(UnknownResource) else None
    ensures Resolved(resolve, b) == if fault.None? then Some(id) else None
    ensures fault.None? ==> id != ""
  {
    if resolve.None? { return Some(NoResolver), ""; }
    var found := resolve.value(b.kind, external);
    if found.None? || found.value == "" { return Some(UnknownResource), ""; }
    return None, found.value;
  }

  /** What a binding with its own value or identifier adds to the deployment. */
  method PlaceValue(before: Candidate, b: Binding, retained: map<string, string>, prior: map<string, Binding>,
                    ghost origin: Origin, ghost resolve: Option<Resolver>)
    returns (ok: bool, c: Candidate, binding: Binding)
    requires Sufficient(b) && b.kind !in {DispatchNamespace, R2Bucket, Service}
    requires b.name in retained <==> origin.Retained?
    requires origin.Retained? ==>
      retained[b.name] == origin.from && origin.from in prior && prior[origin.from].kind == b.kind
    ensures ok <==> (b.kind == SecretText ==> b.text.Some? || origin.Retained?)
    ensures ok ==> c.(bindings := c.bindings + [binding]) == Append(before, b, origin, resolve)
  {
    hide Resolved;
    c, binding, ok := before, b, true;
    var name, d := b.name, before.deployment;
    match b.kind {
      case PlainText =>
        d := d.(vars := d.vars[name := TextVar(b.text.value)]);
      case Json =>
        d := d.(vars := d.vars[name := JsonVar(b.json.value)]);
      case SecretText =>
        if b.text.Some? {
          c := c.(secrets := c.secrets[name := b.text.value]);
          binding := b.(text := None);
        } else {
          if name !in retained || prior[retained[name]].kind != SecretText { return false, c, b; }
          c := c.(keepSecrets := c.keepSecrets[name := retained[name]]);
        }
      case KvNamespace =>
        d := d.(kvNamespaces := d.kvNamespaces + [Entry(name, b.namespaceID)]);
      case D1 =>
        binding := binding.(databaseID := DatabaseIDOf(b), id := "");
        d := d.(databases := d.databases + [Entry(name, DatabaseIDOf(binding))]);
      case Assets =>
        d := d.(assetConfig := d.assetConfig.(binding := name));
      case _ =>
    }
    c := c.(deployment := d);
  }

  /** What a binding resolved by name adds to the deployment. */
  method PlaceResource(before: Candidate, b: Binding, retained: map<string, string>, previous: Option<Previous>,
                       resolve: Option<Resolver>, ghost origin: Origin)
    returns (fault: Option<Fault>, c: Candidate)
    requires b.kind in {DispatchNamespace, R2Bucket, Service}
    requires b.name in retained <==> origin.Retained?
    requires origin.Retained? ==> previous.Some? && retained[b.name] == origin.from
    ensures fault == if OriginAllowed(b, origin, previous, resolve) then None
                     else if resolve.None? then Some(NoResolver)
                     else if Resolved(resolve, b).None? then Some(UnknownResource)
                     else Some(NamespaceChanged)
    ensures fault.None? ==> c.(bindings := c.bindings + [b]) == Append(before, b, origin, resolve)
  {
    hide Resolved, Pinned;
    c := before;
    var d, id := before.deployment, "";
    fault, id := ResolveResource(b, External(b), resolve);
    if fault.Some? { return; }
    match b.kind {
      case DispatchNamespace =>
        if b.name in retained {
          var pinned := FindPinned(previous.value.deployment.dispatchNamespaces, retained[b.name]);
          if pinned == "" || pinned != id { return Some(NamespaceChanged), c; }
        }
        d := d.(dispatchNamespaces := d.dispatchNamespaces + [Entry(b.name, id)]);
      case R2Bucket => d := d.(buckets := d.buckets + [Entry(b.name, id)]);
      case Service => d := d.(services := d.services + [Entry(b.name, id)]);
    }
    c := c.(deployment := d);
  }

  /** Checks and stores one binding. */
  method AssembleOne(before: Candidate, b: Binding, retained: map<string, string>, prior: map<string, Binding>,
                     previous: Option<Previous>, resolve: Option<Resolver>, allowDispatch: bool, ghost origin: Origin)
    returns (fault: Option<Fault>, c: Candidate)
    requires b.name in retained <==> origin.Retained?
    requires origin.Retained? ==>
      && previous.Some? && retained[b.name] == origin.from && origin.from in prior && prior[origin.from] == origin.prior
    requires b == BindingFrom(origin, b.name)
    ensures fault == BindingFault(b, origin, previous, resolve, allowDispatch)
    ensures fault.None? ==> c == Append(before, b, origin, resolve)
  {
    hide ValidBinding, Pinned, Resolved, Append, Supported, Sufficient;
    c := before;
    if !Supported(b.kind, allowDispatch) { return Some(UnsupportedType), c; }
    var valid := Validate(b);
    if !valid { return Some(InvalidBinding), c; }
    ValidIsSufficient(b);
    var binding := b;
    if b.kind in {DispatchNamespace, R2Bucket, Service} {
      fault, c := PlaceResource(c, b, retained, previous, resolve, origin);
      if fault.Some? { return; }
    } else {
      var ok;
      ok, c, binding := PlaceValue(c, b, retained, prior, origin, resolve);
      if !ok { return Some(SecretWithoutValue), c; }
    }
    c := c.(bindings := c.bindings + [binding]);
    fault := None;
  }

  lemma OriginsFacts(m: Metadata, previous: Option<Previous>)
    ensures forall n :: n in OriginsOf(m, previous) && OriginsOf(m, previous)[n].Retained? ==>
      && previous.Some?
      && OriginsOf(m, previous)[n].from in Prior(previous)
      && Prior(previous)[OriginsOf(m, previous)[n].from] == OriginsOf(m, previous)[n].prior
  {
    hide Named, Source;
  }

  lemma FaultlessIsAllowed(b: Binding, origin: Origin, previous: Option<Previous>, resolve: Option<Resolver>,
                           allowDispatch: bool)
    ensures BindingFault(b, origin, previous, resolve, allowDispatch) == None
            <==> BindingAllowed(b, origin, previous, resolve, allowDispatch)
  {
    hide Supported, ValidBinding, OriginAllowed, Resolved;
  }

  /** Assembles the bindings in the order of their names. */
  method AssembleAll(start: Candidate, bindings: map<string, Binding>, retained: map<string, string>,
                     prior: map<string, Binding>, m: Metadata, previous: Option<Previous>, resolve: Option<Resolver>,
                     allowDispatch: bool)
    returns (fault: Option<Fault>, c: Candidate, ghost names: seq<string>)
    requires prior == Prior(previous) && Tracks(bindings, retained, OriginsOf(m, previous))
    requires Assembled(start, m, [], map[], resolve)
    ensures fault.None? ==> Ascending(names) && Assembled(c, m, names, OriginsOf(m, previous), resolve)
    ensures fault.None? ==> AllAllowed(m, previous, resolve, allowDispatch)
    ensures fault.Some? ==> var origins := OriginsOf(m, previous);
      exists n :: n in origins
                  && BindingFault(BindingFrom(origins[n], n), origins[n], previous, resolve, allowDispatch) == fault
  {
    hide Assembled, Ascending, Elements, BindingFrom, OriginsOf, Prior, BindingFault, Append, Tracks, AllAllowed,
         Faultless;
    ghost var origins := OriginsOf(m, previous);
    OriginsFacts(m, previous);
    TrackedKeys(bindings, retained, origins);
    var order := SortNames(bindings.Keys);
    names := order;
    c := start;
    ghost var done: map<string, Origin> := map[];
    AssembledStart(order, origins, previous, resolve, allowDispatch);
    for i := 0 to |order|
      invariant Faultless(done, order[..i], origins, previous, resolve, allowDispatch)
      invariant Assembled(c, m, order[..i], done, resolve)
    {
      var name := order[i];
      NewName(order, i);
      TrackedAt(bindings, retained, origins, name);
      BindingFromName(origins[name], name);
      FaultlessStep(done, order[..i], origins, previous, resolve, allowDispatch, name);
      ghost var before := c;
      fault, c := AssembleOne(c, bindings[name], retained, prior, previous, resolve, allowDispatch, origins[name]);
      if fault.Some? { return; }
      AssembledAppend(before, m, order[..i], done, resolve, name, origins[name]);
      done := done[name := origins[name]];
    }
    assert order[..|order|] == order;
    FaultlessAll(m, previous, order, done, resolve, allowDispatch);
    fault := None;
  }

  /** The names done have no fault. */
  ghost predicate Faultless(done: map<string, Origin>, names: seq<string>, origins: map<string, Origin>,
                            previous: Option<Previous>, resolve: Option<Resolver>, allowDispatch: bool) {
    && done.Keys == Elements(names)
    && forall n :: n in done ==>
         n in origins && done[n] == origins[n]
         && BindingFault(BindingFrom(done[n], n), done[n], previous, resolve, allowDispatch) == None
  }

  lemma AssembledStart(names: seq<string>, origins: map<string, Origin>, previous: Option<Previous>,
                       resolve: Option<Resolver>, allowDispatch: bool)
    ensures Faultless(map[], names[..0], origins, previous, resolve, allowDispatch)
  {
  }

  lemma FaultlessStep(done: map<string, Origin>, names: seq<string>, origins: map<string, Origin>,
                      previous: Option<Previous>, resolve: Option<Resolver>, allowDispatch: bool, n: string)
    requires Faultless(done, names, origins, previous, resolve, allowDispatch) && n !in Elements(names) && n in origins
    ensures n !in done
    ensures BindingFault(BindingFrom(origins[n], n), origins[n], previous, resolve, allowDispatch) == None ==>
      Faultless(done[n := origins[n]], names + [n], origins, previous, resolve, allowDispatch)
  {
    hide BindingFault, BindingFrom;
    assert Elements(names + [n]) == Elements(names) + {n};
  }

  lemma FaultlessAll(m: Metadata, previous: Option<Previous>, names: seq<string>, done: map<string, Origin>,
                     resolve: Option<Resolver>, allowDispatch: bool)
    requires Faultless(done, names, OriginsOf(m, previous), previous, resolve, allowDispatch)
    requires Elements(names) == OriginsOf(m, previous).Keys
    ensures done == OriginsOf(m, previous) && AllAllowed(m, previous, resolve, allowDispatch)
  {
    hide BindingFault, BindingFrom, OriginsOf, Elements, BindingAllowed;
    var origins := OriginsOf(m, previous);
    assert done.Keys == origins.Keys;
    forall n | n in origins
      ensures BindingAllowed(BindingFrom(origins[n], n), origins[n], previous, resolve, allowDispatch)
    {
      FaultlessIsAllowed(BindingFrom(origins[n], n), origins[n], previous, resolve, allowDispatch);
    }
  }

  lemma TrackedAt(bindings: map<string, Binding>, retained: map<string, string>, origins: map<string, Origin>,
                  n: string)
    requires Tracks(bindings, retained, origins) && n in origins
    ensures n in bindings && bindings[n] == BindingFrom(origins[n], n)
    ensures n in retained <==> origins[n].Retained?
    ensures n in retained ==> retained[n] == origins[n].from
  {
    hide BindingFrom;
  }

  lemma NewName(names: seq<string>, i: nat)
    requires Ascending(names) && i < |names|
    ensures names[i] !in Elements(names[..i]) && names[i] in Elements(names)
    ensures names[..i + 1] == names[..i] + [names[i]] && Elements(names[..i + 1]) == Elements(names[..i]) + {names[i]}
  {
    hide Less;
    forall j | 0 <= j < i ensures names[j] != names[i] {
      LessIsStrict(names[j], names[i]);
    }
  }

  // ----- the whole translation

  const NO_DEPLOYMENT :=
    Deployment("modules", "", "", [], map[], [], [], [], [], [], [], AssetConfig("", ""), [], "", "")

  /** The candidate before any binding. */
  function Start(m: Metadata): Candidate {
    Candidate(NO_DEPLOYMENT.(entrypoint := m.mainModule, compatibilityDate := m.compatibilityDate,
                             compatibilityFlags := m.compatibilityFlags), [], [], map[], map[])
  }

  lemma StartAssembled(m: Metadata, resolve: Option<Resolver>)
    ensures Assembled(Start(m), m, [], map[], resolve)
  {
  }

  lemma {:induction false} AssetsNamed(bindings: seq<Binding>)
    requires Ascending(NamesOf(bindings))
    ensures AssetsName(bindings) != "" <==> exists b :: b in bindings && b.kind == Assets && b.name != ""
    decreases |bindings|
  {
    hide Ascending;
    if bindings != [] {
      var init, last := bindings[..|bindings| - 1], bindings[|bindings| - 1];
      InitAscending(bindings);
      AssetsNamed(init);
      InInit(bindings);
    }
  }

  lemma InInit(bindings: seq<Binding>)
    requires bindings != []
    ensures forall b :: b in bindings <==> b in bindings[..|bindings| - 1] || b == bindings[|bindings| - 1]
  {
    assert bindings == bindings[..|bindings| - 1] + [bindings[|bindings| - 1]];
  }

  /** Only the first name of an ascending list may be empty. */
  lemma InitAscending(bindings: seq<Binding>)
    requires bindings != [] && Ascending(NamesOf(bindings))
    ensures Ascending(NamesOf(bindings[..|bindings| - 1]))
    ensures |bindings| > 1 ==> bindings[|bindings| - 1].name != ""
  {
    hide Less;
    var names, n := NamesOf(bindings), |bindings| - 1;
    assert NamesOf(bindings[..n]) == names[..n];
    if n > 0 {
      assert Less(names[0], names[n]);
      LargerIsNamed(names[0], names[n]);
    }
  }

  lemma LargerIsNamed(a: string, b: string)
    requires Less(a, b)
    ensures b != ""
  {
  }

  lemma AssembledAssets(c: Candidate, m: Metadata, names: seq<string>, origins: map<string, Origin>,
                        resolve: Option<Resolver>)
    requires Assembled(c, m, names, origins, resolve) && Ascending(names)
    ensures c.deployment.assetConfig.binding != "" <==> NamesAssets(origins)
    ensures c.deployment.assetConfig.handling == "" && c.deployment.assets == []
  {
    hide Less, BindingFrom, Vars, Secrets, KeepSecrets, Stored, Entries, AssetsName;
    AssetsNamed(c.bindings);
    forall n | n in origins
      ensures exists b :: b in c.bindings && b.name == n && b.kind == BindingFrom(origins[n], n).kind
    {
      assert n in Elements(names);
      var i :| 0 <= i < |names| && names[i] == n;
      assert c.bindings[i].name == n;
      StoredIsStable(BindingFrom(origins[n], n));
      assert c.bindings[i] in c.bindings;
    }
    forall b | b in c.bindings
      ensures b.kind == BindingFrom(origins[b.name], b.name).kind
    {
      StoredIsStable(BindingFrom(origins[b.name], b.name));
    }
  }

  lemma OriginsUnfold(m: Metadata, previous: Option<Previous>)
    ensures OriginsOf(m, previous) == Origins(Prior(previous), m.keepBindings, Named(m.bindings))
  {
  }

  lemma TrackedKeys(bindings: map<string, Binding>, retained: map<string, string>, origins: map<string, Origin>)
    requires Tracks(bindings, retained, origins)
    ensures bindings.Keys == origins.Keys && |bindings| == |origins|
  {
    assert bindings.Keys == origins.Keys;
  }

  lemma AssembledIsRevision(c: Candidate, m: Metadata, previous: Option<Previous>, names: seq<string>,
                            resolve: Option<Resolver>)
    requires Ascending(names) && Assembled(c, m, names, OriginsOf(m, previous), resolve)
    ensures var d := c.deployment;
      IsRevision(c.(deployment := d.(assets := AssetsOf(m, previous),
                                     assetConfig := d.assetConfig.(handling := HandlingOf(m, previous))),
                    tags := TagsOf(m, previous)),
                 m, previous, resolve)
  {
    hide Less, BindingFrom, Vars, Secrets, KeepSecrets, Stored, Entries, AssetsName, OriginsOf, TagsOf, AssetsOf,
         HandlingOf;
  }

  lemma EntriesAreAllowed(m: Metadata, previous: Option<Previous>, allowDispatch: bool)
    requires forall kind :: kind in m.keepBindings ==> KeepAllowed(kind, Prior(previous), allowDispatch)
    requires DistinctNames(m.bindings)
    requires forall b :: b in m.bindings ==> GivenFault(b, Prior(previous), m.strictInherit) == None
    ensures EntriesAllowed(m, previous, allowDispatch)
  {
    hide KeepAllowed, Prior, Bare, Source;
  }

  /** Merges the bindings of the upload with those it retains, and assembles them. */
  method Merge(m: Metadata, previous: Option<Previous>, resolve: Option<Resolver>, allowDispatch: bool)
    returns (r: Result<Candidate, Fault>, ghost names: seq<string>)
    ensures r.Ok? ==> EntriesAllowed(m, previous, allowDispatch) && |OriginsOf(m, previous)| <= MAX_BINDINGS
    ensures r.Ok? ==> AllAllowed(m, previous, resolve, allowDispatch)
    ensures r.Ok? ==> Ascending(names) && Assembled(r.value, m, names, OriginsOf(m, previous), resolve)
    ensures r.Err? ==> Explains(r.error, m, previous, resolve, allowDispatch)
  {
    hide Assembled, Tracks, Less, Named, OriginsOf, AllAllowed, KeepAllowed, GivenFault, KeepFault, BindingFault, Start,
         EntriesAllowed, Ascending, DistinctNames, BindingFrom, NamesAssets;
    names := [];
    var prior := map[];
    if previous.Some? {
      prior := ReadPrior(previous.value.bindings);
      NamedNames(previous.value.bindings);
    }
    var fault, bindings, retained := KeepBindings(prior, m.keepBindings, allowDispatch);
    if fault.Some? { return Err(fault.value), names; }
    fault, bindings, retained := ApplyGiven(prior, bindings, retained, m.bindings, m.strictInherit, m.keepBindings);
    if fault.Some? { return Err(fault.value), names; }
    EntriesAreAllowed(m, previous, allowDispatch);
    OriginsUnfold(m, previous);
    TrackedKeys(bindings, retained, OriginsOf(m, previous));
    if |bindings| > MAX_BINDINGS { return Err(TooManyBindings), names; }
    StartAssembled(m, resolve);
    var c := Start(m);
    fault, c, names := AssembleAll(c, bindings, retained, prior, m, previous, resolve, allowDispatch);
    r := if fault.Some? then Err(fault.value) else Ok(c);
  }

  /** Translates an upload against the previous revision. It succeeds exactly on an acceptable
      upload, with the revision asked for; otherwise it names a fault of the upload. */
  method Translate(m: Metadata, previous: Option<Previous>, resolve: Option<Resolver>, allowDispatch: bool)
    returns (r: Result<Candidate, Fault>)
    ensures r.Ok? <==> Acceptable(m, previous, resolve, allowDispatch)
    ensures r.Ok? ==> IsRevision(r.value, m, previous, resolve)
    ensures r.Err? ==> Explains(r.error, m, previous, resolve, allowDispatch)
  {
    hide Assembled, Less, OriginsOf, AllAllowed, EntriesAllowed, Explains, IsRevision, NamesAssets;
    var tags := if m.tags.Some? then m.tags.value else if previous.Some? then previous.value.tags else [];
    var merged, names := Merge(m, previous, resolve, allowDispatch);
    if merged.Err? {
      ExplainedIsUnacceptable(merged.error, m, previous, resolve, allowDispatch);
      return Err(merged.error);
    }
    var c := merged.value;
    AssembledAssets(c, m, names, OriginsOf(m, previous), resolve);
    AssembledIsRevision(c, m, previous, names, resolve);
    var d := c.deployment;
    if m.keepAssets {
      if previous.None? {
        AssetFaults(m, previous, resolve, allowDispatch);
        return Err(NoPreviousAssets);
      }
      d := d.(assets := previous.value.deployment.assets,
              assetConfig := previous.value.deployment.assetConfig.(binding := d.assetConfig.binding));
    }
    if d.assetConfig.binding != "" && d.assets == [] {
      AssetFaults(m, previous, resolve, allowDispatch);
      return Err(NoAssets);
    }
    r := Ok(c.(deployment := d, tags := tags));
  }

  lemma AssetFaults(m: Metadata, previous: Option<Previous>, resolve: Option<Resolver>, allowDispatch: bool)
    requires EntriesAllowed(m, previous, allowDispatch)
    ensures m.keepAssets && previous.None? ==> Explains(NoPreviousAssets, m, previous, resolve, allowDispatch)
    ensures NamesAssets(OriginsOf(m, previous)) && AssetsOf(m, previous) == [] ==>
      Explains(NoAssets, m, previous, resolve, allowDispatch)
  {
    hide KeepFault, GivenFault, BindingFault, OriginsOf, NamesAssets, EntriesAllowed;
  }
}
