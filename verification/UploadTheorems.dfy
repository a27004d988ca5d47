/** What a translated upload is, whatever order its parts come in. */
module UploadTheorems {
  import opened Outcomes
  import opened Sequences
  import opened NameOrder
  import opened UploadBindings
  import opened Upload

  // ----- bindings by name

  lemma {:induction false} NamedFacts(bindings: seq<Binding>)
    ensures forall n :: n in Named(bindings) ==> Named(bindings)[n] in bindings && Named(bindings)[n].name == n
    ensures forall b :: b in bindings ==> b.name in Named(bindings)
    decreases |bindings|
  {
    if bindings != [] {
      var init, last := bindings[..|bindings| - 1], bindings[|bindings| - 1];
      assert bindings == init + [last];
      NamedFacts(init);
    }
  }

  lemma NamedDistinct(bindings: seq<Binding>)
    requires DistinctNames(bindings)
    ensures forall b :: b in bindings ==> b.name in Named(bindings) && Named(bindings)[b.name] == b
  {
    hide Named;
    NamedFacts(bindings);
  }

  lemma DistinctPermutation(a: seq<Binding>, b: seq<Binding>)
    requires multiset(a) == multiset(b) && DistinctNames(a)
    ensures DistinctNames(b)
  {
    hide Named;
    SameElements(a, b);
    NamedDistinct(a);
    forall i, j | 0 <= i < j < |b| ensures b[i].name != b[j].name {
      if b[i].name == b[j].name {
        assert b[i] in a && b[j] in a;
        CountTwo(b, i, j);
        var k :| 0 <= k < |a| && a[k] == b[i];
        CountOne(a, k);
        assert false;
      }
    }
  }

  lemma NamedPermutation(a: seq<Binding>, b: seq<Binding>)
    requires multiset(a) == multiset(b) && DistinctNames(a)
    ensures Named(a) == Named(b)
  {
    hide Named;
    SameElements(a, b);
    DistinctPermutation(a, b);
    NamedDistinct(a);
    NamedDistinct(b);
    NamedFacts(a);
    NamedFacts(b);
    assert forall n :: n in Named(a) ==> n in Named(b) && Named(b)[n] == Named(a)[n];
    assert forall n :: n in Named(b) ==> n in Named(a);
  }

  // ----- order does not matter

  /** The same upload with its bindings and its retained types in another order. */
  predicate Reordered(m: Metadata, n: Metadata) {
    && multiset(m.bindings) == multiset(n.bindings)
    && multiset(m.keepBindings) == multiset(n.keepBindings)
    && n == m.(bindings := n.bindings, keepBindings := n.keepBindings)
  }

  lemma ReorderedOrigins(m: Metadata, n: Metadata, previous: Option<Previous>)
    requires Reordered(m, n) && DistinctNames(m.bindings)
    ensures OriginsOf(m, previous) == OriginsOf(n, previous)
  {
    hide Named, Source;
    NamedPermutation(m.bindings, n.bindings);
    SameElements(m.keepBindings, n.keepBindings);
    var prior, given := Prior(previous), Named(m.bindings);
    assert forall x :: OriginOf(prior, m.keepBindings, given, x) == OriginOf(prior, n.keepBindings, given, x);
  }

  lemma ReorderedEntries(m: Metadata, n: Metadata, previous: Option<Previous>, allowDispatch: bool)
    requires Reordered(m, n) && EntriesAllowed(m, previous, allowDispatch)
    ensures EntriesAllowed(n, previous, allowDispatch)
  {
    hide Prior, KeepAllowed, GivenAllowed;
    DistinctPermutation(m.bindings, n.bindings);
    SameElements(m.bindings, n.bindings);
    SameElements(m.keepBindings, n.keepBindings);
  }

  lemma ReorderedAcceptable(m: Metadata, n: Metadata, previous: Option<Previous>, resolve: Option<Resolver>,
                            allowDispatch: bool)
    requires Reordered(m, n) && Acceptable(m, previous, resolve, allowDispatch)
    ensures Acceptable(n, previous, resolve, allowDispatch)
  {
    hide EntriesAllowed, OriginsOf, BindingAllowed;
    assert DistinctNames(m.bindings) by { EntriesAreDistinct(m, previous, allowDispatch); }
    ReorderedOrigins(m, n, previous);
    ReorderedEntries(m, n, previous, allowDispatch);
  }

  lemma EntriesAreDistinct(m: Metadata, previous: Option<Previous>, allowDispatch: bool)
    requires EntriesAllowed(m, previous, allowDispatch)
    ensures DistinctNames(m.bindings)
  {
  }

  lemma ListsUnique(a: seq<Binding>, b: seq<Binding>, origins: map<string, Origin>)
    requires Lists(a, origins) && Lists(b, origins)
    ensures a == b
  {
    hide Ascending, Elements, BindingFrom, Stored;
    AscendingUnique(NamesOf(a), NamesOf(b));
    forall i | 0 <= i < |a| ensures a[i] == b[i] {
      assert a[i].name == NamesOf(a)[i] == NamesOf(b)[i] == b[i].name;
      assert a[i] in a && b[i] in b;
    }
  }

  /** An upload asks for one revision only. */
  lemma RevisionUnique(c: Candidate, d: Candidate, m: Metadata, previous: Option<Previous>, resolve: Option<Resolver>)
    requires IsRevision(c, m, previous, resolve) && IsRevision(d, m, previous, resolve)
    ensures c == d
  {
    hide Lists, OriginsOf, Vars, Secrets, KeepSecrets, DeploymentOf;
    ListsUnique(c.bindings, d.bindings, OriginsOf(m, previous));
  }

  /** Neither the order of the bindings nor that of the retained types matters. */
  lemma OrderDoesNotMatter(m: Metadata, n: Metadata, previous: Option<Previous>, resolve: Option<Resolver>,
                           allowDispatch: bool, c: Candidate, d: Candidate)
    requires Reordered(m, n)
    ensures Acceptable(m, previous, resolve, allowDispatch) <==> Acceptable(n, previous, resolve, allowDispatch)
    ensures (Acceptable(m, previous, resolve, allowDispatch)
             && IsRevision(c, m, previous, resolve) && IsRevision(d, n, previous, resolve)) ==> c == d
  {
    hide Acceptable, IsRevision;
    if Acceptable(m, previous, resolve, allowDispatch) {
      ReorderedAcceptable(m, n, previous, resolve, allowDispatch);
      if IsRevision(c, m, previous, resolve) && IsRevision(d, n, previous, resolve) {
        ReorderedRevision(c, m, n, previous, resolve, allowDispatch);
        RevisionUnique(c, d, n, previous, resolve);
      }
    }
    if Acceptable(n, previous, resolve, allowDispatch) {
      ReorderedAcceptable(n, m, previous, resolve, allowDispatch);
    }
  }

  lemma ReorderedRevision(c: Candidate, m: Metadata, n: Metadata, previous: Option<Previous>, resolve: Option<Resolver>,
                          allowDispatch: bool)
    requires Reordered(m, n) && Acceptable(m, previous, resolve, allowDispatch) && IsRevision(c, m, previous, resolve)
    ensures IsRevision(c, n, previous, resolve)
  {
    hide EntriesAllowed, AllAllowed, OriginsOf, Lists, Vars, Secrets, KeepSecrets, Entries;
    EntriesAreDistinct(m, previous, allowDispatch);
    ReorderedOrigins(m, n, previous);
  }

  // ----- what each name gets

  lemma ListsEach(bindings: seq<Binding>, origins: map<string, Origin>, n: string)
    requires Lists(bindings, origins)
    ensures n in origins ==> Stored(BindingFrom(origins[n], n)) in bindings
    ensures n !in origins ==> forall b :: b in bindings ==> b.name != n
  {
    hide BindingFrom, Stored;
    if n in origins {
      assert n in Elements(NamesOf(bindings));
      var i :| 0 <= i < |bindings| && NamesOf(bindings)[i] == n;
      assert bindings[i] in bindings;
    }
  }

  /** An entry with its own type is stored as it is; an inherit entry stores the prior binding of
      its source, whatever the other entries say, or leaves its name unbound. */
  lemma EntryDecidesItsName(c: Candidate, m: Metadata, previous: Option<Previous>, resolve: Option<Resolver>,
                            b: Binding)
    requires IsRevision(c, m, previous, resolve) && DistinctNames(m.bindings) && b in m.bindings
    ensures !b.kind.Inherit? ==> Stored(b) in c.bindings
    ensures b.kind.Inherit? && Source(b) in Prior(previous) ==>
      Stored(Prior(previous)[Source(b)].(name := b.name)) in c.bindings
    ensures b.kind.Inherit? && Source(b) !in Prior(previous) ==> forall x :: x in c.bindings ==> x.name != b.name
  {
    hide Named, Stored, Source, DeploymentOf, Secrets, KeepSecrets, Vars, Lists;
    NamedDistinct(m.bindings);
    ListsEach(c.bindings, OriginsOf(m, previous), b.name);
    assert b.(name := b.name) == b;
  }

  /** Two entries that inherit from each other's names swap the two bindings. */
  lemma MutualRenamesSwap(c: Candidate, m: Metadata, previous: Option<Previous>, resolve: Option<Resolver>, b: Binding,
                          d: Binding)
    requires IsRevision(c, m, previous, resolve) && DistinctNames(m.bindings) && b in m.bindings && d in m.bindings
    requires b.kind.Inherit? && d.kind.Inherit? && Source(b) == d.name && Source(d) == b.name
    requires b.name in Prior(previous) && d.name in Prior(previous)
    ensures Stored(Prior(previous)[d.name].(name := b.name)) in c.bindings
    ensures Stored(Prior(previous)[b.name].(name := d.name)) in c.bindings
  {
    hide IsRevision, Prior, Source, Stored;
    EntryDecidesItsName(c, m, previous, resolve, b);
    EntryDecidesItsName(c, m, previous, resolve, d);
  }

  /** A prior binding that no entry names survives exactly when its type is retained. */
  lemma RetentionIsByType(c: Candidate, m: Metadata, previous: Option<Previous>, resolve: Option<Resolver>, n: string)
    requires IsRevision(c, m, previous, resolve)
    requires n in Prior(previous) && forall b :: b in m.bindings ==> b.name != n
    ensures var was := Prior(previous)[n];
      if was.kind in m.keepBindings && was.kind != SecretKey then Stored(was) in c.bindings
      else forall x :: x in c.bindings ==> x.name != n
  {
    hide Named, Stored, Source, DeploymentOf, Secrets, KeepSecrets, Vars, Lists;
    NamedFacts(m.bindings);
    if previous.Some? { NamedFacts(previous.value.bindings); }
    ListsEach(c.bindings, OriginsOf(m, previous), n);
    assert Prior(previous)[n].(name := n) == Prior(previous)[n];
  }

  // ----- a revision is complete

  lemma {:induction false} EntriesMembers(bindings: seq<Binding>, kind: Kind, resolve: Option<Resolver>)
    ensures forall e :: e in Entries(bindings, kind, resolve) <==>
              exists b :: b in bindings && b.kind == kind && EntryOf(b, resolve) == Some(e)
    decreases |bindings|
  {
    hide EntryOf;
    if bindings != [] {
      var init, last := bindings[..|bindings| - 1], bindings[|bindings| - 1];
      assert bindings == init + [last];
      EntriesMembers(init, kind, resolve);
    }
  }

  lemma {:induction false} AscendingCount(names: seq<string>)
    requires Ascending(names)
    ensures |Elements(names)| == |names|
    decreases |names|
  {
    hide Less;
    if names != [] {
      TailElements(names);
      AscendingCount(names[1..]);
      assert names[0] in Elements(names);
    } else {
      NoElements(names);
    }
  }

  /** What the binding of a listed name is made from. */
  lemma ListedOrigin(c: Candidate, m: Metadata, previous: Option<Previous>, resolve: Option<Resolver>,
                     allowDispatch: bool, b: Binding)
    requires Acceptable(m, previous, resolve, allowDispatch) && IsRevision(c, m, previous, resolve) && b in c.bindings
    ensures var origins := OriginsOf(m, previous);
      && b.name in origins
      && b == Stored(BindingFrom(origins[b.name], b.name))
      && BindingAllowed(BindingFrom(origins[b.name], b.name), origins[b.name], previous, resolve, allowDispatch)
  {
    hide BindingFrom, Stored, OriginsOf, BindingAllowed, DeploymentOf, Vars, Secrets, KeepSecrets, EntriesAllowed;
  }

  /** The revision is in strict order of names and within the limit; all it stores is valid, of a
      supported type, holds no secret, and every resource it names is listed with its identity. */
  lemma RevisionIsComplete(c: Candidate, m: Metadata, previous: Option<Previous>, resolve: Option<Resolver>,
                           allowDispatch: bool)
    requires Acceptable(m, previous, resolve, allowDispatch) && IsRevision(c, m, previous, resolve)
    ensures Ascending(NamesOf(c.bindings)) && |c.bindings| <= MAX_BINDINGS
    ensures forall b :: b in c.bindings ==> Supported(b.kind, allowDispatch) && ValidBinding(b) && Stored(b) == b
    ensures forall b :: b in c.bindings && b.kind in RESOURCES ==> EntryOf(b, resolve).Some?
  {
    hide BindingFrom, Stored, OriginsOf, EntriesAllowed, Supported, ValidBinding, DeploymentOf, Vars, Secrets,
         KeepSecrets, Ascending;
    hide AllAllowed, EntryOf, Elements, OriginAllowed;
    AscendingCount(NamesOf(c.bindings));
    assert |OriginsOf(m, previous)| == |OriginsOf(m, previous).Keys|;
    forall b | b in c.bindings
      ensures Supported(b.kind, allowDispatch) && ValidBinding(b) && Stored(b) == b
      ensures b.kind in RESOURCES ==> EntryOf(b, resolve).Some?
    {
      var origins := OriginsOf(m, previous);
      ListedOrigin(c, m, previous, resolve, allowDispatch, b);
      StoredIsStable(BindingFrom(origins[b.name], b.name));
      AllowedResource(BindingFrom(origins[b.name], b.name), origins[b.name], previous, resolve, allowDispatch);
    }
  }

  lemma AllowedResource(b: Binding, origin: Origin, previous: Option<Previous>, resolve: Option<Resolver>,
                        allowDispatch: bool)
    requires BindingAllowed(b, origin, previous, resolve, allowDispatch)
    ensures Stored(b).kind in RESOURCES ==> EntryOf(Stored(b), resolve).Some?
  {
    hide ValidBinding, Supported;
    SameResource(b, resolve);
  }

  const RESOURCES := {KvNamespace, D1, DispatchNamespace, R2Bucket, Service}

  lemma SameResource(b: Binding, resolve: Option<Resolver>)
    ensures Resolved(resolve, Stored(b)) == Resolved(resolve, b)
    ensures EntryOf(Stored(b), resolve) == EntryOf(b, resolve)
  {
  }

  function SecretNames(bindings: seq<Binding>): set<string> {
    set b | b in bindings && b.kind == SecretText :: b.name
  }

  /** Every secret is either given a value or kept from a secret of the prior revision. */
  lemma SecretsAreAccountedFor(c: Candidate, m: Metadata, previous: Option<Previous>, resolve: Option<Resolver>,
                               allowDispatch: bool)
    requires Acceptable(m, previous, resolve, allowDispatch) && IsRevision(c, m, previous, resolve)
    ensures c.secrets.Keys !! c.keepSecrets.Keys
    ensures c.secrets.Keys + c.keepSecrets.Keys == SecretNames(c.bindings)
    ensures forall b :: b in c.bindings && b.kind == SecretText ==> b.text == None
    ensures forall n :: n in c.keepSecrets ==>
      && c.keepSecrets[n] in Prior(previous)
      && Prior(previous)[c.keepSecrets[n]].kind == SecretText
      && Prior(previous)[c.keepSecrets[n]].text == None
  {
    hide OriginsOf, EntriesAllowed, Prior, ValidBinding, Lists, BindingAllowed, DeploymentOf, Vars, NamesAssets;
    var origins := OriginsOf(m, previous);
    forall n | n in origins && BindingFrom(origins[n], n).kind == SecretText
      ensures n in SecretNames(c.bindings)
      ensures BindingFrom(origins[n], n).text.Some? || origins[n].Retained?
    {
      ListsEach(c.bindings, origins, n);
      AllowedSecret(BindingFrom(origins[n], n), origins[n], previous, resolve, allowDispatch);
      assert Stored(BindingFrom(origins[n], n)).kind == SecretText;
    }
    forall b | b in c.bindings
      ensures b.name in origins && b == Stored(BindingFrom(origins[b.name], b.name))
    {
      ListedOrigin(c, m, previous, resolve, allowDispatch, b);
    }
    RetainedFacts(m, previous);
  }

  lemma AllowedSecret(b: Binding, origin: Origin, previous: Option<Previous>, resolve: Option<Resolver>,
                      allowDispatch: bool)
    requires BindingAllowed(b, origin, previous, resolve, allowDispatch) && b.kind == SecretText
    ensures b.text.Some? || origin.Retained?
  {
  }

  lemma RetainedFacts(m: Metadata, previous: Option<Previous>)
    ensures forall n :: n in OriginsOf(m, previous) && OriginsOf(m, previous)[n].Retained? ==>
      && OriginsOf(m, previous)[n].from in Prior(previous)
      && Prior(previous)[OriginsOf(m, previous)[n].from] == OriginsOf(m, previous)[n].prior
  {
    hide Named, Source, Prior;
  }

  /** The variables are those of the stored plain-text and JSON bindings. */
  predicate VarsProject(bindings: seq<Binding>, vars: map<string, Var>) {
    && vars.Keys <= Elements(NamesOf(bindings))
    && forall b :: b in bindings ==>
         if VarOf(b).Some? then b.name in vars && vars[b.name] == VarOf(b).value else b.name !in vars
  }

  lemma VarsAreProjected(c: Candidate, m: Metadata, previous: Option<Previous>, resolve: Option<Resolver>)
    requires IsRevision(c, m, previous, resolve)
    ensures VarsProject(c.bindings, c.deployment.vars)
  {
    hide OriginsOf, VarOf, Stored, BindingFrom, Secrets, KeepSecrets, Entries, AssetsName;
    forall b | b in c.bindings
      ensures VarOf(b) == VarOf(BindingFrom(OriginsOf(m, previous)[b.name], b.name))
    {
      SameVar(BindingFrom(OriginsOf(m, previous)[b.name], b.name));
    }
  }

  lemma SameVar(b: Binding)
    ensures VarOf(Stored(b)) == VarOf(b)
  {
  }
}
