/** What holds of the revisioned tables over every run of concurrent clients. */
module DatabaseRuns {
  import opened Outcomes
  import opened DatabaseState

  function After(events: seq<Event>): Db {
    if events == [] then EMPTY_DB else Step(After(events[..|events| - 1]), events[|events| - 1]).0
  }

  lemma {:induction false} RunKeepsValid(events: seq<Event>)
    ensures Valid(After(events))
    decreases |events|
  {
    hide Valid, Step;
    if events == [] {
      EmptyIsValid();
    } else {
      RunKeepsValid(events[..|events| - 1]);
      StepKeepsValid(After(events[..|events| - 1]), events[|events| - 1]);
    }
  }

  lemma EmptyIsValid()
    ensures Valid(EMPTY_DB)
  {
  }

  // ----- compare and swap

  datatype Table = ManagedTable | SessionTable | NamespaceTable

  /** All that a row holds beside its revision, but for the owner and the name of a namespace. */
  datatype Content =
    | Managing(deployment: string, payload: string)
    | Uploading(org: string, namespace: string, expiresAt: int, payload: string)
    | Granting(grants: seq<string>)

  function RevisionAt(db: Db, t: Table, k: string): Option<int> {
    match t
    case ManagedTable => if k in db.managed then Some(db.managed[k].revision) else None
    case SessionTable => if k in db.sessions then Some(db.sessions[k].revision) else None
    case NamespaceTable => if k in db.namespaces then Some(db.namespaces[k].revision) else None
  }

  function ContentAt(db: Db, t: Table, k: string): Option<Content> {
    match t
    case ManagedTable => if k in db.managed then Some(Managing(db.managed[k].deployment, db.managed[k].payload))
      else None
    case SessionTable =>
      if k !in db.sessions then None
      else
        var row := db.sessions[k];
        Some(Uploading(row.org, row.namespace, row.expiresAt, row.payload))
    case NamespaceTable => if k in db.namespaces then Some(Granting(db.namespaces[k].grants)) else None
  }

  predicate Writes(e: Event, t: Table, k: string) {
    match e
    case Commit(w, _, _, _, _, _) => t == ManagedTable && w == k
    case SaveSession(s, _, _, _, _, _, _) => t == SessionTable && s == k
    case CreateNamespace(n, _, _, _) => t == NamespaceTable && n == k
    case SetGrants(n, _, _) => t == NamespaceTable && n == k
    case _ => false
  }

  /** The revision that the write expects to find, 0 for none. */
  function Expected(e: Event): int {
    match e
    case Commit(_, _, _, _, _, expected) => expected
    case SaveSession(_, _, _, _, _, _, expected) => expected
    case SetGrants(_, expected, _) => expected
    case _ => 0
  }

  function ContentOf(e: Event): Content {
    match e
    case Commit(_, _, deployment, _, payload, _) => Managing(deployment, payload)
    case SaveSession(_, org, namespace, _, expiresAt, payload, _) => Uploading(org, namespace, expiresAt, payload)
    case CreateNamespace(_, _, _, grants) => Granting(grants)
    case SetGrants(_, _, grants) => Granting(grants)
    case _ => Managing("", "")
  }

  predicate Wins(db: Db, e: Event, t: Table, k: string) {
    Writes(e, t, k) && Step(db, e).1 == Done
  }

  function Current(revision: Option<int>): int {
    match revision case Some(r) => r case None => 0
  }

  /** The event removes the row: with its Worker, as an expired session that is pruned, with its
      namespace, or as a namespace that is not in use. */
  predicate Removes(db: Db, e: Event, t: Table, k: string) {
    match e
    case RemoveWorker(w) => t == ManagedTable && w == k
    case Prune(now, ids) => t == SessionTable && k in ids && k in db.sessions && db.sessions[k].expiresAt <= now
    case DeleteNamespace(n) =>
      && n in db.namespaces && Unused(db, n)
      && ((t == NamespaceTable && n == k) || (t == SessionTable && k in db.sessions && db.sessions[k].namespace == n))
    case _ => false
  }

  predicate Unused(db: Db, n: string)
    requires n in db.namespaces
  {
    db.namespaces[n].grants == [] && forall w :: w in db.workers ==> db.workers[w].namespace != Some(n)
  }

  /** What the event does to the row: a write that succeeds found what it expected, and leaves
      the next revision with its content; an event that removes it leaves none; nothing else
      changes it. */
  predicate RowMoves(db: Db, e: Event, t: Table, k: string) {
    var next := Step(db, e).0;
    if Wins(db, e, t, k) then
      && Current(RevisionAt(db, t, k)) == Expected(e)
      && RevisionAt(next, t, k) == Some(Expected(e) + 1) && ContentAt(next, t, k) == Some(ContentOf(e))
    else if Removes(db, e, t, k) then RevisionAt(next, t, k) == None
    else RevisionAt(next, t, k) == RevisionAt(db, t, k) && ContentAt(next, t, k) == ContentAt(db, t, k)
  }

  lemma ManagedMoves(db: Db, e: Event, k: string)
    requires RevisionsPositive(db) && forall w :: w in db.managed ==> w in db.workers
    ensures RowMoves(db, e, ManagedTable, k)
  {
    hide SaveState, PruneState, CreateState, GrantState, DeleteState, AdvanceState, AcknowledgeState, AddWorkerState,
         AddArtifactState;
  }

  lemma SaveSaves(db: Db, e: Event, k: string)
    requires RevisionsPositive(db) && e.SaveSession?
    ensures var (next, outcome) :=
        SaveState(db, e.session, e.org, e.namespace, e.revision, e.expiresAt, e.payload, e.expected);
      if e.session == k && outcome == Done then
        && Current(RevisionAt(db, SessionTable, k)) == e.expected
        && RevisionAt(next, SessionTable, k) == Some(e.expected + 1)
        && ContentAt(next, SessionTable, k) == Some(ContentOf(e))
      else
        && RevisionAt(next, SessionTable, k) == RevisionAt(db, SessionTable, k)
        && ContentAt(next, SessionTable, k) == ContentAt(db, SessionTable, k)
  {
    hide InOrg;
  }

  lemma SaveMoves(db: Db, e: Event, k: string)
    requires RevisionsPositive(db) && e.SaveSession?
    ensures RowMoves(db, e, SessionTable, k)
  {
    hide SaveState, RevisionAt, ContentAt, ContentOf, Current, RevisionsPositive;
    SaveSaves(db, e, k);
  }

  lemma UnusedExactly(db: Db, n: string)
    requires n in db.namespaces
    ensures Unused(db, n) <==> db.namespaces[n].grants == [] && !Occupied(db, n)
  {
  }

  lemma SessionsGo(db: Db, e: Event, k: string)
    requires !e.SaveSession?
    ensures RowMoves(db, e, SessionTable, k)
  {
    hide Occupied, Unused, InOrg, CommitState, SaveState, CreateState, GrantState, AdvanceState, AcknowledgeState,
         AddWorkerState, AddArtifactState, RemoveWorkerState;
    if e.DeleteNamespace? && e.namespace in db.namespaces { UnusedExactly(db, e.namespace); }
  }

  lemma SessionMoves(db: Db, e: Event, k: string)
    requires RevisionsPositive(db)
    ensures RowMoves(db, e, SessionTable, k)
  {
    hide RowMoves;
    if e.SaveSession? {
      SaveMoves(db, e, k);
    } else {
      SessionsGo(db, e, k);
    }
  }

  /** No policy stands in the way of a namespace's next revision. */
  predicate Unobstructed(db: Db) {
    forall n :: n in db.namespaces ==>
      (n, db.namespaces[n].revision + 1) !in db.policies && db.namespaces[n].revision >= 1
  }

  lemma CreateMoves(db: Db, e: Event, k: string)
    requires e.CreateNamespace?
    ensures RowMoves(db, e, NamespaceTable, k)
  {
    hide NameTaken, CommitState, SaveState, PruneState, GrantState, DeleteState, AdvanceState, AcknowledgeState,
         AddWorkerState, AddArtifactState, RemoveWorkerState;
  }

  lemma GrantMoves(db: Db, e: Event, k: string)
    requires Unobstructed(db) && e.SetGrants?
    ensures RowMoves(db, e, NamespaceTable, k)
  {
    hide CommitState, SaveState, PruneState, CreateState, DeleteState, AdvanceState, AcknowledgeState,
         AddWorkerState, AddArtifactState, RemoveWorkerState;
  }

  lemma NamespacesGo(db: Db, e: Event, k: string)
    requires !e.CreateNamespace? && !e.SetGrants?
    ensures RowMoves(db, e, NamespaceTable, k)
  {
    hide Occupied, Unused, CommitState, SaveState, PruneState, CreateState, GrantState, AdvanceState, AcknowledgeState,
         AddWorkerState, AddArtifactState, RemoveWorkerState;
    if e.DeleteNamespace? && e.namespace in db.namespaces { UnusedExactly(db, e.namespace); }
  }

  lemma NamespaceMoves(db: Db, e: Event, k: string)
    requires Unobstructed(db)
    ensures RowMoves(db, e, NamespaceTable, k)
  {
    hide RowMoves, Unobstructed;
    if e.CreateNamespace? {
      CreateMoves(db, e, k);
    } else if e.SetGrants? {
      GrantMoves(db, e, k);
    } else {
      NamespacesGo(db, e, k);
    }
  }

  lemma StepRevision(db: Db, e: Event, t: Table, k: string)
    requires Valid(db)
    ensures RowMoves(db, e, t, k)
  {
    hide RowMoves, PoliciesComplete, PublicationsBehind, NamespacesHold, NamesUnique, Unobstructed;
    HistoriesSucceed(db);
    match t
    case ManagedTable => ManagedMoves(db, e, k);
    case SessionTable => SessionMoves(db, e, k);
    case NamespaceTable => NamespaceMoves(db, e, k);
  }

  lemma HistoriesSucceed(db: Db)
    requires Valid(db)
    ensures Unobstructed(db)
  {
    hide RevisionsPositive, PublicationsBehind, ReferencesHold, NamesUnique;
    forall n | n in db.namespaces ensures db.namespaces[n].revision >= 1 {
      assert HistoryOf(db.namespaces[n], n, db.policies);
    }
  }

  /** The writes that made the row what it is, since it was last absent. */
  function Winners(events: seq<Event>, t: Table, k: string): seq<Event> {
    if events == [] then []
    else
      var init, last := events[..|events| - 1], events[|events| - 1];
      if Wins(After(init), last, t, k) then Winners(init, t, k) + [last]
      else if RevisionAt(After(events), t, k).None? then []
      else Winners(init, t, k)
  }

  /** Over every run the accepted revisions of a row are 1, 2, 3 and so on, each with one winner,
      and the row holds what the last of them wrote. */
  lemma {:induction false} RevisionsCountUp(events: seq<Event>, t: Table, k: string)
    ensures var winners := Winners(events, t, k);
      && Current(RevisionAt(After(events), t, k)) == |winners|
      && (RevisionAt(After(events), t, k).None? <==> winners == [])
      && (forall i :: 0 <= i < |winners| ==> Writes(winners[i], t, k) && Expected(winners[i]) == i)
      && (winners != [] ==> ContentAt(After(events), t, k) == Some(ContentOf(winners[|winners| - 1])))
    decreases |events|
  {
    hide Valid, Step, Writes, Expected, ContentOf, RevisionAt, ContentAt;
    if events == [] {
      NothingStored(t, k);
    } else {
      var init, last := events[..|events| - 1], events[|events| - 1];
      RevisionsCountUp(init, t, k);
      RunKeepsValid(init);
      StepRevision(After(init), last, t, k);
    }
  }

  lemma NothingStored(t: Table, k: string)
    ensures RevisionAt(EMPTY_DB, t, k) == None
  {
  }

  /** A write wins exactly when it expects the current revision, asks for the next one, and what
      it refers to is there. */
  lemma WinsExactlyWhen(db: Db, e: Event, k: string)
    requires Valid(db)
    ensures e.Commit? && e.worker == k ==> (Wins(db, e, ManagedTable, k) <==>
      && e.expected == Current(RevisionAt(db, ManagedTable, k)) && e.revision == e.expected + 1
      && k in db.workers && db.workers[k].org == e.org
      && e.deployment in db.artifacts && db.artifacts[e.deployment] == k)
    ensures e.SaveSession? && e.session == k ==> (Wins(db, e, SessionTable, k) <==>
      && e.expected == Current(RevisionAt(db, SessionTable, k)) && e.revision == e.expected + 1
      && InOrg(db.namespaces, e.namespace, e.org)
      && (k in db.sessions ==> db.sessions[k].namespace == e.namespace))
    ensures e.SetGrants? && e.namespace == k ==> (Wins(db, e, NamespaceTable, k) <==>
      k in db.namespaces && e.expected == Current(RevisionAt(db, NamespaceTable, k)))
  {
    hide PoliciesComplete, PublicationsBehind, NamesUnique, NameTaken, Occupied;
    HistoriesSucceed(db);
  }

  // ----- policies and publications

  function AfterFrom(db: Db, events: seq<Event>): Db {
    if events == [] then db else Step(AfterFrom(db, events[..|events| - 1]), events[|events| - 1]).0
  }

  /** The namespace is there, no earlier than before, and its policy of the revision is the same. */
  predicate PolicyKept(db: Db, next: Db, n: string, r: int) {
    && n in db.namespaces && n in next.namespaces && next.namespaces[n].revision >= db.namespaces[n].revision
    && (n, r) in db.policies && (n, r) in next.policies && next.policies[(n, r)] == db.policies[(n, r)]
  }

  lemma GrantKeepsPolicy(db: Db, m: string, expected: int, grants: seq<string>, n: string, r: int)
    requires n in db.namespaces && (n, r) in db.policies
    ensures PolicyKept(db, GrantState(db, m, expected, grants).0, n, r)
  {
  }

  lemma StepKeepsPolicy(db: Db, e: Event, n: string, r: int)
    requires Valid(db) && n in db.namespaces && 1 <= r <= db.namespaces[n].revision && e != DeleteNamespace(n)
    ensures PolicyKept(db, Step(db, e).0, n, r)
  {
    hide Valid, NameTaken, Occupied, CommitState, SaveState, PruneState, GrantState, AdvanceState, AcknowledgeState,
         AddWorkerState, AddArtifactState, RemoveWorkerState;
    PolicyThere(db, n, r);
    if e.SetGrants? { GrantKeepsPolicy(db, e.namespace, e.expected, e.grants, n, r); }
  }

  lemma PolicyThere(db: Db, n: string, r: int)
    requires Valid(db) && n in db.namespaces && 1 <= r <= db.namespaces[n].revision
    ensures (n, r) in db.policies
  {
    hide RevisionsPositive, PublicationsBehind, ReferencesHold, NamesUnique;
    assert HistoryOf(db.namespaces[n], n, db.policies);
  }

  /** The policies of a namespace that is not deleted are never rewritten, by no run of others. */
  lemma {:induction false} PoliciesAreKept(db: Db, events: seq<Event>, n: string, r: int)
    requires Valid(db) && n in db.namespaces && 1 <= r <= db.namespaces[n].revision
    requires DeleteNamespace(n) !in events
    ensures (n, r) in db.policies
    ensures var later := AfterFrom(db, events);
      && Valid(later) && n in later.namespaces && later.namespaces[n].revision >= db.namespaces[n].revision
      && (n, r) in later.policies && later.policies[(n, r)] == db.policies[(n, r)]
    decreases |events|
  {
    hide Valid, Step;
    if events == [] {
      StepKeepsPolicy(db, Prune(0, {}), n, r);
    } else {
      var init, last := events[..|events| - 1], events[|events| - 1];
      assert last in events;
      PoliciesAreKept(db, init, n, r);
      StepKeepsPolicy(AfterFrom(db, init), last, n, r);
      StepKeepsValid(AfterFrom(db, init), last);
    }
  }

  lemma StepKeepsPublication(db: Db, e: Event, w: string)
    requires w in db.publications && e != RemoveWorker(w)
    ensures var next := Step(db, e).0;
      && w in next.publications
      && next.publications[w].generation >= db.publications[w].generation
      && next.publications[w].published >= db.publications[w].published
  {
    hide CommitState, SaveState, PruneState, CreateState, GrantState, DeleteState, AddWorkerState, AddArtifactState;
  }

  /** What was published stays published: neither number of a Worker that is not removed goes
      back, and what is published is never ahead of what was advanced to. */
  lemma {:induction false} PublicationsMoveForward(db: Db, events: seq<Event>, w: string)
    requires Valid(db) && w in db.publications && RemoveWorker(w) !in events
    ensures var later := AfterFrom(db, events);
      && Valid(later) && w in later.publications
      && db.publications[w].generation <= later.publications[w].generation
      && db.publications[w].published <= later.publications[w].published <= later.publications[w].generation
    decreases |events|
  {
    hide Valid, Step;
    if events == [] {
      PublishedIsBehind(db, w);
    } else {
      var init, last := events[..|events| - 1], events[|events| - 1];
      assert last in events;
      PublicationsMoveForward(db, init, w);
      StepKeepsPublication(AfterFrom(db, init), last, w);
      StepKeepsValid(AfterFrom(db, init), last);
      PublishedIsBehind(Step(AfterFrom(db, init), last).0, w);
    }
  }

  lemma PublishedIsBehind(db: Db, w: string)
    requires Valid(db) && w in db.publications
    ensures db.publications[w].published <= db.publications[w].generation
  {
  }
}
