/** What each statement answers, what becomes of the rows it does not guard by a revision, and what a
    publication has come to over a run. */
module DatabaseAnswers {
  import opened DatabaseState
  import opened DatabaseRuns

  // ----- answers

  predicate InOrganization(db: Db, namespace: string, org: string) {
    namespace in db.namespaces && db.namespaces[namespace].org == org
  }

  /** What each statement answers, by what it finds. */
  predicate Answers(db: Db, e: Event, answer: Outcome) {
    match e
    case AddWorker(w, org, within) =>
      answer == if w in db.workers then Exists
                else if within.Some? && !InOrganization(db, within.value, org) then Violation
                else Done
    case AddArtifact(d, w) =>
      answer == if d in db.artifacts then Exists else if w in db.workers then Done else Violation
    case RemoveWorker(w) => answer == if w in db.workers then Done else NotFound
    case Commit(w, org, d, revision, _, expected) =>
      answer == if revision == expected + 1 && expected == Current(RevisionAt(db, ManagedTable, w))
                   && w in db.workers && db.workers[w].org == org && d in db.artifacts && db.artifacts[d] == w
                then Done else Conflict
    case SaveSession(id, org, namespace, revision, _, _, expected) =>
      answer == if revision != expected + 1 || expected != Current(RevisionAt(db, SessionTable, id)) then Conflict
                else if id in db.sessions then
                  if db.sessions[id].org == org && db.sessions[id].namespace == namespace then Done else Conflict
                else if InOrganization(db, namespace, org) then Done
                else Violation
    case Prune(_, _) => answer == Done
    case CreateNamespace(n, org, name, _) =>
      answer == if n in db.namespaces
                   || exists m :: m in db.namespaces && db.namespaces[m].org == org && db.namespaces[m].name == name
                then Exists else Done
    case SetGrants(n, expected, _) =>
      answer == if n !in db.namespaces then NotFound
                else if db.namespaces[n].revision == expected then Done else Conflict
    case DeleteNamespace(n) =>
      answer == if n !in db.namespaces then NotFound else if Unused(db, n) then Done else InUse
    case Advance(w, _) => answer == if w in db.workers then Done else Violation
    case Acknowledge(w, generation) =>
      answer == if w in db.publications && generation <= db.publications[w].generation then Done else Conflict
  }

  lemma ManagementAnswers(db: Db, e: Event)
    requires Valid(db) && (e.Commit? || e.SaveSession? || e.Prune? || e.Advance? || e.Acknowledge?)
    ensures Answers(db, e, Step(db, e).1)
  {
    hide PoliciesComplete, PublicationsBehind, ReferencesHold, NamesUnique;
  }

  lemma PlatformAnswers(db: Db, e: Event)
    requires Valid(db) && (e.CreateNamespace? || e.SetGrants? || e.DeleteNamespace?)
    ensures Answers(db, e, Step(db, e).1)
  {
    hide RevisionsPositive, PublicationsBehind, ReferencesHold, NamesUnique, PoliciesComplete;
    HistoriesSucceed(db);
    NoStrayPolicies(db);
    if e.DeleteNamespace? && e.namespace in db.namespaces { UnusedExactly(db, e.namespace); }
  }

  lemma NoStrayPolicies(db: Db)
    requires Valid(db)
    ensures forall k :: k in db.policies ==> k.0 in db.namespaces
  {
    hide RevisionsPositive, PublicationsBehind, ReferencesHold, NamesUnique;
  }

  /** Every statement answers for its own reason. */
  lemma AnswersExactly(db: Db, e: Event, answer: Outcome)
    requires Valid(db)
    ensures Step(db, e).1 == answer <==> Answers(db, e, answer)
  {
    hide Valid, Step, Occupied, NameTaken;
    AnswersOnce(db, e, answer);
    if e.Commit? || e.SaveSession? || e.Prune? || e.Advance? || e.Acknowledge? {
      ManagementAnswers(db, e);
    } else if e.CreateNamespace? || e.SetGrants? || e.DeleteNamespace? {
      PlatformAnswers(db, e);
    } else {
      WorkerAnswers(db, e);
    }
  }

  lemma WorkerAnswers(db: Db, e: Event)
    requires e.AddWorker? || e.AddArtifact? || e.RemoveWorker?
    ensures Answers(db, e, Step(db, e).1)
  {
  }

  lemma AnswersOnce(db: Db, e: Event, answer: Outcome)
    ensures Answers(db, e, answer) ==> forall other :: Answers(db, e, other) ==> other == answer
  {
  }

  // ----- what the rows hold beside their revisions

  /** Workers are those that were added and not removed. */
  predicate WorkersMove(db: Db, e: Event, next: Db) {
    next.workers == match e
      case AddWorker(w, org, within) =>
        if Answers(db, e, Done) then db.workers[w := Worker(org, within)] else db.workers
      case RemoveWorker(w) => db.workers - {w}
      case _ => db.workers
  }

  /** Artifacts are those that were added to a Worker that is still there. */
  ghost predicate ArtifactsMove(db: Db, e: Event, next: Db) {
    forall d, w :: d in next.artifacts && next.artifacts[d] == w <==>
      || (d in db.artifacts && db.artifacts[d] == w && e != RemoveWorker(w))
      || (e == AddArtifact(d, w) && Answers(db, e, Done))
  }

  /** A namespace keeps the organization and the name that it was created with. */
  predicate NamesMove(db: Db, e: Event, next: Db) {
    forall n :: n in next.namespaces ==>
      var row := next.namespaces[n];
      if n in db.namespaces then row.org == db.namespaces[n].org && row.name == db.namespaces[n].name
      else e == CreateNamespace(n, row.org, row.name, row.grants)
  }

  lemma WorkersMoved(db: Db, e: Event)
    ensures WorkersMove(db, e, Step(db, e).0)
  {
    hide Occupied, NameTaken, CommitState, SaveState, PruneState, AdvanceState, AcknowledgeState, CreateState,
         GrantState, DeleteState, AddArtifactState;
  }

  lemma ArtifactAdded(db: Db, e: Event)
    requires e.AddArtifact?
    ensures ArtifactsMove(db, e, AddArtifactState(db, e.deployment, e.worker).0)
  {
  }

  lemma ArtifactsRemoved(db: Db, e: Event)
    requires e.RemoveWorker? && forall d :: d in db.artifacts ==> db.artifacts[d] in db.workers
    ensures ArtifactsMove(db, e, RemoveWorkerState(db, e.worker).0)
  {
  }

  lemma ArtifactsMoved(db: Db, e: Event)
    requires forall d :: d in db.artifacts ==> db.artifacts[d] in db.workers
    ensures ArtifactsMove(db, e, Step(db, e).0)
  {
    hide CommitState, SaveState, PruneState, AdvanceState, AcknowledgeState, CreateState, GrantState, DeleteState,
         AddWorkerState, AddArtifactState, RemoveWorkerState, Answers;
    if e.AddArtifact? {
      ArtifactAdded(db, e);
    } else if e.RemoveWorker? {
      ArtifactsRemoved(db, e);
    }
  }

  lemma NamesCreated(db: Db, e: Event)
    requires e.CreateNamespace?
    ensures NamesMove(db, e, CreateState(db, e.namespace, e.org, e.name, e.grants).0)
  {
    hide NameTaken;
  }

  lemma NamesGranted(db: Db, e: Event)
    requires e.SetGrants?
    ensures NamesMove(db, e, GrantState(db, e.namespace, e.expected, e.grants).0)
  {
  }

  lemma NamesWritten(db: Db, e: Event)
    requires e.CreateNamespace? || e.SetGrants?
    ensures NamesMove(db, e, Step(db, e).0)
  {
    hide NamesMove, CreateState, GrantState;
    if e.CreateNamespace? { NamesCreated(db, e); } else { NamesGranted(db, e); }
  }

  lemma NamesStay(db: Db, e: Event)
    requires !e.CreateNamespace? && !e.SetGrants?
    ensures NamesMove(db, e, Step(db, e).0)
  {
    hide Occupied, CommitState, SaveState, PruneState, AdvanceState, AcknowledgeState, AddWorkerState,
         AddArtifactState, RemoveWorkerState, CreateState, GrantState;
  }

  lemma NamesMoved(db: Db, e: Event)
    ensures NamesMove(db, e, Step(db, e).0)
  {
    hide NamesMove, Step;
    if e.CreateNamespace? || e.SetGrants? { NamesWritten(db, e); } else { NamesStay(db, e); }
  }

  lemma SurroundingsMove(db: Db, e: Event)
    requires Valid(db)
    ensures WorkersMove(db, e, Step(db, e).0) && ArtifactsMove(db, e, Step(db, e).0)
    ensures NamesMove(db, e, Step(db, e).0)
  {
    hide PoliciesComplete, RevisionsPositive, PublicationsBehind, NamespacesHold, NamesUnique, Step;
    hide WorkersMove, ArtifactsMove, NamesMove;
    WorkersMoved(db, e);
    ArtifactsMoved(db, e);
    NamesMoved(db, e);
  }

  // ----- publications over a run

  /** The statements that made the publication what it is, since it was last absent. */
  function Published(events: seq<Event>, w: string): seq<Event> {
    if events == [] then []
    else
      var init, last := events[..|events| - 1], events[|events| - 1];
      if (last.Advance? || last.Acknowledge?) && last.worker == w && Answers(After(init), last, Done)
      then Published(init, w) + [last]
      else if last == RemoveWorker(w) then []
      else Published(init, w)
  }

  function Advances(events: seq<Event>): nat {
    if events == [] then 0 else Advances(events[..|events| - 1]) + if events[|events| - 1].Advance? then 1 else 0
  }

  /** The highest generation acknowledged. */
  function Highest(events: seq<Event>): nat {
    if events == [] then 0
    else
      var last, before := events[|events| - 1], Highest(events[..|events| - 1]);
      if last.Acknowledge? && last.generation > before then last.generation else before
  }

  /** The traffic of the latest advance. */
  function Traffic(events: seq<Event>): string {
    if events == [] then ""
    else if events[|events| - 1].Advance? then events[|events| - 1].traffic
    else Traffic(events[..|events| - 1])
  }

  /** What the event makes of the Worker's publication. */
  predicate Publishes(db: Db, e: Event, w: string, next: map<string, Publication>) {
    if e.Advance? && e.worker == w && Answers(db, e, Done) then
      w in next && next[w] == if w in db.publications
                              then Publication(db.publications[w].generation + 1,
                                db.publications[w].published, e.traffic)
                              else Publication(1, 0, e.traffic)
    else if e.Acknowledge? && e.worker == w && Answers(db, e, Done) then
      w in db.publications && w in next && next[w] == db.publications[w].(
        published := if e.generation > db.publications[w].published then e.generation else db.publications[w].published)
    else if e == RemoveWorker(w) then w !in next
    else (w in next <==> w in db.publications) && (w in next ==> next[w] == db.publications[w])
  }

  lemma PublicationAdvances(db: Db, e: Event, w: string)
    requires e.Advance?
    ensures Publishes(db, e, w, AdvanceState(db, e.worker, e.traffic).0.publications)
  {
  }

  lemma PublicationAcknowledged(db: Db, e: Event, w: string)
    requires e.Acknowledge?
    ensures Publishes(db, e, w, AcknowledgeState(db, e.worker, e.generation).0.publications)
  {
  }

  lemma PublicationWritten(db: Db, e: Event, w: string)
    requires Valid(db) && (e.Advance? || e.Acknowledge?)
    ensures Publishes(db, e, w, Step(db, e).0.publications)
  {
    hide Publishes, Valid, AdvanceState, AcknowledgeState;
    if e.Advance? { PublicationAdvances(db, e, w); } else { PublicationAcknowledged(db, e, w); }
  }

  lemma PublicationStays(db: Db, e: Event, w: string)
    requires Valid(db) && !e.Advance? && !e.Acknowledge?
    ensures Publishes(db, e, w, Step(db, e).0.publications)
  {
    hide PoliciesComplete, RevisionsPositive, NamespacesHold, NamesUnique, Occupied, NameTaken, InOrg, Answers;
    hide CommitState, SaveState, PruneState, CreateState, GrantState, DeleteState, AddWorkerState, AddArtifactState,
         AdvanceState, AcknowledgeState;
  }

  lemma PublicationMoves(db: Db, e: Event, w: string)
    requires Valid(db)
    ensures Publishes(db, e, w, Step(db, e).0.publications)
  {
    hide Publishes, Valid, Step;
    if e.Advance? || e.Acknowledge? { PublicationWritten(db, e, w); } else { PublicationStays(db, e, w); }
  }

  /** Over every run a publication's generation is the number of its advances since it was last
      absent, what is published is the highest generation acknowledged, and the traffic is that of
      the latest advance. */
  lemma {:induction false} PublicationIsItsHistory(events: seq<Event>, w: string)
    ensures var rows, moves := After(events).publications, Published(events, w);
      && (w in rows <==> moves != [])
      && (w in rows ==> rows[w] == Publication(Advances(moves), Highest(moves), Traffic(moves)))
    decreases |events|
  {
    hide Valid, Step, Answers;
    if events != [] {
      var init, last := events[..|events| - 1], events[|events| - 1];
      PublicationIsItsHistory(init, w);
      RunKeepsValid(init);
      PublicationMoves(After(init), last, w);
      var moves := Published(init, w);
      assert (moves + [last])[..|moves|] == moves;
    }
  }
}
