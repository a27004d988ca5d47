/** The revisioned tables as one value, and the statements of their clients as atomic steps. */
module DatabaseState {
  import opened Outcomes

  datatype Managed = Managed(revision: int, deployment: string, payload: string)

  datatype Session = Session(org: string, namespace: string, revision: int, expiresAt: int, payload: string)

  datatype Namespace = Namespace(org: string, name: string, revision: int, grants: seq<string>)

  datatype Publication = Publication(generation: int, published: int, traffic: string)

  /** Of a Worker: its organization, and the namespace it runs in, if any. */
  datatype Worker = Worker(org: string, namespace: Option<string>)

  /** `artifacts` holds the Worker of each retained deployment, `policies` the grants of each
      namespace by revision. */
  datatype Db = Db(
    workers: map<string, Worker>, artifacts: map<string, string>, managed: map<string, Managed>,
    namespaces: map<string, Namespace>, policies: map<(string, int), seq<string>>,
    sessions: map<string, Session>, publications: map<string, Publication>)

  const EMPTY_DB := Db(map[], map[], map[], map[], map[], map[], map[])

  datatype Outcome = Done | Conflict | NotFound | Exists | InUse | Violation

  datatype Event =
    | AddWorker(worker: string, org: string, within: Option<string>)
    | AddArtifact(deployment: string, worker: string)
    | RemoveWorker(worker: string)
    | Commit(worker: string, org: string, deployment: string, revision: int, payload: string, expected: int)
    | SaveSession(session: string, org: string, namespace: string, revision: int, expiresAt: int, payload: string,
                  expected: int)
    | Prune(now: int, ids: set<string>)
    | CreateNamespace(namespace: string, org: string, name: string, grants: seq<string>)
    | SetGrants(namespace: string, expected: int, grants: seq<string>)
    | DeleteNamespace(namespace: string)
    | Advance(worker: string, traffic: string)
    | Acknowledge(worker: string, generation: nat)

  // ----- the management state of a Worker

  function CommitState(db: Db, w: string, org: string, d: string, revision: int, payload: string,
                       expected: int): (r: (Db, Outcome))
    ensures r.0 == db.(managed := r.0.managed)
  {
    if expected < 0 || revision != expected + 1 then (db, Conflict)
    else if !(w in db.workers && db.workers[w].org == org && d in db.artifacts && db.artifacts[d] == w)
      then (db, Conflict)
    else if w !in db.managed && expected != 0 then (db, Conflict)
    else if w in db.managed && db.managed[w].revision != expected then (db, Conflict)
    else (db.(managed := db.managed[w := Managed(revision, d, payload)]), Done)
  }

  // ----- asset upload sessions

  predicate InOrg(namespaces: map<string, Namespace>, namespace: string, org: string) {
    namespace in namespaces && namespaces[namespace].org == org
  }

  function SaveState(db: Db, id: string, org: string, ns: string, revision: int, expiresAt: int, payload: string,
                     expected: int)
    : (r: (Db, Outcome))
    ensures r.0 == db.(sessions := r.0.sessions)
  {
    if expected < 0 || revision != expected + 1 then (db, Conflict)
    else if id !in db.sessions then
      if expected != 0 then (db, Conflict)
      else if !InOrg(db.namespaces, ns, org) then (db, Violation)
      else (db.(sessions := db.sessions[id := Session(org, ns, revision, expiresAt, payload)]), Done)
    else
      var row := db.sessions[id];
      if row.revision != expected || row.org != org || row.namespace != ns then (db, Conflict)
      else (db.(sessions := db.sessions[id := Session(org, ns, revision, expiresAt, payload)]), Done)
  }

  /** Only expired sessions are removed; those locked by others are skipped. */
  function PruneState(db: Db, now: int, ids: set<string>): (r: (Db, Outcome))
    ensures r.0 == db.(sessions := r.0.sessions)
  {
    var left := map s | s in db.sessions && !(s in ids && db.sessions[s].expiresAt <= now) :: db.sessions[s];
    (db.(sessions := left), Done)
  }

  lemma PruneRemoves(db: Db, now: int, ids: set<string>)
    requires forall s :: s in ids && s in db.sessions ==> db.sessions[s].expiresAt <= now
    ensures PruneState(db, now, ids).0 == db.(sessions := db.sessions - ids)
  {
    assert PruneState(db, now, ids).0.sessions == db.sessions - ids;
  }

  // ----- dispatch namespaces and their policies

  predicate NameTaken(db: Db, org: string, name: string) {
    exists n :: n in db.namespaces && db.namespaces[n].org == org && db.namespaces[n].name == name
  }

  function CreateState(db: Db, n: string, org: string, name: string, grants: seq<string>): (r: (Db, Outcome))
    ensures r.0 == db.(namespaces := r.0.namespaces, policies := r.0.policies)
  {
    if n in db.namespaces || NameTaken(db, org, name) then (db, Exists)
    else if (n, 1) in db.policies then (db, Violation)
    else
      var row := Namespace(org, name, 1, grants);
      (db.(namespaces := db.namespaces[n := row], policies := db.policies[(n, 1) := grants]), Done)
  }

  function GrantState(db: Db, n: string, expected: int, grants: seq<string>): (r: (Db, Outcome))
    ensures r.0 == db.(namespaces := r.0.namespaces, policies := r.0.policies)
  {
    if n !in db.namespaces then (db, NotFound)
    else if db.namespaces[n].revision != expected then (db, Conflict)
    else if (n, expected + 1) in db.policies then (db, Violation)
    else
      var row := db.namespaces[n].(revision := expected + 1, grants := grants);
      (db.(namespaces := db.namespaces[n := row], policies := db.policies[(n, expected + 1) := grants]), Done)
  }

  predicate Occupied(db: Db, n: string) {
    exists w :: w in db.workers && db.workers[w].namespace == Some(n)
  }

  /** The policies and the sessions of the namespace go with it. */
  function DeleteState(db: Db, n: string): (r: (Db, Outcome))
    ensures r.0 == db.(namespaces := r.0.namespaces, policies := r.0.policies, sessions := r.0.sessions)
  {
    if n !in db.namespaces then (db, NotFound)
    else if db.namespaces[n].grants != [] || Occupied(db, n) then (db, InUse)
    else (db.(namespaces := db.namespaces - {n},
              policies := map k | k in db.policies && k.0 != n :: db.policies[k],
              sessions := map s | s in db.sessions && db.sessions[s].namespace != n :: db.sessions[s]), Done)
  }

  // ----- publications

  function AdvanceState(db: Db, w: string, traffic: string): (r: (Db, Outcome))
    ensures r.0 == db.(publications := r.0.publications)
  {
    if w !in db.workers then (db, Violation)
    else
      var row := if w in db.publications
        then db.publications[w].(generation := db.publications[w].generation + 1, traffic := traffic)
                 else Publication(1, 0, traffic);
      (db.(publications := db.publications[w := row]), Done)
  }

  function AcknowledgeState(db: Db, w: string, generation: nat): (r: (Db, Outcome))
    ensures r.0 == db.(publications := r.0.publications)
  {
    if w !in db.publications || db.publications[w].generation < generation then (db, Conflict)
    else
      var row := db.publications[w];
      var published := if row.published > generation then row.published else generation;
      (db.(publications := db.publications[w := row.(published := published)]), Done)
  }

  // ----- the surroundings

  function AddWorkerState(db: Db, w: string, org: string, within: Option<string>): (r: (Db, Outcome))
    ensures r.0 == db.(workers := r.0.workers)
  {
    if w in db.workers then (db, Exists)
    else if within.Some? && !InOrg(db.namespaces, within.value, org) then (db, Violation)
    else (db.(workers := db.workers[w := Worker(org, within)]), Done)
  }

  function AddArtifactState(db: Db, d: string, w: string): (r: (Db, Outcome))
    ensures r.0 == db.(artifacts := r.0.artifacts)
  {
    if d in db.artifacts then (db, Exists)
    else if w !in db.workers then (db, Violation)
    else (db.(artifacts := db.artifacts[d := w]), Done)
  }

  /** A Worker takes its artifacts, its management state and its publication with it. */
  function RemoveWorkerState(db: Db, w: string): (r: (Db, Outcome))
    ensures r.0 == db.(workers := r.0.workers, managed := r.0.managed, publications := r.0.publications,
                       artifacts := r.0.artifacts)
  {
    if w !in db.workers then (db, NotFound)
    else (db.(workers := db.workers - {w}, managed := db.managed - {w}, publications := db.publications - {w},
              artifacts := map d | d in db.artifacts && db.artifacts[d] != w :: db.artifacts[d]), Done)
  }

  function Step(db: Db, e: Event): (Db, Outcome) {
    match e
    case AddWorker(w, org, within) => AddWorkerState(db, w, org, within)
    case AddArtifact(d, w) => AddArtifactState(db, d, w)
    case RemoveWorker(w) => RemoveWorkerState(db, w)
    case Commit(w, org, d, revision, payload, expected) => CommitState(db, w, org, d, revision, payload, expected)
    case SaveSession(id, org, ns, revision, expiresAt, payload, expected) =>
      SaveState(db, id, org, ns, revision, expiresAt, payload, expected)
    case Prune(now, ids) => PruneState(db, now, ids)
    case CreateNamespace(n, org, name, grants) => CreateState(db, n, org, name, grants)
    case SetGrants(n, expected, grants) => GrantState(db, n, expected, grants)
    case DeleteNamespace(n) => DeleteState(db, n)
    case Advance(w, traffic) => AdvanceState(db, w, traffic)
    case Acknowledge(w, generation) => AcknowledgeState(db, w, generation)
  }

  // ----- what every step keeps

  /** A namespace has a policy for each revision up to its own, the last one its grants. */
  predicate History(namespaces: map<string, Namespace>, policies: map<(string, int), seq<string>>) {
    && (forall k :: k in policies ==> k.0 in namespaces && 1 <= k.1 <= namespaces[k.0].revision)
    && (forall n :: n in namespaces ==> HistoryOf(namespaces[n], n, policies))
  }

  predicate HistoryOf(row: Namespace, n: string, policies: map<(string, int), seq<string>>) {
    && row.revision >= 1
    && (forall r :: 1 <= r <= row.revision ==> (n, r) in policies)
    && policies[(n, row.revision)] == row.grants
  }

  predicate PoliciesComplete(db: Db) {
    History(db.namespaces, db.policies)
  }

  predicate RevisionsPositive(db: Db) {
    && (forall w :: w in db.managed ==> db.managed[w].revision >= 1)
    && (forall s :: s in db.sessions ==> db.sessions[s].revision >= 1)
  }

  predicate PublicationsBehind(db: Db) {
    forall w :: w in db.publications ==> 0 <= db.publications[w].published <= db.publications[w].generation
  }

  /** A Worker's management state points at an artifact of that Worker. */
  predicate WorkersHold(db: Db) {
    && (forall w :: w in db.managed ==>
          w in db.workers && db.managed[w].deployment in db.artifacts && db.artifacts[db.managed[w].deployment] == w)
    && (forall d :: d in db.artifacts ==> db.artifacts[d] in db.workers)
    && (forall w :: w in db.publications ==> w in db.workers)
  }

  /** Sessions and Workers are of the organization of their namespace. */
  predicate NamespacesHold(namespaces: map<string, Namespace>, sessions: map<string, Session>,
                           workers: map<string, Worker>) {
    && (forall s :: s in sessions ==> InOrg(namespaces, sessions[s].namespace, sessions[s].org))
    && (forall w :: w in workers && workers[w].namespace.Some? ==>
         InOrg(namespaces, workers[w].namespace.value, workers[w].org))
  }

  predicate ReferencesHold(db: Db) {
    WorkersHold(db) && NamespacesHold(db.namespaces, db.sessions, db.workers)
  }

  predicate NamesUnique(db: Db) {
    forall m, n :: m in db.namespaces && n in db.namespaces && m != n ==>
      db.namespaces[m].org != db.namespaces[n].org || db.namespaces[m].name != db.namespaces[n].name
  }

  predicate Valid(db: Db) {
    PoliciesComplete(db) && RevisionsPositive(db) && PublicationsBehind(db) && ReferencesHold(db) && NamesUnique(db)
  }

  lemma PolicyAdded(namespaces: map<string, Namespace>, policies: map<(string, int), seq<string>>, n: string,
                    row: Namespace)
    requires History(namespaces, policies)
    requires if n in namespaces then row.revision == namespaces[n].revision + 1 else row.revision == 1
    ensures History(namespaces[n := row], policies[(n, row.revision) := row.grants])
  {
    var more := policies[(n, row.revision) := row.grants];
    assert forall r: int :: r != row.revision && (n, r) in policies ==> (n, r) in more;
    if n in namespaces {
      assert HistoryOf(namespaces[n], n, policies);
    }
    forall m | m in namespaces && m != n ensures HistoryOf(namespaces[m], m, more) {
      assert HistoryOf(namespaces[m], m, policies);
    }
  }

  predicate TouchesNamespaces(e: Event) {
    e.CreateNamespace? || e.SetGrants? || e.DeleteNamespace?
  }

  lemma CreatedPolicies(db: Db, n: string, org: string, name: string, grants: seq<string>)
    requires PoliciesComplete(db)
    ensures PoliciesComplete(CreateState(db, n, org, name, grants).0)
  {
    hide NameTaken, History;
    if n !in db.namespaces { PolicyAdded(db.namespaces, db.policies, n, Namespace(org, name, 1, grants)); }
  }

  lemma GrantedPolicies(db: Db, n: string, expected: int, grants: seq<string>)
    requires PoliciesComplete(db)
    ensures PoliciesComplete(GrantState(db, n, expected, grants).0)
  {
    hide History;
    if n in db.namespaces && db.namespaces[n].revision == expected {
      PolicyAdded(db.namespaces, db.policies, n, db.namespaces[n].(revision := expected + 1, grants := grants));
    }
  }

  lemma StepKeepsPolicies(db: Db, e: Event)
    requires PoliciesComplete(db)
    ensures PoliciesComplete(Step(db, e).0)
  {
    hide History, CommitState, SaveState, PruneState, CreateState, GrantState, DeleteState, AdvanceState,
         AcknowledgeState, AddWorkerState, AddArtifactState, RemoveWorkerState;
    match e
    case CreateNamespace(n, org, name, grants) => CreatedPolicies(db, n, org, name, grants);
    case SetGrants(n, expected, grants) => GrantedPolicies(db, n, expected, grants);
    case DeleteNamespace(n) => DeletedPolicies(db, n);
    case _ =>
  }

  lemma DeletedPolicies(db: Db, n: string)
    requires PoliciesComplete(db)
    ensures PoliciesComplete(DeleteState(db, n).0)
  {
    hide Occupied;
    var policies := DeleteState(db, n).0.policies;
    forall m | m in db.namespaces && m != n
      ensures m in DeleteState(db, n).0.namespaces ==> HistoryOf(db.namespaces[m], m, policies)
    {
      assert HistoryOf(db.namespaces[m], m, db.policies);
    }
  }

  lemma StepKeepsRevisions(db: Db, e: Event)
    requires RevisionsPositive(db)
    ensures RevisionsPositive(Step(db, e).0)
  {
    hide NameTaken, Occupied, InOrg;
    hide CreateState, GrantState, AdvanceState, AcknowledgeState, AddWorkerState, AddArtifactState;
  }

  lemma StepKeepsPublications(db: Db, e: Event)
    requires PublicationsBehind(db)
    ensures PublicationsBehind(Step(db, e).0)
  {
    hide CommitState, SaveState, PruneState, CreateState, GrantState, DeleteState, AddWorkerState, AddArtifactState;
  }

  lemma StepKeepsWorkers(db: Db, e: Event)
    requires WorkersHold(db)
    ensures WorkersHold(Step(db, e).0)
  {
    hide InOrg, SaveState, PruneState, CreateState, GrantState, DeleteState;
  }

  lemma NamespaceChanged(namespaces: map<string, Namespace>, sessions: map<string, Session>,
                         workers: map<string, Worker>, n: string, row: Namespace)
    requires NamespacesHold(namespaces, sessions, workers) && (n in namespaces ==> row.org == namespaces[n].org)
    ensures NamespacesHold(namespaces[n := row], sessions, workers)
  {
    assert forall m, o :: InOrg(namespaces, m, o) ==> InOrg(namespaces[n := row], m, o);
  }

  lemma NamespaceDeleted(db: Db, n: string)
    requires NamespacesHold(db.namespaces, db.sessions, db.workers)
    ensures var next := DeleteState(db, n).0; NamespacesHold(next.namespaces, next.sessions, next.workers)
  {
    assert forall m, o :: m != n && InOrg(db.namespaces, m, o) ==> InOrg(db.namespaces - {n}, m, o);
  }

  lemma RowsHold(db: Db, e: Event)
    requires NamespacesHold(db.namespaces, db.sessions, db.workers) && !TouchesNamespaces(e)
    ensures var next := Step(db, e).0; NamespacesHold(next.namespaces, next.sessions, next.workers)
  {
    hide InOrg, CommitState, CreateState, GrantState, DeleteState, AdvanceState, AcknowledgeState, AddArtifactState;
  }

  lemma NamespacesChanged(db: Db, e: Event)
    requires NamespacesHold(db.namespaces, db.sessions, db.workers) && (e.CreateNamespace? || e.SetGrants?)
    ensures var next := Step(db, e).0; NamespacesHold(next.namespaces, next.sessions, next.workers)
  {
    hide NameTaken, NamespacesHold;
    match e
    case CreateNamespace(n, org, name, grants) =>
      if n !in db.namespaces {
        NamespaceChanged(db.namespaces, db.sessions, db.workers, n, Namespace(org, name, 1, grants));
      }
    case SetGrants(n, expected, grants) =>
      if n in db.namespaces {
        var row := db.namespaces[n].(revision := expected + 1, grants := grants);
        NamespaceChanged(db.namespaces, db.sessions, db.workers, n, row);
      }
  }

  lemma StepKeepsReferences(db: Db, e: Event)
    requires ReferencesHold(db)
    ensures ReferencesHold(Step(db, e).0)
  {
    hide WorkersHold, NamespacesHold, CommitState, SaveState, PruneState, CreateState, GrantState, DeleteState,
         AdvanceState, AcknowledgeState, AddWorkerState, AddArtifactState, RemoveWorkerState;
    StepKeepsWorkers(db, e);
    match e
    case CreateNamespace(_, _, _, _) => NamespacesChanged(db, e);
    case SetGrants(_, _, _) => NamespacesChanged(db, e);
    case DeleteNamespace(n) => NamespaceDeleted(db, n);
    case _ => RowsHold(db, e);
  }

  lemma StepKeepsNames(db: Db, e: Event)
    requires NamesUnique(db)
    ensures NamesUnique(Step(db, e).0)
  {
    hide Occupied, InOrg, CommitState, SaveState, PruneState, AdvanceState, AcknowledgeState, AddWorkerState,
         AddArtifactState, RemoveWorkerState;
  }

  lemma StepKeepsValid(db: Db, e: Event)
    requires Valid(db)
    ensures Valid(Step(db, e).0)
  {
    hide Step, PoliciesComplete, RevisionsPositive, PublicationsBehind, ReferencesHold, NamesUnique;
    StepKeepsPolicies(db, e);
    StepKeepsRevisions(db, e);
    StepKeepsPublications(db, e);
    StepKeepsReferences(db, e);
    StepKeepsNames(db, e);
  }
}
