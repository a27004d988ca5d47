/** The statements themselves, each a change of the tables in place. A statement or transaction
    takes effect at once or not at all. */
module PostgresTables {
  import opened Outcomes
  import opened DatabaseState
  import opened NameOrder

  /** The order of expiry, by identifier among sessions that expire together. */
  predicate Sooner(rows: map<string, Session>, s: string, t: string)
    requires s in rows && t in rows
  {
    rows[s].expiresAt < rows[t].expiresAt || (rows[s].expiresAt == rows[t].expiresAt && Less(s, t))
  }

  lemma SoonerIsTotal(rows: map<string, Session>, s: string, t: string)
    requires s in rows && t in rows && s != t
    ensures Sooner(rows, s, t) || Sooner(rows, t, s)
  {
    LessIsStrict(s, t);
  }

  lemma SoonerIsTransitive(rows: map<string, Session>, s: string, t: string, u: string)
    requires s in rows && t in rows && u in rows && Sooner(rows, s, t) && Sooner(rows, t, u)
    ensures Sooner(rows, s, u)
  {
    if Less(s, t) && Less(t, u) { LessIsTransitive(s, t, u); }
  }

  /** The earliest expired rows that nobody holds, up to the limit. */
  predicate Selected(rows: map<string, Session>, now: int, limit: int, locked: set<string>, ids: set<string>) {
    && |ids| <= limit && ids <= rows.Keys - locked
    && (forall s :: s in ids ==> rows[s].expiresAt <= now)
    && (forall s, t :: s in ids && t in rows.Keys - ids - locked ==> Sooner(rows, s, t))
    && (|ids| < limit ==> forall t :: t in rows.Keys - ids - locked ==> rows[t].expiresAt > now)
  }

  method Earliest(ids: set<string>, rows: map<string, Session>) returns (first: string)
    requires ids != {} && ids <= rows.Keys
    ensures first in ids && forall s :: s in ids && s != first ==> Sooner(rows, first, s)
  {
    hide Sooner;
    first :| first in ids;
    var left := ids - {first};
    while left != {}
      invariant left <= ids && first in ids && first !in left
      invariant forall s :: s in ids - left && s != first ==> Sooner(rows, first, s)
      decreases |left|
    {
      var id :| id in left;
      left := left - {id};
      SoonerIsTotal(rows, id, first);
      if Sooner(rows, id, first) {
        forall s | s in ids - left && s != id ensures Sooner(rows, id, s) {
          if s != first { SoonerIsTransitive(rows, id, first, s); }
        }
        first := id;
      }
    }
  }

  /** Some expired rows that nobody holds are selected, each sooner than all those left. */
  ghost predicate Selecting(rows: map<string, Session>, now: int, locked: set<string>, ids: set<string>,
                            left: set<string>) {
    && ids !! left && ids + left <= rows.Keys - locked
    && (forall s :: s in rows.Keys - locked ==> (s in ids + left <==> rows[s].expiresAt <= now))
    && (forall s, t :: s in ids && t in left ==> Sooner(rows, s, t))
  }

  lemma SelectNone(rows: map<string, Session>, now: int, locked: set<string>)
    ensures Selecting(rows, now, locked, {}, set s | s in rows && s !in locked && rows[s].expiresAt <= now)
  {
    hide Sooner;
  }

  lemma SelectOne(rows: map<string, Session>, now: int, locked: set<string>, ids: set<string>, left: set<string>,
                  id: string)
    requires Selecting(rows, now, locked, ids, left) && id in left && left <= rows.Keys
    requires forall t :: t in left && t != id ==> Sooner(rows, id, t)
    ensures Selecting(rows, now, locked, ids + {id}, left - {id}) && |ids + {id}| == |ids| + 1
  {
    hide Sooner;
    assert ids + {id} + (left - {id}) == ids + left;
  }

  lemma SelectionEnds(rows: map<string, Session>, now: int, limit: nat, locked: set<string>, ids: set<string>,
                      left: set<string>)
    requires Selecting(rows, now, locked, ids, left) && |ids| <= limit && (|ids| < limit ==> left == {})
    ensures Selected(rows, now, limit, locked, ids)
  {
    hide Less;
    forall s, t | s in ids && t in rows.Keys - ids - locked ensures Sooner(rows, s, t) {
      assert rows[s].expiresAt <= now;
      assert t in left || rows[t].expiresAt > now;
    }
  }

  method SelectExpired(rows: map<string, Session>, now: int, limit: nat, locked: set<string>) returns (ids: set<string>)
    ensures Selected(rows, now, limit, locked, ids)
  {
    hide Sooner, Selecting, Selected;
    ids := {};
    var expired := set s | s in rows && s !in locked && rows[s].expiresAt <= now;
    SelectNone(rows, now, locked);
    while |ids| < limit && expired != {}
      invariant |ids| <= limit && expired <= rows.Keys && Selecting(rows, now, locked, ids, expired)
      decreases |expired|
    {
      var id := Earliest(expired, rows);
      SelectOne(rows, now, locked, ids, expired, id);
      expired, ids := expired - {id}, ids + {id};
    }
    SelectionEnds(rows, now, limit, locked, ids, expired);
  }

  /** The selection: expired sessions that nobody holds, as many as the limit allows, and of those
      left none that expires earlier, or at the same time under a smaller name. */
  lemma SelectedExactly(rows: map<string, Session>, now: int, limit: int, locked: set<string>, ids: set<string>)
    requires Selected(rows, now, limit, locked, ids)
    ensures |ids| <= limit && forall s :: s in ids ==> s in rows && s !in locked && rows[s].expiresAt <= now
    ensures forall s, t :: s in ids && t in rows && t !in ids && t !in locked ==>
      || rows[s].expiresAt < rows[t].expiresAt
      || (rows[s].expiresAt == rows[t].expiresAt && exists i: nat :: SmallerAt(s, t, i))
    ensures |ids| < limit ==> forall t :: t in rows && t !in ids && t !in locked ==> rows[t].expiresAt > now
  {
    hide Less, SmallerAt;
    forall s, t | s in ids && t in rows && t !in ids && t !in locked
      ensures rows[s].expiresAt < rows[t].expiresAt
              || (rows[s].expiresAt == rows[t].expiresAt && exists i: nat :: SmallerAt(s, t, i))
    {
      assert t in rows.Keys - ids - locked && Sooner(rows, s, t);
      LessExactly(s, t);
    }
    forall t | |ids| < limit && t in rows && t !in ids && t !in locked ensures rows[t].expiresAt > now {
      assert t in rows.Keys - ids - locked;
    }
  }

  method First(keys: set<(string, int)>) returns (first: (string, int))
    requires keys != {}
    ensures first in keys && forall k :: k in keys ==> first.1 <= k.1
  {
    first :| first in keys;
    var left := keys;
    while left != {}
      invariant left <= keys && first in keys
      invariant forall k :: k in keys - left ==> first.1 <= k.1
      decreases |left|
    {
      var k :| k in left;
      if k.1 < first.1 { first := k; }
      left := left - {k};
    }
  }

  /** The revisions that have a policy are the first so many. */
  lemma PolicyRevisions(db: Db, id: string) returns (last: nat)
    requires PoliciesComplete(db)
    ensures forall r: int :: (id, r) in db.policies <==> 1 <= r <= last
    ensures id !in db.namespaces ==> last == 0
    ensures id in db.namespaces ==>
      last == db.namespaces[id].revision >= 1
        && (id, last) in db.policies && db.policies[(id, last)] == db.namespaces[id].grants
  {
    if id in db.namespaces {
      last := db.namespaces[id].revision;
      assert HistoryOf(db.namespaces[id], id, db.policies);
    } else {
      last := 0;
      assert forall k :: k in db.policies ==> k.0 in db.namespaces;
    }
  }

  class Postgres {
    var workers: map<string, Worker>
    var artifacts: map<string, string>
    var managed: map<string, Managed>
    var namespaces: map<string, Namespace>
    var policies: map<(string, int), seq<string>>
    var sessions: map<string, Session>
    var publications: map<string, Publication>

    constructor ()
      ensures View() == EMPTY_DB
    {
      workers, artifacts, managed := map[], map[], map[];
      namespaces, policies, sessions, publications := map[], map[], map[], map[];
    }

    ghost function View(): Db
      reads this
    {
      Db(workers, artifacts, managed, namespaces, policies, sessions, publications)
    }

    /** Inserts the row that its Worker and its artifact select, or updates it at the revision
        expected. */
    method CommitScriptManagementState(worker: string, org: string, deployment: string, revision: int, payload: string,
                                       expected: int)
      returns (outcome: Outcome)
      modifies `managed
      ensures (View(), outcome) == CommitState(old(View()), worker, org, deployment, revision, payload, expected)
    {
      if expected < 0 || revision != expected + 1 { return Conflict; }
      var selected := worker in workers && workers[worker].org == org
                      && deployment in artifacts && artifacts[deployment] == worker
                      && (expected == 0 || worker in managed);
      var affected := 0;
      if selected {
        if worker !in managed {
          managed := managed[worker := Managed(revision, deployment, payload)];
          affected := 1;
        } else if managed[worker].revision == expected {
          var row := managed[worker];
          managed := managed[worker := row.(revision := revision, deployment := deployment, payload := payload)];
          affected := 1;
        }
      }
      outcome := if affected != 1 then Conflict else Done;
    }

    method SaveAssetUploadSession(id: string, org: string, namespace: string, revision: int, expiresAt: int,
                                  payload: string, expected: int)
      returns (outcome: Outcome)
      modifies `sessions
      ensures (View(), outcome) == SaveState(old(View()), id, org, namespace, revision, expiresAt, payload, expected)
    {
      if expected < 0 || revision != expected + 1 { return Conflict; }
      var affected := 0;
      if expected == 0 || id in sessions {
        if id !in sessions {
          if !InOrg(namespaces, namespace, org) { return Violation; }
          sessions := sessions[id := Session(org, namespace, revision, expiresAt, payload)];
          affected := 1;
        } else if sessions[id].revision == expected && sessions[id].org == org && sessions[id].namespace == namespace {
          sessions := sessions[id := sessions[id].(revision := revision, expiresAt := expiresAt, payload := payload)];
          affected := 1;
        }
      }
      outcome := if affected != 1 then Conflict else Done;
    }

    /** Removes expired sessions, the earliest first and at most `limit`, passing over those that
        others hold locked. */
    method PruneAssetUploadSessions(now: int, limit: int, locked: set<string>)
      returns (count: Option<nat>, ghost ids: set<string>)
      modifies `sessions
      ensures count.None? <==> limit < 1 || limit > 256
      ensures View() == PruneState(old(View()), now, ids).0 && sessions == old(sessions) - ids
      ensures if count.None? then ids == {}
        else count.value == |ids| && Selected(old(sessions), now, limit, locked, ids)
    {
      ids := {};
      PruneRemoves(View(), now, ids);
      if limit < 1 || limit > 256 {
        assert sessions - {} == sessions;
        return None, ids;
      }
      var expired := SelectExpired(sessions, now, limit, locked);
      ids := expired;
      PruneRemoves(View(), now, ids);
      sessions := sessions - expired;
      count := Some(|expired|);
    }

    method CreateDispatchNamespace(id: string, org: string, name: string, grants: seq<string>)
      returns (outcome: Outcome)
      modifies `namespaces, `policies
      ensures (View(), outcome) == CreateState(old(View()), id, org, name, grants)
    {
      if id in namespaces { return Exists; }
      if exists n :: n in namespaces && namespaces[n].org == org && namespaces[n].name == name { return Exists; }
      var before := namespaces;
      namespaces := namespaces[id := Namespace(org, name, 1, grants)];
      if (id, 1) in policies {
        namespaces := before;
        return Violation;
      }
      policies := policies[(id, 1) := grants];
      outcome := Done;
    }

    method SetNamespaceGrants(id: string, expected: int, grants: seq<string>) returns (outcome: Outcome)
      modifies `namespaces, `policies
      ensures (View(), outcome) == GrantState(old(View()), id, expected, grants)
    {
      if id in namespaces && namespaces[id].revision == expected {
        var before := namespaces;
        var row := namespaces[id].(grants := grants, revision := namespaces[id].revision + 1);
        namespaces := namespaces[id := row];
        if (id, row.revision) in policies {
          namespaces := before;
          return Violation;
        }
        policies := policies[(id, row.revision) := grants];
        return Done;
      }
      outcome := if id !in namespaces then NotFound else Conflict;
    }

    /** The policy rows of a namespace by revision: from the first to the current one. */
    method NamespacePolicies(id: string) returns (rows: seq<(int, seq<string>)>)
      requires PoliciesComplete(View())
      ensures id !in namespaces ==> rows == []
      ensures id in namespaces ==>
        && |rows| == namespaces[id].revision >= 1 && rows[|rows| - 1].1 == namespaces[id].grants
        && forall i :: 0 <= i < |rows| ==> (id, i + 1) in policies && rows[i] == (i + 1, policies[(id, i + 1)])
    {
      hide History, HistoryOf, PoliciesComplete;
      rows := [];
      ghost var last := PolicyRevisions(View(), id);
      var left := set k | k in policies && k.0 == id;
      while left != {}
        invariant |rows| <= last && left <= policies.Keys
        invariant forall k :: k in left <==> k.0 == id && |rows| < k.1 <= last
        invariant forall i :: 0 <= i < |rows| ==> (id, i + 1) in policies && rows[i] == (i + 1, policies[(id, i + 1)])
        decreases |left|
      {
        var row := First(left);
        assert (id, |rows| + 1) in left;
        rows := rows + [(row.1, policies[row])];
        left := left - {row};
      }
      assert |rows| < last ==> (id, |rows| + 1) in left;
    }

    method DeleteDispatchNamespace(id: string) returns (outcome: Outcome)
      modifies `namespaces, `policies, `sessions
      ensures (View(), outcome) == DeleteState(old(View()), id)
    {
      if id !in namespaces { return NotFound; }
      if |namespaces[id].grants| > 0 { return InUse; }
      if exists w :: w in workers && workers[w].namespace == Some(id) { return InUse; }
      namespaces := namespaces - {id};
      policies := map k | k in policies && k.0 != id :: policies[k];
      sessions := map s | s in sessions && sessions[s].namespace != id :: sessions[s];
      outcome := Done;
    }

    method AdvancePublication(worker: string, traffic: string) returns (outcome: Outcome)
      modifies `publications
      ensures (View(), outcome) == AdvanceState(old(View()), worker, traffic)
    {
      if worker !in workers { return Violation; }
      if worker !in publications {
        publications := publications[worker := Publication(1, 0, traffic)];
      } else {
        var row := publications[worker];
        publications := publications[worker := row.(generation := row.generation + 1, traffic := traffic)];
      }
      outcome := Done;
    }

    method AcknowledgePublication(worker: string, generation: nat) returns (outcome: Outcome)
      modifies `publications
      ensures (View(), outcome) == AcknowledgeState(old(View()), worker, generation)
    {
      var affected := 0;
      if worker in publications && publications[worker].generation >= generation {
        var row := publications[worker];
        row := row.(published := if row.published < generation then generation else row.published);
        publications := publications[worker := row];
        affected := 1;
      }
      outcome := if affected != 1 then Conflict else Done;
    }
  }
}
