/** The execution server with its mutable maps and session records. Every method that takes
    the lock in the source changes the state in place, and its contract says that the state
    as a value moves exactly as ExecutionView prescribes. */
module ExecutionServer {
  import opened Outcomes
  import V = ExecutionView
  import D = Decimal

  class RunnerSession {
    var expires: int
    var pins: set<string>
    var tokens: map<string, int>
    var highWater: nat

    constructor (expires: int)
      ensures Value() == V.Session(expires, {}, map[], 0)
    {
      this.expires := expires;
      pins, tokens, highWater := {}, map[], 0;
    }

    ghost function Value(): V.Session
      reads this
    {
      V.Session(expires, pins, tokens, highWater)
    }

    method Hold(id: string, token: string)
      modifies this
      ensures Value() == V.Hold(old(Value()), id, token)
    {
      pins := pins + {id};
      tokens := tokens[token := V.Count(tokens, token) + 1];
    }

    method Drop(id: string, token: string) returns (last: bool)
      modifies this
      ensures Value() == V.Drop(old(Value()), id, token)
      ensures last <==> old(V.Count(tokens, token)) == 1
    {
      pins := pins - {id};
      tokens := tokens[token := V.Count(tokens, token) - 1];
      last := tokens[token] == 0;
      if last {
        tokens := tokens - {token};
        assert tokens == old(tokens) - {token};
      }
    }
  }

  ghost function Values(sessions: map<string, RunnerSession>): map<string, V.Session>
    reads sessions.Values
  {
    map id | id in sessions :: sessions[id].Value()
  }

  lemma ValuesWithout(sessions: map<string, RunnerSession>, id: string)
    ensures Values(sessions - {id}) == Values(sessions) - {id}
  {
  }

  lemma ValuesWith(sessions: map<string, RunnerSession>, id: string, session: RunnerSession)
    ensures Values(sessions[id := session]) == Values(sessions)[id := session.Value()]
  {
  }

  lemma ValuesAre(sessions: map<string, RunnerSession>)
    ensures Values(sessions).Keys == sessions.Keys
    ensures forall id :: id in sessions ==> Values(sessions)[id] == sessions[id].Value()
  {
  }

  ghost predicate Unaliased(sessions: map<string, RunnerSession>) {
    forall a, b :: a in sessions && b in sessions && sessions[a] == sessions[b] ==> a == b
  }

  lemma UnaliasedWithout(sessions: map<string, RunnerSession>, id: string)
    requires Unaliased(sessions)
    ensures Unaliased(sessions - {id})
  {
  }

  lemma UnaliasedWith(sessions: map<string, RunnerSession>, id: string, session: RunnerSession)
    requires Unaliased(sessions) && session !in sessions.Values
    ensures Unaliased(sessions[id := session])
  {
    assert forall a :: a in sessions ==> sessions[a] in sessions.Values;
  }

  /** Changing one unaliased record changes one value. */
  lemma ValuesAfter(before: map<string, V.Session>, sessions: map<string, RunnerSession>, id: string)
    requires before.Keys == sessions.Keys && id in sessions
    requires forall a :: a in sessions && a != id ==> sessions[a].Value() == before[a]
    ensures Values(sessions) == before[id := sessions[id].Value()]
  {
  }

  class RuntimeExecutionServer {
    var pins: map<string, V.Pin>
    var sessions: map<string, RunnerSession>
    var owners: map<string, string>
    var closed: bool
    ghost var released: multiset<V.Lease>
    ghost var revoked: set<string>

    ghost function View(): V.View
      reads this, sessions.Values
    {
      V.View(pins, Values(sessions), owners, closed, released, revoked)
    }

    ghost predicate Locked()
      reads this, sessions.Values
    {
      Unaliased(sessions) && V.Consistent(View())
    }

    /** What holds whenever the lock is free. */
    ghost predicate Valid()
      reads this, sessions.Values
    {
      Locked() && V.Quiet(View())
    }

    constructor ()
      ensures Valid() && View() == V.EMPTY && fresh(sessions.Values)
    {
      pins, sessions, owners, closed := map[], map[], map[], false;
      released, revoked := multiset{}, {};
    }

    // ----- helpers that run with the lock held

    method StorePin(id: string, lease: V.Lease, sessionID: string, execution: string)
      requires Unaliased(sessions) && sessionID in sessions
      modifies this, sessions.Values
      ensures Unaliased(sessions) && sessions == old(sessions)
      ensures View() == V.Store(old(View()), id, lease, sessionID, execution)
    {
      var session := sessions[sessionID];
      pins := pins[id := V.Pin(lease, sessionID, execution)];
      session.Hold(id, lease.token);
      owners := owners[lease.token := sessionID];
      ValuesAfter(old(Values(sessions)), sessions, sessionID);
    }

    method ReleasePin(id: string)
      requires Unaliased(sessions)
      modifies this, sessions.Values
      ensures Unaliased(sessions) && sessions == old(sessions)
      ensures View() == V.ReleasePin(old(View()), id)
    {
      hide V.Drop, V.Count, Values;
      if id !in pins { return; }
      ghost var values := Values(sessions);
      ValuesAre(sessions);
      var pin := pins[id];
      pins := pins - {id};
      if pin.session in sessions {
        var session := sessions[pin.session];
        var last := session.Drop(id, pin.lease.token);
        if last { owners := owners - {pin.lease.token}; }
        ValuesAfter(values, sessions, pin.session);
      }
      released := released + multiset{pin.lease};
    }

    /** The loop deletes from the set it ranges over: an entry already deleted is not produced. */
    method ReleasePins(id: string)
      requires Locked() && id in sessions
      modifies this, sessions.Values
      ensures Unaliased(sessions) && sessions == old(sessions) && sessions[id].pins == {}
      ensures V.Consistent(View()) && V.Closing(old(View()), View(), id)
    {
      hide V.Consistent, V.Closing, V.ReleasePin;
      ghost var start := View();
      V.ClosingBegin(start, id);
      var session := sessions[id];
      var unvisited := session.pins;
      while unvisited * session.pins != {}
        invariant Unaliased(sessions) && sessions == old(sessions)
        invariant V.Consistent(View()) && V.Closing(start, View(), id)
        invariant unvisited == session.pins
        decreases |unvisited|
      {
        var pinID :| pinID in unvisited * session.pins;
        V.ClosingStep(start, View(), id, pinID);
        unvisited := unvisited - {pinID};
        ReleasePin(pinID);
      }
    }

    method CloseSession(id: string)
      requires Locked()
      modifies this, sessions.Values
      ensures Unaliased(sessions) && sessions == old(sessions) - {id}
      ensures View() == V.CloseSession(old(View()), id)
    {
      hide V.Consistent, V.Closing, V.CloseSessions, Values, Unaliased;
      ValuesAre(sessions);
      if id !in sessions { return; }
      ReleasePins(id);
      ValuesAre(sessions);
      V.ClosingEnd(old(View()), View(), id);
      ValuesWithout(sessions, id);
      UnaliasedWithout(sessions, id);
      sessions := sessions - {id};
      revoked := revoked + {id};
    }

    /** One turn of a loop over the sessions: the loops may visit them in any order. */
    method CloseNext(ghost start: V.View, ghost done: set<string>, id: string)
      requires Unaliased(sessions) && id in sessions && id !in done
      requires V.Consistent(start) && View() == V.CloseSessions(start, done)
      modifies this, sessions.Values
      ensures Unaliased(sessions) && sessions.Keys == old(sessions.Keys) - {id}
      ensures sessions.Values <= old(sessions.Values)
      ensures View() == V.CloseSessions(start, done + {id})
    {
      V.CloseSessionsPreserves(start, done);
      V.CloseOneMore(start, done, id);
      CloseSession(id);
    }

    method LiveSession(id: string, now: int) returns (session: RunnerSession?)
      requires Locked()
      modifies this, sessions.Values
      ensures Locked() && sessions.Values <= old(sessions.Values)
      ensures View() == V.Sweep(old(View()), id, now)
      ensures session != null <==> id in sessions
      ensures session != null ==> session == sessions[id]
    {
      if id !in sessions { return null; }
      session := sessions[id];
      V.SweepPreserves(View(), id, now);
      if session.expires <= now {
        CloseSession(id);
        session := null;
      }
    }
    // ----- lock sections of the request handlers

    method OpenSession(id: string, now: int)
      requires Valid() && id !in sessions
      modifies this, sessions.Values
      ensures Valid() && fresh(sessions.Values - old(sessions.Values))
      ensures View() == V.OpenSession(old(View()), id, now)
    {
      hide V.Consistent, V.Quiet, Values, Unaliased;
      ValuesAre(sessions);
      V.OpenPreserves(View(), id, now);
      if closed { return; }
      var session := new RunnerSession(now + V.SESSION_TTL);
      ValuesWith(sessions, id, session);
      UnaliasedWith(sessions, id, session);
      sessions := sessions[id := session];
    }

    method Heartbeat(id: string, now: int, later: int) returns (alive: bool)
      requires Valid()
      modifies this, sessions.Values
      ensures Valid() && sessions.Values <= old(sessions.Values)
      ensures View() == V.Heartbeat(old(View()), id, now, later)
      ensures alive <==> id in sessions
    {
      hide V.Consistent, V.Sweep, V.Quiet;
      V.HeartbeatPreserves(View(), id, now, later);
      var session := LiveSession(id, now);
      alive := session != null;
      if alive {
        ghost var before := Values(sessions);
        session.expires := later + V.SESSION_TTL;
        ValuesAfter(before, sessions, id);
      }
    }

    method Admit(sessionID: string, id: string, execution: string, sequence: nat, now: int,
                 grant: Option<V.Lease>) returns (token: Result<string, V.AdmitError>)
      requires Valid() && (grant.Some? ==> V.Offered(View(), grant.value, sessionID))
      modifies this, sessions.Values
      ensures Valid() && sessions.Values <= old(sessions.Values)
      ensures (View(), token) == V.Admit(old(View()), sessionID, id, execution, sequence, now, grant)
    {
      hide V.Consistent, V.Sweep, V.Store, V.Quiet;
      V.AdmitPreserves(View(), sessionID, id, execution, sequence, now, grant);
      var session := LiveSession(sessionID, now);
      if session == null || closed { return Err(V.SessionExpired); }
      if id in pins {
        var existing := pins[id];
        if existing.session != sessionID || existing.execution != execution {
          return Err(V.ForeignAdmission);
        }
        return Ok(existing.lease.token);
      }
      if sequence != 0 {
        if sequence <= session.highWater { return Err(V.Superseded); }
        ghost var before := Values(sessions);
        session.highWater := sequence;
        ValuesAfter(before, sessions, sessionID);
      }
      if grant.None? { return Err(V.Refused); }
      StorePin(id, grant.value, sessionID, execution);
      token := Ok(grant.value.token);
    }

    method CheckPin(token: string, now: int) returns (owner: string, live: bool)
      requires Valid()
      modifies this, sessions.Values
      ensures Valid() && sessions.Values <= old(sessions.Values)
      ensures owner == V.PinOwner(old(View()), token)
      ensures View() == V.Sweep(old(View()), owner, now)
      ensures live <==> owner in sessions
    {
      hide V.Consistent;
      owner := if token in owners then owners[token] else "";
      V.SweepPreserves(View(), owner, now);
      var session := LiveSession(owner, now);
      live := session != null;
    }

    method KeepPin(id: string, lease: V.Lease, sessionID: string, now: int) returns (kept: bool)
      requires Valid() && id !in pins && V.Offered(View(), lease, sessionID)
      modifies this, sessions.Values
      ensures Valid() && sessions.Values <= old(sessions.Values)
      ensures (View(), kept) == V.KeepPin(old(View()), id, lease, sessionID, now)
    {
      hide V.Consistent;
      V.KeepPinPreserves(View(), id, lease, sessionID, now);
      var session := LiveSession(sessionID, now);
      if session == null || closed { return false; }
      StorePin(id, lease, sessionID, "");
      kept := true;
    }

    method Cancel(sessionID: string, sequence: nat)
      requires Unaliased(sessions) && sessionID in sessions
      modifies sessions.Values
      ensures Unaliased(sessions) && sessions == old(sessions)
      ensures View() == V.Cancel(old(View()), sessionID, sequence)
    {
      var session := sessions[sessionID];
      if sequence > session.highWater {
        session.highWater := sequence;
        ValuesAfter(old(Values(sessions)), sessions, sessionID);
      }
    }

    /** Cancels the sequence that the pin id names for its owner, if it names one. */
    method CancelNamed(owner: string, id: string) returns (named: bool)
      requires Unaliased(sessions) && owner in sessions && owner + ":" <= id
      modifies sessions.Values
      ensures Unaliased(sessions) && sessions == old(sessions)
      ensures V.NamedSequence(owner, id).Some? && named == V.NamedSequence(owner, id).value.Some?
      ensures View() == if named then V.Cancel(old(View()), owner, V.NamedSequence(owner, id).value.value)
                        else old(View())
    {
      hide V.Cancel, Values, Unaliased, D.ParseUint;
      var sequence := D.ParseUint(id[|owner| + 1..]);
      if sequence.None? || sequence.value == 0 { return false; }
      Cancel(owner, sequence.value);
      named := true;
    }

    method Release(requester: string, id: string, now: int) returns (status: V.ReleaseStatus)
      requires Valid()
      modifies this, sessions.Values
      ensures Valid() && sessions.Values <= old(sessions.Values)
      ensures (View(), status) == V.Release(old(View()), requester, id, now)
    {
      hide V.Consistent, V.CloseSessions, V.ReleasePin, V.Cancel, V.Sweep, V.Quiet, Values, Unaliased, V.NamedSequence;
      V.ReleaseRequestPreserves(View(), requester, id, now);
      if |id| > 256 { return V.PinIdTooLong; }
      var owner := requester;
      if id in pins {
        if owner != "" && owner != pins[id].session { return V.ForeignPin; }
        owner := pins[id].session;
      }
      var session := LiveSession(owner, now);
      ValuesAre(sessions);
      V.NamesWithPrefix(owner, id);
      if session != null && owner + ":" <= id {
        var named := CancelNamed(owner, id);
        if !named { return V.BadPinId; }
      }
      ReleasePin(id);
      status := V.Released;
    }

    /** The janitor's loop. */
    method CloseExpired(now: int)
      requires Locked()
      modifies this, sessions.Values
      ensures Unaliased(sessions) && sessions.Values <= old(sessions.Values)
      ensures View() == V.Expire(old(View()), now)
    {
      hide V.Consistent, V.CloseSessions;
      ghost var start, done := View(), {};
      V.CloseNone(start);
      var unvisited := sessions.Keys;
      while unvisited != {}
        invariant sessions.Values <= old(sessions.Values) && unvisited <= sessions.Keys
        invariant done == V.Expired(start, now) - unvisited
        invariant Unaliased(sessions) && View() == V.CloseSessions(start, done)
      {
        var id :| id in unvisited;
        unvisited := unvisited - {id};
        V.SessionsAfterClose(start, done);
        assert start.sessions[id] == View().sessions[id] == sessions[id].Value();
        if sessions[id].expires <= now {
          CloseNext(start, done, id);
          done := done + {id};
        }
      }
      assert done == V.Expired(start, now);
    }

    method ExpireSessions(now: int)
      requires Valid()
      modifies this, sessions.Values
      ensures Valid() && sessions.Values <= old(sessions.Values)
      ensures View() == V.Expire(old(View()), now)
    {
      V.ExpirePreserves(View(), now);
      CloseExpired(now);
    }

    /** The shutdown loop. */
    method CloseAll()
      requires Locked()
      modifies this, sessions.Values
      ensures Unaliased(sessions) && sessions.Values <= old(sessions.Values)
      ensures View() == V.CloseSessions(old(View()), old(sessions.Keys))
    {
      hide V.Consistent, V.CloseSessions;
      ghost var start, done := View(), {};
      V.CloseNone(start);
      var unvisited := sessions.Keys;
      while unvisited != {}
        invariant sessions.Values <= old(sessions.Values) && unvisited <= sessions.Keys
        invariant done == old(sessions.Keys) - unvisited
        invariant Unaliased(sessions) && View() == V.CloseSessions(start, done)
      {
        var id :| id in unvisited;
        unvisited := unvisited - {id};
        CloseNext(start, done, id);
        done := done + {id};
      }
      assert done == old(sessions.Keys);
    }

    method Close()
      requires Valid()
      modifies this, sessions.Values
      ensures Valid() && sessions.Values <= old(sessions.Values)
      ensures View() == V.Shutdown(old(View()))
    {
      hide V.Consistent, V.CloseSessions;
      V.ShutdownPreserves(View());
      closed := true;
      assert View() == old(View()).(closed := true) && sessions.Keys == View().sessions.Keys;
      CloseAll();
    }
  }
}
