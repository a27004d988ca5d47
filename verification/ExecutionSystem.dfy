/** Every interleaving of the execution server's lock sections: runner requests, the janitor,
    shutdown, and pin requests that are split over two sections with a call to the execution
    registry in between.

    The registry is an assumption: a lease it hands out is new, an admission's token is new,
    and pinning a token yields a lease of that token. Random ids are new and have no colon. */
module ExecutionSystem {
  import opened Outcomes
  import opened Decimal
  import opened ExecutionView

  /** Where a pin request stands between its atomic steps. */
  datatype PinRequest =
    | Checked(token: string, owner: string)
    | Holding(lease: Lease, owner: string)
    | Unwanted(lease: Lease)

  /** `acquired`, `issued` (the session each token was issued to) and `known` are history. */
  datatype System = System(
    view: View,
    clock: int,
    requests: map<nat, PinRequest>,
    acquired: set<Lease>,
    issued: map<string, string>,
    known: set<string>)

  datatype Event =
    | OpenEvent(id: string, now: int)
    | HeartbeatEvent(session: string, now: int, later: int)
    | CloseSessionEvent(session: string)
    | TouchEvent(session: string, now: int)
    | AdmitEvent(session: string, admission: string, execution: string, random: string, now: int,
                 grant: Option<Lease>)
    | CheckPinEvent(request: nat, token: string, now: int)
    | AcquirePinEvent(request: nat, pinned: Option<Lease>)
    | KeepPinEvent(request: nat, pinID: Option<string>, now: int)
    | DropPinEvent(request: nat)
    | ReleaseEvent(requester: string, id: string, now: int)
    | ExpireEvent(asOf: int, now: int)
    | ShutdownEvent

  const INIT := System(EMPTY, 0, map[], {}, map[], {})

  ghost predicate Legal(s: System, e: Event) {
    match e
    case OpenEvent(id, now) => id != "" && ':' !in id && id !in s.known && s.clock <= now
    case HeartbeatEvent(_, now, later) => s.clock <= now <= later
    case CloseSessionEvent(_) => true
    case TouchEvent(_, now) => s.clock <= now
    case AdmitEvent(_, _, _, random, now, grant) =>
      && s.clock <= now && ':' !in random && random !in s.view.pins
      && (grant.Some? ==> grant.value !in s.acquired && grant.value.token !in s.issued)
    case CheckPinEvent(request, _, now) => request !in s.requests && s.clock <= now
    case AcquirePinEvent(request, pinned) =>
      && request in s.requests && s.requests[request].Checked?
      && (pinned.Some? ==> pinned.value !in s.acquired && pinned.value.token == s.requests[request].token)
    case KeepPinEvent(request, pinID, now) =>
      && request in s.requests && s.requests[request].Holding? && s.clock <= now
      && (pinID.Some? ==> ':' !in pinID.value && pinID.value !in s.view.pins)
    case DropPinEvent(request) => request in s.requests && s.requests[request].Unwanted?
    case ReleaseEvent(_, _, now) => s.clock <= now
    case ExpireEvent(asOf, now) => asOf <= now && s.clock <= now
    case ShutdownEvent => true
  }

  /** The answer of an admit request. */
  function AdmitAnswer(s: System, e: Event): Result<string, AdmitError>
    requires e.AdmitEvent?
  {
    match AdmissionId(e.session, e.admission, e.random)
    case None => Err(BadAdmission)
    case Some(admission) =>
      Admit(s.view, e.session, admission.0, e.execution, admission.1, e.now, e.grant).1
  }

  /** This admit request makes the registry hand out its lease. */
  predicate AcquiresLease(s: System, e: Event) {
    && e.AdmitEvent?
    && var admission := AdmissionId(e.session, e.admission, e.random);
    && admission.Some?
    && Acquires(s.view, e.session, admission.value.0, admission.value.1, e.now, e.grant)
  }

  function Step(s: System, e: Event): System
    requires Legal(s, e)
  {
    match e
    case OpenEvent(id, now) =>
      var view := OpenSession(s.view, id, now);
      s.(view := view, clock := now, known := if s.view.closed then s.known else s.known + {id})
    case HeartbeatEvent(session, now, later) =>
      s.(view := Heartbeat(s.view, session, now, later), clock := later)
    case CloseSessionEvent(session) => s.(view := CloseSession(s.view, session))
    case TouchEvent(session, now) => s.(view := Sweep(s.view, session, now), clock := now)
    case AdmitEvent(session, admission, execution, random, now, grant) =>
      (match AdmissionId(session, admission, random)
       case None => s.(clock := now)
       case Some(id) =>
         var view := Admit(s.view, session, id.0, execution, id.1, now, grant).0;
         if Acquires(s.view, session, id.0, id.1, now, grant)
         then s.(view := view, clock := now, acquired := s.acquired + {grant.value},
                 issued := s.issued[grant.value.token := session])
         else s.(view := view, clock := now))
    case CheckPinEvent(request, token, now) =>
      var owner := PinOwner(s.view, token);
      var view := Sweep(s.view, owner, now);
      s.(view := view, clock := now,
         requests := if owner in view.sessions then s.requests[request := Checked(token, owner)] else s.requests)
    case AcquirePinEvent(request, pinned) =>
      if pinned.None? then s.(requests := s.requests - {request})
      else s.(requests := s.requests[request := Holding(pinned.value, s.requests[request].owner)],
              acquired := s.acquired + {pinned.value})
    case KeepPinEvent(request, pinID, now) =>
      var lease, owner := s.requests[request].lease, s.requests[request].owner;
      if pinID.None? then s.(clock := now, requests := s.requests[request := Unwanted(lease)])
      else
        var (view, kept) := KeepPin(s.view, pinID.value, lease, owner, now);
        s.(view := view, clock := now,
           requests := if kept then s.requests - {request} else s.requests[request := Unwanted(lease)])
    case DropPinEvent(request) =>
      s.(view := s.view.(released := s.view.released + multiset{s.requests[request].lease}),
         requests := s.requests - {request})
    case ReleaseEvent(requester, id, now) =>
      s.(view := Release(s.view, requester, id, now).0, clock := now)
    case ExpireEvent(asOf, now) => s.(view := Expire(s.view, asOf), clock := now)
    case ShutdownEvent => s.(view := Shutdown(s.view))
  }

  ghost predicate Runs(s: System, events: seq<Event>)
    decreases |events|
  {
    events == [] || (Legal(s, events[0]) && Runs(Step(s, events[0]), events[1..]))
  }

  ghost function After(s: System, events: seq<Event>): System
    requires Runs(s, events)
    decreases |events|
  {
    if events == [] then s else After(Step(s, events[0]), events[1..])
  }

  // ----- the invariant

  /** Leases that a pin request holds outside the lock. */
  function InFlight(requests: map<nat, PinRequest>): set<Lease> {
    set r | r in requests && !requests[r].Checked? :: requests[r].lease
  }

  ghost predicate DistinctRequests(requests: map<nat, PinRequest>) {
    forall a, b ::
      (a in requests && b in requests && !requests[a].Checked? && !requests[b].Checked?
       && requests[a].lease == requests[b].lease) ==> a == b
  }

  /** Each lease obtained is live, in flight, or released exactly once. */
  ghost predicate Balanced(live: set<Lease>, flight: set<Lease>, released: multiset<Lease>, acquired: set<Lease>) {
    && live !! flight && live + flight <= acquired
    && released == multiset(acquired - live - flight)
  }

  ghost predicate Ledger(view: View, requests: map<nat, PinRequest>, acquired: set<Lease>) {
    DistinctRequests(requests) && Balanced(LeasesOf(view.pins), InFlight(requests), view.released, acquired)
  }

  ghost predicate TokensBelong(view: View, requests: map<nat, PinRequest>, issued: map<string, string>) {
    && (forall p :: p in view.pins ==>
          view.pins[p].lease.token in issued && issued[view.pins[p].lease.token] == view.pins[p].session)
    && (forall r :: r in requests && requests[r].Checked? ==>
          requests[r].token in issued && issued[requests[r].token] == requests[r].owner)
    && (forall r :: r in requests && requests[r].Holding? ==>
          requests[r].lease.token in issued && issued[requests[r].lease.token] == requests[r].owner)
  }

  /** Every session ever opened is live or revoked, never both. */
  ghost predicate SessionsAccounted(view: View, known: set<string>) {
    && view.sessions.Keys !! view.revoked
    && view.sessions.Keys + view.revoked == known
    && (forall id :: id in known ==> id != "" && ':' !in id)
  }

  ghost predicate NamedFor(id: string, session: string, highWater: nat) {
    ':' in id ==> exists n: nat :: 0 < n <= highWater && n <= MAX_UINT64 && id == AdmissionPin(session, n)
  }

  /** A pin id with a colon is the admission id of its own session, at or below the watermark. */
  ghost predicate PinsNamed(view: View) {
    forall p :: p in view.pins && view.pins[p].session in view.sessions ==>
      NamedFor(p, view.pins[p].session, view.sessions[view.pins[p].session].highWater)
  }

  ghost predicate Inv(s: System) {
    && Consistent(s.view) && Quiet(s.view)
    && Ledger(s.view, s.requests, s.acquired)
    && TokensBelong(s.view, s.requests, s.issued)
    && SessionsAccounted(s.view, s.known)
    && PinsNamed(s.view)
  }

  /** What every section does to the view except that it may also store one pin: pins only go,
      with one release each; sessions only end, with one revocation each. */
  ghost predicate Shrinks(v: View, w: View) {
    && (forall p :: p in w.pins ==> p in v.pins && w.pins[p] == v.pins[p])
    && w.released == v.released + multiset(LeasesOf(v.pins) - LeasesOf(w.pins))
    && w.sessions.Keys <= v.sessions.Keys
    && w.revoked == v.revoked + (v.sessions.Keys - w.sessions.Keys)
    && (forall id :: id in w.sessions ==> v.sessions[id].highWater <= w.sessions[id].highWater)
    && (v.closed ==> w.closed)
  }

  lemma ShrinksTransitive(u: View, v: View, w: View)
    requires Shrinks(u, v) && Shrinks(v, w)
    ensures Shrinks(u, w)
  {
    SubLeases(u.pins, v.pins);
    SubLeases(v.pins, w.pins);
    assert LeasesOf(u.pins) - LeasesOf(w.pins)
        == (LeasesOf(u.pins) - LeasesOf(v.pins)) + (LeasesOf(v.pins) - LeasesOf(w.pins));
  }

  lemma SubLeases(a: map<string, Pin>, b: map<string, Pin>)
    requires forall p :: p in b ==> p in a && b[p] == a[p]
    ensures LeasesOf(b) <= LeasesOf(a)
  {
    forall l | l in LeasesOf(b) ensures l in LeasesOf(a) {
      var p :| p in b && b[p].lease == l;
      assert a[p].lease == l;
    }
  }

  lemma RemovedLeases(pins: map<string, Pin>, gone: set<string>)
    requires DistinctLeases(pins) && gone <= pins.Keys
    ensures LeasesOf(pins) - LeasesOf(pins - gone) == LeasesOf(map p | p in gone :: pins[p])
  {
    var kept, lost := pins - gone, map p | p in gone :: pins[p];
    assert pins == kept + lost;
    DisjointLeases(kept, lost);
    SubLeases(pins, kept);
    SubLeases(pins, lost);
    forall l | l in LeasesOf(pins) ensures l in LeasesOf(kept) || l in LeasesOf(lost) {
      var p :| p in pins && pins[p].lease == l;
      assert p in kept ==> kept[p].lease == l;
      assert p in lost ==> lost[p].lease == l;
    }
    forall l | l in LeasesOf(lost) ensures l !in LeasesOf(kept) {
      var p :| p in lost && lost[p].lease == l;
      assert forall q :: q in kept ==> kept[q].lease == pins[q].lease;
    }
  }

  lemma CloseShrinks(v: View, ids: set<string>)
    requires DistinctLeases(v.pins) && ids <= v.sessions.Keys
    ensures Shrinks(v, CloseSessions(v, ids))
  {
    var gone := PinsOfAll(v.pins, ids);
    RemovedLeases(v.pins, gone.Keys);
    assert (map p | p in gone.Keys :: v.pins[p]) == gone;
    assert v.sessions.Keys - CloseSessions(v, ids).sessions.Keys == ids;
  }

  lemma SweepShrinks(v: View, id: string, now: int)
    requires DistinctLeases(v.pins)
    ensures Shrinks(v, Sweep(v, id, now))
  {
    if id in Expired(v, now) {
      CloseShrinks(v, {id});
    } else {
      Unmoved(v, v);
    }
  }

  lemma Unmoved(v: View, w: View)
    requires w.pins == v.pins && w.released == v.released && w.revoked == v.revoked
    requires w.sessions.Keys == v.sessions.Keys && (v.closed ==> w.closed)
    requires forall id :: id in w.sessions ==> v.sessions[id].highWater <= w.sessions[id].highWater
    ensures Shrinks(v, w)
  {
    assert LeasesOf(v.pins) - LeasesOf(w.pins) == {};
    assert v.sessions.Keys - w.sessions.Keys == {};
  }

  lemma OneRemoved(pins: map<string, Pin>, id: string)
    requires DistinctLeases(pins) && id in pins
    ensures LeasesOf(pins) - LeasesOf(pins - {id}) == {pins[id].lease}
  {
    RemovedLeases(pins, {id});
    var one := map p | p in {id} :: pins[p];
    assert one[id].lease in LeasesOf(one);
  }

  /** Shrinking without ending a session. */
  lemma SameSessionsShrink(v: View, w: View, lost: set<Lease>)
    requires forall p :: p in w.pins ==> p in v.pins && w.pins[p] == v.pins[p]
    requires LeasesOf(v.pins) - LeasesOf(w.pins) == lost && w.released == v.released + multiset(lost)
    requires w.sessions.Keys == v.sessions.Keys && w.revoked == v.revoked && (v.closed ==> w.closed)
    requires forall id :: id in w.sessions ==> v.sessions[id].highWater <= w.sessions[id].highWater
    ensures Shrinks(v, w)
  {
    assert v.sessions.Keys - w.sessions.Keys == {};
  }

  lemma ReleaseShrinks(v: View, id: string)
    requires DistinctLeases(v.pins)
    ensures Shrinks(v, ReleasePin(v, id))
  {
    hide Shrinks, DistinctLeases, LeasesOf;
    if id !in v.pins {
      Unmoved(v, v);
      return;
    }
    OneRemoved(v.pins, id);
    var lease, w := v.pins[id].lease, ReleasePin(v, id);
    assert w.released == v.released + multiset({lease});
    if v.pins[id].session in v.sessions {
      assert w.sessions.Keys == v.sessions.Keys;
    }
    SameSessionsShrink(v, w, {lease});
  }

  lemma CancelShrinks(v: View, session: string, sequence: nat)
    requires session in v.sessions
    ensures Shrinks(v, Cancel(v, session, sequence)) && Cancel(v, session, sequence).pins == v.pins
  {
    Unmoved(v, Cancel(v, session, sequence));
  }

  lemma ReleaseRequestShrinks(v: View, requester: string, id: string, now: int)
    requires DistinctLeases(v.pins)
    ensures Shrinks(v, Release(v, requester, id, now).0)
  {
    hide Shrinks, DistinctLeases, Sweep, ReleasePin, NamedSequence, Cancel;
    var owner := if id in v.pins then v.pins[id].session else requester;
    var w := Sweep(v, owner, now);
    SweepShrinks(v, owner, now);
    SweepKeepsDistinct(v, owner, now);
    Unmoved(v, v);
    if owner in w.sessions && NamedSequence(owner, id).Some? && NamedSequence(owner, id).value.Some? {
      var sequence := NamedSequence(owner, id).value.value;
      var raised := Cancel(w, owner, sequence);
      CancelShrinks(w, owner, sequence);
      ShrinksTransitive(v, w, raised);
      ReleaseShrinks(raised, id);
      ShrinksTransitive(v, raised, ReleasePin(raised, id));
    } else {
      ReleaseShrinks(w, id);
      ShrinksTransitive(v, w, ReleasePin(w, id));
    }
  }

  lemma SweepKeepsDistinct(v: View, id: string, now: int)
    requires DistinctLeases(v.pins)
    ensures DistinctLeases(Sweep(v, id, now).pins)
  {
  }

  lemma HeartbeatShrinks(v: View, id: string, now: int, later: int)
    requires DistinctLeases(v.pins)
    ensures Shrinks(v, Heartbeat(v, id, now, later))
  {
    hide Shrinks, DistinctLeases, Sweep;
    var w := Sweep(v, id, now);
    SweepShrinks(v, id, now);
    Unmoved(w, Heartbeat(v, id, now, later));
    ShrinksTransitive(v, w, Heartbeat(v, id, now, later));
  }

  lemma ShutdownShrinks(v: View)
    requires DistinctLeases(v.pins)
    ensures Shrinks(v, Shutdown(v))
  {
    hide Shrinks, DistinctLeases, CloseSessions;
    var w := v.(closed := true);
    Unmoved(v, w);
    CloseShrinks(w, w.sessions.Keys);
    ShrinksTransitive(v, w, Shutdown(v));
  }

  // ----- the parts of the invariant along a shrinking step and a store

  lemma BalancedShrinks(live: set<Lease>, less: set<Lease>, flight: set<Lease>, released: multiset<Lease>,
                        acquired: set<Lease>)
    requires Balanced(live, flight, released, acquired) && less <= live
    ensures Balanced(less, flight, released + multiset(live - less), acquired)
  {
    assert acquired - less - flight == (acquired - live - flight) + (live - less);
  }

  lemma LedgerShrinks(v: View, w: View, requests: map<nat, PinRequest>, acquired: set<Lease>)
    requires Shrinks(v, w) && Ledger(v, requests, acquired)
    ensures Ledger(w, requests, acquired)
  {
    hide LeasesOf, InFlight, DistinctRequests, Balanced;
    SubLeases(v.pins, w.pins);
    BalancedShrinks(LeasesOf(v.pins), LeasesOf(w.pins), InFlight(requests), v.released, acquired);
  }

  lemma TokensShrink(v: View, w: View, requests: map<nat, PinRequest>, issued: map<string, string>)
    requires Shrinks(v, w) && TokensBelong(v, requests, issued)
    ensures TokensBelong(w, requests, issued)
  {
  }

  lemma SessionsShrink(v: View, w: View, known: set<string>)
    requires Shrinks(v, w) && SessionsAccounted(v, known)
    ensures SessionsAccounted(w, known)
  {
  }

  lemma NamesShrink(v: View, w: View)
    requires Shrinks(v, w) && PinsNamed(v)
    ensures PinsNamed(w)
  {
  }

  lemma InvShrinks(s: System, w: View)
    requires Inv(s) && Shrinks(s.view, w) && Consistent(w) && Quiet(w)
    ensures Inv(s.(view := w))
  {
    hide Shrinks, Consistent, Quiet, Ledger, TokensBelong, SessionsAccounted, PinsNamed;
    LedgerShrinks(s.view, w, s.requests, s.acquired);
    TokensShrink(s.view, w, s.requests, s.issued);
    SessionsShrink(s.view, w, s.known);
    NamesShrink(s.view, w);
  }

  lemma StoredLeases(pins: map<string, Pin>, id: string, pin: Pin)
    requires id !in pins
    ensures LeasesOf(pins[id := pin]) == LeasesOf(pins) + {pin.lease}
  {
    var after := pins[id := pin];
    assert after[id].lease in LeasesOf(after);
    SubLeases(after, pins);
  }

  lemma BalancedAdmit(live: set<Lease>, flight: set<Lease>, released: multiset<Lease>, acquired: set<Lease>, l: Lease)
    requires Balanced(live, flight, released, acquired) && l !in acquired
    ensures Balanced(live + {l}, flight, released, acquired + {l})
    ensures Balanced(live, flight + {l}, released, acquired + {l})
  {
    assert acquired + {l} - (live + {l}) - flight == acquired - live - flight;
    assert acquired + {l} - live - (flight + {l}) == acquired - live - flight;
  }

  lemma BalancedSettle(live: set<Lease>, flight: set<Lease>, released: multiset<Lease>, acquired: set<Lease>, l: Lease)
    requires Balanced(live, flight, released, acquired) && l in flight
    ensures Balanced(live + {l}, flight - {l}, released, acquired)
    ensures Balanced(live, flight - {l}, released + multiset{l}, acquired)
  {
    assert acquired - (live + {l}) - (flight - {l}) == acquired - live - flight;
    assert acquired - live - (flight - {l}) == (acquired - live - flight) + {l};
  }

  /** A new lease goes straight into a pin. */
  lemma LedgerAdmit(v: View, id: string, pin: Pin, w: View, requests: map<nat, PinRequest>, acquired: set<Lease>)
    requires Ledger(v, requests, acquired) && id !in v.pins && pin.lease !in acquired
    requires w.pins == v.pins[id := pin] && w.released == v.released
    ensures Ledger(w, requests, acquired + {pin.lease})
  {
    hide LeasesOf, InFlight, DistinctRequests, Balanced;
    StoredLeases(v.pins, id, pin);
    BalancedAdmit(LeasesOf(v.pins), InFlight(requests), v.released, acquired, pin.lease);
  }

  lemma InFlightAfter(requests: map<nat, PinRequest>, r: nat, next: PinRequest)
    requires DistinctRequests(requests)
    requires !next.Checked? && (r in requests ==> requests[r].Checked? || requests[r].lease == next.lease)
    ensures InFlight(requests[r := next]) == InFlight(requests) + {next.lease}
  {
    var after := requests[r := next];
    assert after[r].lease in InFlight(after);
    forall l | l in InFlight(requests) ensures l in InFlight(after) {
      var q :| q in requests && !requests[q].Checked? && requests[q].lease == l;
      assert after[q].lease == l;
    }
  }

  lemma InFlightWithout(requests: map<nat, PinRequest>, r: nat)
    requires DistinctRequests(requests) && r in requests
    ensures DistinctRequests(requests - {r})
    ensures InFlight(requests - {r})
         == InFlight(requests) - (if requests[r].Checked? then {} else {requests[r].lease})
    ensures !requests[r].Checked? ==> requests[r].lease in InFlight(requests)
  {
    var after := requests - {r};
    forall l | l in InFlight(requests) && (requests[r].Checked? || l != requests[r].lease)
      ensures l in InFlight(after)
    {
      var q :| q in requests && !requests[q].Checked? && requests[q].lease == l;
      assert after[q].lease == l;
    }
  }

  /** A lease in flight settles: into a pin, or released because the session is gone. */
  lemma LedgerSettle(v: View, w: View, requests: map<nat, PinRequest>, r: nat, acquired: set<Lease>)
    requires Ledger(v, requests, acquired) && r in requests && !requests[r].Checked?
    requires var lease := requests[r].lease;
      || (LeasesOf(w.pins) == LeasesOf(v.pins) + {lease} && w.released == v.released)
      || (w.pins == v.pins && w.released == v.released + multiset{lease})
    ensures Ledger(w, requests - {r}, acquired)
  {
    hide LeasesOf, InFlight, DistinctRequests, Balanced;
    InFlightWithout(requests, r);
    BalancedSettle(LeasesOf(v.pins), InFlight(requests), v.released, acquired, requests[r].lease);
  }

  lemma LedgerAcquire(v: View, requests: map<nat, PinRequest>, r: nat, next: PinRequest, acquired: set<Lease>)
    requires Ledger(v, requests, acquired) && r in requests && requests[r].Checked?
    requires next.Holding? && next.lease !in acquired
    ensures Ledger(v, requests[r := next], acquired + {next.lease})
  {
    assert forall q :: q in requests && !requests[q].Checked? ==> requests[q].lease in InFlight(requests);
    assert DistinctRequests(requests[r := next]);
    hide LeasesOf, InFlight, Balanced;
    InFlightAfter(requests, r, next);
    BalancedAdmit(LeasesOf(v.pins), InFlight(requests), v.released, acquired, next.lease);
    assert next.lease !in InFlight(requests);
  }

  // ----- the invariant is kept by every event

  /** An admit that acquires nothing only shrinks; one that does stores its lease afterwards. */
  lemma AdmitParts(v: View, session: string, id: string, execution: string, sequence: nat, now: int,
                   grant: Option<Lease>) returns (w: View)
    requires DistinctLeases(v.pins)
    ensures Shrinks(v, w)
    ensures var result := Admit(v, session, id, execution, sequence, now, grant).0;
      if Acquires(v, session, id, sequence, now, grant)
      then session in w.sessions && sequence <= w.sessions[session].highWater && id !in w.pins
           && result == Store(w, id, grant.value, session, execution)
      else result == w
  {
    hide Shrinks, DistinctLeases, Sweep;
    w := Sweep(v, session, now);
    SweepShrinks(v, session, now);
    if session in w.sessions && !w.closed && id !in w.pins && sequence != 0
       && w.sessions[session].highWater < sequence {
      var raised := Raise(w, session, sequence);
      Unmoved(w, raised);
      ShrinksTransitive(v, w, raised);
      w := raised;
    }
  }

  lemma StoreKeepsInv(s: System, w: View, id: string, lease: Lease, session: string, execution: string, now: int)
    requires Inv(s) && Shrinks(s.view, w) && session in w.sessions && id !in w.pins
    requires lease !in s.acquired && lease.token !in s.issued
    requires NamedFor(id, session, w.sessions[session].highWater)
    requires var after := Store(w, id, lease, session, execution); Consistent(after) && Quiet(after)
    ensures Inv(s.(view := Store(w, id, lease, session, execution), clock := now,
                   acquired := s.acquired + {lease}, issued := s.issued[lease.token := session]))
  {
    hide Shrinks, Consistent, Quiet, Ledger, NamedFor, LeasesOf, TokensBelong, SessionsAccounted, PinsNamed;
    LedgerShrinks(s.view, w, s.requests, s.acquired);
    TokensShrink(s.view, w, s.requests, s.issued);
    SessionsShrink(s.view, w, s.known);
    var after := Store(w, id, lease, session, execution);
    LedgerAdmit(w, id, Pin(lease, session, execution), after, s.requests, s.acquired);
    NamesShrink(s.view, w);
    StoredTokens(w, id, lease, session, execution, s.requests, s.issued);
    StoredNames(w, id, lease, session, execution, s.known);
  }

  lemma StoredTokens(w: View, id: string, lease: Lease, session: string, execution: string,
                     requests: map<nat, PinRequest>, issued: map<string, string>)
    requires TokensBelong(w, requests, issued) && session in w.sessions && lease.token !in issued
    ensures TokensBelong(Store(w, id, lease, session, execution), requests, issued[lease.token := session])
  {
    hide Hold;
  }

  lemma StoredNames(w: View, id: string, lease: Lease, session: string, execution: string, known: set<string>)
    requires PinsNamed(w) && SessionsAccounted(w, known) && session in w.sessions
    requires NamedFor(id, session, w.sessions[session].highWater)
    ensures PinsNamed(Store(w, id, lease, session, execution))
    ensures SessionsAccounted(Store(w, id, lease, session, execution), known)
  {
    hide NamedFor;
    assert Store(w, id, lease, session, execution).sessions.Keys == w.sessions.Keys;
  }

  /** The registry's promise, seen from the invariant. */
  lemma NewLeaseIsOffered(s: System, lease: Lease, session: string)
    requires Inv(s) && lease !in s.acquired && lease.token !in s.issued
    ensures Offered(s.view, lease, session)
  {
    TokenOfOwner(s, lease.token);
  }

  lemma TokenOfOwner(s: System, token: string)
    requires Inv(s)
    ensures token in s.view.owners ==> token in s.issued && s.issued[token] == s.view.owners[token]
  {
    if token in s.view.owners {
      var p :| p in Holders(s.view.pins, s.view.owners[token], token);
    }
  }

  lemma HeldLeaseIsOffered(s: System, r: nat)
    requires Inv(s) && r in s.requests && s.requests[r].Holding?
    ensures Offered(s.view, s.requests[r].lease, s.requests[r].owner)
  {
    TokenOfOwner(s, s.requests[r].lease.token);
    assert s.requests[r].lease in InFlight(s.requests);
  }

  lemma AdmitKeepsInv(s: System, e: Event)
    requires Inv(s) && Legal(s, e) && e.AdmitEvent?
    ensures Inv(Step(s, e))
  {
    hide Shrinks, Consistent, Quiet, Ledger, TokensBelong, SessionsAccounted, PinsNamed, Admit, Acquires, Offered,
      AdmissionId, NamedFor;
    var admission := AdmissionId(e.session, e.admission, e.random);
    if admission.Some? {
      var (id, sequence) := admission.value;
      if e.grant.Some? {
        NewLeaseIsOffered(s, e.grant.value, e.session);
      }
      ConsistentIsDistinct(s.view);
      AdmitPreserves(s.view, e.session, id, e.execution, sequence, e.now, e.grant);
      var w := AdmitParts(s.view, e.session, id, e.execution, sequence, e.now, e.grant);
      if Acquires(s.view, e.session, id, sequence, e.now, e.grant) {
        AcquiresGrant(s.view, e.session, id, sequence, e.now, e.grant);
        AdmissionNamed(e.session, e.admission, e.random, w.sessions[e.session].highWater);
        StoreKeepsInv(s, w, id, e.grant.value, e.session, e.execution, e.now);
      } else {
        InvShrinks(s, w);
      }
    }
  }

  lemma ConsistentIsDistinct(v: View)
    requires Consistent(v)
    ensures DistinctLeases(v.pins)
  {
  }

  lemma AdmissionNamed(session: string, admission: string, random: string, highWater: nat)
    requires ':' !in random && AdmissionId(session, admission, random).Some?
    requires AdmissionId(session, admission, random).value.1 <= highWater
    ensures NamedFor(AdmissionId(session, admission, random).value.0, session, highWater)
  {
    var (id, n) := AdmissionId(session, admission, random).value;
    assert admission == "" ==> id == random;
    assert admission != "" ==> 0 < n <= highWater && n <= MAX_UINT64 && id == AdmissionPin(session, n);
  }

  lemma AcquiresGrant(v: View, session: string, id: string, sequence: nat, now: int, grant: Option<Lease>)
    requires Acquires(v, session, id, sequence, now, grant)
    ensures grant.Some?
  {
  }

  lemma OpenKeepsInv(s: System, e: Event)
    requires Inv(s) && Legal(s, e) && e.OpenEvent?
    ensures Inv(Step(s, e))
  {
    hide SessionAgrees, OwnersAgree, DistinctLeases, Quiet, Ledger, NamedFor;
    OpenPreserves(s.view, e.id, e.now);
    DistinctOf(s.view, s.requests, s.acquired);
    SameLedger(s.view, OpenSession(s.view, e.id, e.now), s.requests, s.requests, s.acquired);
  }

  lemma SameLedger(v: View, w: View, before: map<nat, PinRequest>, after: map<nat, PinRequest>, acquired: set<Lease>)
    requires Ledger(v, before, acquired) && w.pins == v.pins && w.released == v.released
    requires InFlight(after) == InFlight(before) && DistinctRequests(after)
    ensures Ledger(w, after, acquired)
  {
  }

  lemma CheckedOwner(s: System, token: string, now: int)
    requires Inv(s)
    ensures var owner := PinOwner(s.view, token);
      owner in Sweep(s.view, owner, now).sessions ==> token in s.issued && s.issued[token] == owner
  {
    hide Ledger, SessionAgrees, OwnersAgree;
    TokenOfOwner(s, token);
  }

  lemma CheckPinKeepsInv(s: System, e: Event)
    requires Inv(s) && Legal(s, e) && e.CheckPinEvent?
    ensures Inv(Step(s, e))
  {
    hide Shrinks, Consistent, Quiet, Sweep, Ledger, PinOwner, SessionsAccounted;
    var owner := PinOwner(s.view, e.token);
    var view := Sweep(s.view, owner, e.now);
    CheckedOwner(s, e.token, e.now);
    ConsistentIsDistinct(s.view);
    SweepShrinks(s.view, owner, e.now);
    SweepPreserves(s.view, owner, e.now);
    InvShrinks(s, view);
    if owner in view.sessions {
      var next := s.requests[e.request := Checked(e.token, owner)];
      DistinctOf(view, s.requests, s.acquired);
      CheckedInFlight(s.requests, e.request, Checked(e.token, owner));
      SameLedger(view, view, s.requests, next, s.acquired);
    }
  }

  lemma DistinctOf(v: View, requests: map<nat, PinRequest>, acquired: set<Lease>)
    requires Ledger(v, requests, acquired)
    ensures DistinctRequests(requests)
  {
  }

  lemma CheckedInFlight(requests: map<nat, PinRequest>, r: nat, next: PinRequest)
    requires r !in requests && next.Checked?
    ensures InFlight(requests[r := next]) == InFlight(requests)
    ensures DistinctRequests(requests) ==> DistinctRequests(requests[r := next])
  {
    var after := requests[r := next];
    forall l | l in InFlight(requests) ensures l in InFlight(after) {
      var q :| q in requests && !requests[q].Checked? && requests[q].lease == l;
      assert after[q].lease == l;
    }
  }

  lemma AcquirePinKeepsInv(s: System, e: Event)
    requires Inv(s) && Legal(s, e) && e.AcquirePinEvent?
    ensures Inv(Step(s, e))
  {
    hide Consistent, Quiet, Ledger;
    DistinctOf(s.view, s.requests, s.acquired);
    if e.pinned.None? {
      InFlightWithout(s.requests, e.request);
      SameLedger(s.view, s.view, s.requests, s.requests - {e.request}, s.acquired);
    } else {
      LedgerAcquire(s.view, s.requests, e.request, Holding(e.pinned.value, s.requests[e.request].owner), s.acquired);
    }
  }

  lemma UnwantedKeepsInv(s: System, r: nat)
    requires Inv(s) && r in s.requests && s.requests[r].Holding?
    ensures Inv(s.(requests := s.requests[r := Unwanted(s.requests[r].lease)]))
  {
    hide Consistent, Quiet, Ledger, SessionsAccounted;
    var next := s.requests[r := Unwanted(s.requests[r].lease)];
    DistinctOf(s.view, s.requests, s.acquired);
    InFlightAfter(s.requests, r, Unwanted(s.requests[r].lease));
    assert s.requests[r].lease in InFlight(s.requests);
    SameLedger(s.view, s.view, s.requests, next, s.acquired);
  }

  lemma KeptPinKeepsInv(s: System, r: nat, id: string)
    requires Inv(s) && r in s.requests && s.requests[r].Holding?
    requires s.requests[r].owner in s.view.sessions && id !in s.view.pins && ':' !in id
    requires var after := Store(s.view, id, s.requests[r].lease, s.requests[r].owner, "");
      Consistent(after) && Quiet(after)
    ensures Inv(s.(view := Store(s.view, id, s.requests[r].lease, s.requests[r].owner, ""),
                   requests := s.requests - {r}))
  {
    hide Consistent, Quiet, Ledger;
    var lease, owner := s.requests[r].lease, s.requests[r].owner;
    var after := Store(s.view, id, lease, owner, "");
    StoredLeases(s.view.pins, id, Pin(lease, owner, ""));
    LedgerSettle(s.view, after, s.requests, r, s.acquired);
    assert after.sessions.Keys == s.view.sessions.Keys;
  }

  lemma KeepPinKeepsInv(s: System, e: Event)
    requires Inv(s) && Legal(s, e) && e.KeepPinEvent?
    ensures Inv(Step(s, e))
  {
    hide Shrinks, Consistent, Quiet, Sweep, Ledger, TokensBelong, SessionsAccounted, PinsNamed, Offered, Store;
    var lease, owner := s.requests[e.request].lease, s.requests[e.request].owner;
    UnwantedKeepsInv(s, e.request);
    if e.pinID.None? { return; }
    var id := e.pinID.value;
    HeldLeaseIsOffered(s, e.request);
    ConsistentIsDistinct(s.view);
    var w := Sweep(s.view, owner, e.now);
    SweepShrinks(s.view, owner, e.now);
    SweepPreserves(s.view, owner, e.now);
    KeepPinPreserves(s.view, id, lease, owner, e.now);
    InvShrinks(s, w);
    var swept := s.(view := w);
    if owner in w.sessions && !w.closed {
      ShrunkPins(s.view, w, id);
      KeptPinKeepsInv(swept, e.request, id);
    } else {
      UnwantedKeepsInv(swept, e.request);
    }
  }

  lemma ShrunkPins(v: View, w: View, id: string)
    requires Shrinks(v, w) && id !in v.pins
    ensures id !in w.pins
  {
  }

  lemma DropPinKeepsInv(s: System, e: Event)
    requires Inv(s) && Legal(s, e) && e.DropPinEvent?
    ensures Inv(Step(s, e))
  {
    hide Ledger, SessionAgrees, OwnersAgree, DistinctLeases;
    LedgerSettle(s.view, Step(s, e).view, s.requests, e.request, s.acquired);
  }

  lemma StepKeepsInv(s: System, e: Event)
    requires Inv(s) && Legal(s, e)
    ensures Inv(Step(s, e))
  {
    hide Shrinks, Inv, Consistent, Quiet, Heartbeat, CloseSessions, Sweep, Release, Expire, Shutdown;
    match e
    case OpenEvent(_, _) => OpenKeepsInv(s, e);
    case AdmitEvent(_, _, _, _, _, _) => AdmitKeepsInv(s, e);
    case CheckPinEvent(_, _, _) => CheckPinKeepsInv(s, e);
    case AcquirePinEvent(_, _) => AcquirePinKeepsInv(s, e);
    case KeepPinEvent(_, _, _) => KeepPinKeepsInv(s, e);
    case DropPinEvent(_) => DropPinKeepsInv(s, e);
    case _ => ShrinkingStepKeepsInv(s, e);
  }

  predicate OnlyShrinks(e: Event) {
    e.HeartbeatEvent? || e.CloseSessionEvent? || e.TouchEvent? || e.ReleaseEvent? || e.ExpireEvent? || e.ShutdownEvent?
  }

  lemma ShrinkingStepKeepsInv(s: System, e: Event)
    requires Inv(s) && Legal(s, e) && OnlyShrinks(e)
    ensures Inv(Step(s, e))
  {
    hide Shrinks, Consistent, Quiet, Heartbeat, CloseSessions, Sweep, Release, Shutdown,
      Ledger, TokensBelong, SessionsAccounted, PinsNamed;
    ConsistentIsDistinct(s.view);
    match e
    case HeartbeatEvent(session, now, later) =>
      HeartbeatShrinks(s.view, session, now, later);
      HeartbeatPreserves(s.view, session, now, later);
      InvShrinks(s, Heartbeat(s.view, session, now, later));
    case CloseSessionEvent(session) =>
      CloseSessionStep(s.view, session);
      InvShrinks(s, CloseSession(s.view, session));
    case TouchEvent(session, now) =>
      SweepShrinks(s.view, session, now);
      SweepPreserves(s.view, session, now);
      InvShrinks(s, Sweep(s.view, session, now));
    case ReleaseEvent(requester, id, now) =>
      ReleaseRequestShrinks(s.view, requester, id, now);
      ReleaseRequestPreserves(s.view, requester, id, now);
      InvShrinks(s, Release(s.view, requester, id, now).0);
    case ExpireEvent(asOf, now) =>
      CloseShrinks(s.view, Expired(s.view, asOf));
      ExpirePreserves(s.view, asOf);
      InvShrinks(s, Expire(s.view, asOf));
    case ShutdownEvent =>
      ShutdownShrinks(s.view);
      ShutdownPreserves(s.view);
      InvShrinks(s, Shutdown(s.view));
  }

  lemma CloseSessionStep(v: View, id: string)
    requires Consistent(v) && Quiet(v)
    ensures Shrinks(v, CloseSession(v, id))
    ensures Consistent(CloseSession(v, id)) && Quiet(CloseSession(v, id))
  {
    hide Consistent, Shrinks, CloseSessions;
    ConsistentIsDistinct(v);
    if id in v.sessions {
      CloseShrinks(v, {id});
      CloseSessionsPreserves(v, {id});
      SessionsAfterClose(v, {id});
      assert CloseSessions(v, {id}).closed == v.closed by { CloseKeepsFlag(v, {id}); }
    } else {
      Unmoved(v, v);
    }
  }

  lemma CloseKeepsFlag(v: View, ids: set<string>)
    ensures CloseSessions(v, ids).closed == v.closed
  {
  }
}
