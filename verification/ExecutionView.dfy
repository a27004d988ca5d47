/** The runner registry as a value: what one lock-protected section of the execution
    server does to its four maps, and the invariant that ties the maps together.

    `pins` is the only independent map. The pin sets and token counts of the sessions and
    the owner of each token are all determined by it; `Consistent` says how. */
module ExecutionView {
  import opened Outcomes
  import opened Decimal

  /** One reference to an admitted execution. `serial` tells leases of one token apart. */
  datatype Lease = Lease(serial: nat, token: string)

  datatype Pin = Pin(lease: Lease, session: string, execution: string)

  datatype Session = Session(expires: int, pins: set<string>, tokens: map<string, int>, highWater: nat)

  /** `released` counts the calls of Lease.Release, `revoked` the sessions reported to the
      execution registry as revoked. */
  datatype View = View(
    pins: map<string, Pin>,
    sessions: map<string, Session>,
    owners: map<string, string>,
    closed: bool,
    released: multiset<Lease>,
    revoked: set<string>)

  datatype AdmitError = SessionExpired | ForeignAdmission | Superseded | Refused | BadAdmission

  const SESSION_TTL := 60

  const EMPTY := View(map[], map[], map[], false, multiset{}, {})

  // ----- what the live pins determine

  function PinsOf(pins: map<string, Pin>, session: string): set<string> {
    set p | p in pins && pins[p].session == session
  }

  /** The pins through which one session holds one token. */
  function Holders(pins: map<string, Pin>, session: string, token: string): set<string> {
    set p | p in pins && pins[p].session == session && pins[p].lease.token == token
  }

  function LeasesOf(pins: map<string, Pin>): set<Lease> {
    set p | p in pins :: pins[p].lease
  }

  ghost predicate DistinctLeases(pins: map<string, Pin>) {
    forall p, q :: p in pins && q in pins && pins[p].lease == pins[q].lease ==> p == q
  }

  /** A session lists exactly its live pins, and counts for each token the pins holding it. */
  ghost predicate SessionAgrees(pins: map<string, Pin>, id: string, session: Session) {
    && session.pins == PinsOf(pins, id)
    && (forall t :: t in session.tokens <==> Holders(pins, id, t) != {})
    && (forall t :: t in session.tokens ==> session.tokens[t] == |Holders(pins, id, t)|)
  }

  /** A token is owned exactly while some pin holds it, by the session of that pin. */
  ghost predicate OwnersAgree(pins: map<string, Pin>, owners: map<string, string>) {
    && (forall p :: p in pins ==>
          pins[p].lease.token in owners && owners[pins[p].lease.token] == pins[p].session)
    && (forall t :: t in owners ==> Holders(pins, owners[t], t) != {})
  }

  ghost predicate Consistent(v: View) {
    && (forall p :: p in v.pins ==> v.pins[p].session in v.sessions)
    && (forall id :: id in v.sessions ==> SessionAgrees(v.pins, id, v.sessions[id]))
    && OwnersAgree(v.pins, v.owners)
    && DistinctLeases(v.pins)
  }

  /** After shutdown no session is left. It holds between lock sections, not inside Close. */
  ghost predicate Quiet(v: View) {
    v.closed ==> v.sessions == map[]
  }

  // ----- the locked helpers

  function Count(tokens: map<string, int>, token: string): int {
    if token in tokens then tokens[token] else 0
  }

  function Hold(s: Session, id: string, token: string): Session {
    Session(s.expires, s.pins + {id}, s.tokens[token := Count(s.tokens, token) + 1], s.highWater)
  }

  function Store(v: View, id: string, lease: Lease, session: string, execution: string): View
    requires session in v.sessions
  {
    View(v.pins[id := Pin(lease, session, execution)],
         v.sessions[session := Hold(v.sessions[session], id, lease.token)],
         v.owners[lease.token := session],
         v.closed, v.released, v.revoked)
  }

  function Drop(s: Session, id: string, token: string): Session {
    var count := Count(s.tokens, token) - 1;
    Session(s.expires, s.pins - {id},
            if count == 0 then s.tokens - {token} else s.tokens[token := count], s.highWater)
  }

  function ReleasePin(v: View, id: string): View {
    if id !in v.pins then v else
      var pin := v.pins[id];
      var token := pin.lease.token;
      var released := v.released + multiset{pin.lease};
      if pin.session !in v.sessions
      then View(v.pins - {id}, v.sessions, v.owners, v.closed, released, v.revoked)
      else
        var session := v.sessions[pin.session];
        var owners := if Count(session.tokens, token) - 1 == 0 then v.owners - {token} else v.owners;
        View(v.pins - {id}, v.sessions[pin.session := Drop(session, id, token)], owners,
             v.closed, released, v.revoked)
  }

  function PinsOfAll(pins: map<string, Pin>, sessions: set<string>): map<string, Pin> {
    map p | p in pins && pins[p].session in sessions :: pins[p]
  }

  /** Ending sessions, whatever loop does it: their pins go, each lease is released once,
      their tokens lose their owner and each session is revoked. */
  function CloseSessions(v: View, ids: set<string>): View {
    var gone := PinsOfAll(v.pins, ids);
    View(v.pins - gone.Keys,
         v.sessions - ids,
         map t | t in v.owners && v.owners[t] !in ids :: v.owners[t],
         v.closed,
         v.released + multiset(LeasesOf(gone)),
         v.revoked + ids)
  }

  function CloseSession(v: View, id: string): View {
    if id in v.sessions then CloseSessions(v, {id}) else v
  }

  function Expired(v: View, now: int): set<string> {
    set id | id in v.sessions && v.sessions[id].expires <= now
  }

  /** The state after liveSessionLocked: the session is usable when it is still there. */
  function Sweep(v: View, id: string, now: int): View {
    if id in Expired(v, now) then CloseSession(v, id) else v
  }

  // ----- the lock sections of the request handlers

  function OpenSession(v: View, id: string, now: int): View {
    if v.closed then v
    else v.(sessions := v.sessions[id := Session(now + SESSION_TTL, {}, map[], 0)])
  }

  function Heartbeat(v: View, id: string, now: int, later: int): View {
    var w := Sweep(v, id, now);
    if id in w.sessions
    then w.(sessions := w.sessions[id := w.sessions[id].(expires := later + SESSION_TTL)])
    else w
  }

  /** The pin id of a caller-chosen admission sequence. */
  function AdmissionPin(session: string, sequence: nat): string {
    session + ":" + FormatUint(sequence)
  }

  /** The pin id and sequence of an admit request: None when the request is malformed.
      Without a sequence the id is random. */
  function AdmissionId(session: string, admission: string, random: string): Option<(string, nat)> {
    if admission == "" then
      if |random| > 256 then None else Some((random, 0))
    else
      var sequence := ParseUint(admission);
      if sequence.None? || sequence.value == 0 || |AdmissionPin(session, sequence.value)| > 256 then None
      else Some((AdmissionPin(session, sequence.value), sequence.value))
  }

  /** `grant` is the execution registry's answer, asked for only when it is needed. */
  function Admit(v: View, session: string, id: string, execution: string, sequence: nat, now: int,
                 grant: Option<Lease>): (View, Result<string, AdmitError>)
  {
    var w := Sweep(v, session, now);
    if session !in w.sessions || w.closed then (w, Err(SessionExpired))
    else if id in w.pins then
      if w.pins[id].session != session || w.pins[id].execution != execution
      then (w, Err(ForeignAdmission))
      else (w, Ok(w.pins[id].lease.token))
    else if sequence != 0 && sequence <= w.sessions[session].highWater then (w, Err(Superseded))
    else
      var raised := if sequence == 0 then w else Raise(w, session, sequence);
      if grant.None? then (raised, Err(Refused))
      else (Store(raised, id, grant.value, session, execution), Ok(grant.value.token))
  }

  /** The admissions for which the registry was asked and granted a lease. */
  predicate Acquires(v: View, session: string, id: string, sequence: nat, now: int, grant: Option<Lease>) {
    var w := Sweep(v, session, now);
    && session in w.sessions && !w.closed && id !in w.pins
    && (sequence == 0 || w.sessions[session].highWater < sequence)
    && grant.Some?
  }

  function Raise(v: View, session: string, sequence: nat): View
    requires session in v.sessions
  {
    v.(sessions := v.sessions[session := v.sessions[session].(highWater := sequence)])
  }

  /** A released admission id moves the watermark, whether or not it was ever admitted. */
  function Cancel(v: View, session: string, sequence: nat): View
    requires session in v.sessions
  {
    if sequence > v.sessions[session].highWater then Raise(v, session, sequence) else v
  }

  /** First section of the pin request: who owns the token, and is that session usable? */
  function PinOwner(v: View, token: string): string {
    if token in v.owners then v.owners[token] else ""
  }

  /** Second section of the pin request. */
  function KeepPin(v: View, id: string, lease: Lease, session: string, now: int): (View, bool) {
    var w := Sweep(v, session, now);
    if session !in w.sessions || w.closed then (w, false)
    else (Store(w, id, lease, session, ""), true)
  }

  /** The admission sequence that a pin id names for a session: None when it is not one of
      the session's admission ids, Some(None) when it has the prefix but no valid number. */
  function NamedSequence(session: string, id: string): Option<Option<nat>> {
    if !(session + ":" <= id) then None
    else
      var sequence := ParseUint(id[|session| + 1..]);
      if sequence == Some(0) then Some(None) else Some(sequence)
  }

  lemma NamesWithPrefix(session: string, id: string)
    ensures NamedSequence(session, id).Some? <==> session + ":" <= id
  {
  }

  datatype ReleaseStatus = Released | ForeignPin | BadPinId | PinIdTooLong

  function Release(v: View, requester: string, id: string, now: int): (View, ReleaseStatus) {
    if |id| > 256 then (v, PinIdTooLong)
    else if id in v.pins && requester != "" && requester != v.pins[id].session then (v, ForeignPin)
    else
      var owner := if id in v.pins then v.pins[id].session else requester;
      var w := Sweep(v, owner, now);
      if owner in w.sessions && NamedSequence(owner, id).Some? then
        match NamedSequence(owner, id).value
        case None => (w, BadPinId)
        case Some(sequence) =>
          (ReleasePin(Cancel(w, owner, sequence), id), Released)
      else (ReleasePin(w, id), Released)
  }

  function Expire(v: View, now: int): View {
    CloseSessions(v, Expired(v, now))
  }

  function Shutdown(v: View): View {
    CloseSessions(v.(closed := true), v.sessions.Keys)
  }

  // ----- preservation

  lemma OwnersDetermined(v: View, w: View)
    requires OwnersAgree(v.pins, v.owners) && OwnersAgree(w.pins, w.owners) && v.pins == w.pins
    ensures v.owners == w.owners
  {
    forall t | t in v.owners ensures t in w.owners && w.owners[t] == v.owners[t] {
      var p :| p in Holders(v.pins, v.owners[t], t);
    }
    forall t | t in w.owners ensures t in v.owners {
      var p :| p in Holders(w.pins, w.owners[t], t);
    }
  }

  /** Pin maps that differ only in a pin of another session look alike to this session. */
  lemma SameForOthers(a: map<string, Pin>, b: map<string, Pin>, id: string, session: string)
    requires forall p :: p != id ==> (p in a <==> p in b) && (p in a ==> a[p] == b[p])
    requires id in a ==> a[id].session != session
    requires id in b ==> b[id].session != session
    ensures PinsOf(a, session) == PinsOf(b, session)
    ensures forall t :: Holders(a, session, t) == Holders(b, session, t)
  {
  }

  lemma HoldersAfterStore(pins: map<string, Pin>, id: string, pin: Pin)
    requires id !in pins
    ensures PinsOf(pins[id := pin], pin.session) == PinsOf(pins, pin.session) + {id}
    ensures Holders(pins[id := pin], pin.session, pin.lease.token)
         == Holders(pins, pin.session, pin.lease.token) + {id}
    ensures forall t :: t != pin.lease.token ==>
              Holders(pins[id := pin], pin.session, t) == Holders(pins, pin.session, t)
  {
  }

  lemma HoldersAfterRelease(pins: map<string, Pin>, id: string)
    requires id in pins
    ensures var pin := pins[id];
      && PinsOf(pins - {id}, pin.session) == PinsOf(pins, pin.session) - {id}
      && id in Holders(pins, pin.session, pin.lease.token)
      && Holders(pins - {id}, pin.session, pin.lease.token)
         == Holders(pins, pin.session, pin.lease.token) - {id}
      && (forall t :: t != pin.lease.token ==>
            Holders(pins - {id}, pin.session, t) == Holders(pins, pin.session, t))
  {
  }

  lemma StoreAgrees(v: View, id: string, lease: Lease, session: string, execution: string)
    requires session in v.sessions && id !in v.pins && SessionAgrees(v.pins, session, v.sessions[session])
    ensures var w := Store(v, id, lease, session, execution);
            SessionAgrees(w.pins, session, w.sessions[session])
  {
    var w := Store(v, id, lease, session, execution);
    HoldersAfterStore(v.pins, id, Pin(lease, session, execution));
    var was, now := v.sessions[session], w.sessions[session];
    forall t ensures t in now.tokens <==> Holders(w.pins, session, t) != {} {
      assert t in was.tokens <==> Holders(v.pins, session, t) != {};
    }
    forall t | t in now.tokens ensures now.tokens[t] == |Holders(w.pins, session, t)| {
      assert t in was.tokens <==> Holders(v.pins, session, t) != {};
    }
  }

  lemma StoreOwners(v: View, id: string, lease: Lease, session: string, execution: string)
    requires OwnersAgree(v.pins, v.owners) && session in v.sessions && id !in v.pins
    requires lease.token in v.owners ==> v.owners[lease.token] == session
    ensures var w := Store(v, id, lease, session, execution); OwnersAgree(w.pins, w.owners)
  {
    var w := Store(v, id, lease, session, execution);
    assert id in Holders(w.pins, session, lease.token);
    forall t | t in v.owners ensures Holders(w.pins, w.owners[t], t) != {} {
      var p :| p in Holders(v.pins, v.owners[t], t);
      assert p in Holders(w.pins, w.owners[t], t);
    }
  }

  lemma StoreDistinct(pins: map<string, Pin>, id: string, pin: Pin)
    requires DistinctLeases(pins) && id !in pins && pin.lease !in LeasesOf(pins)
    ensures DistinctLeases(pins[id := pin])
  {
    assert forall p :: p in pins ==> pins[p].lease in LeasesOf(pins);
  }

  /** A change confined to one session's pins leaves the other sessions in agreement. */
  lemma OthersAgree(a: map<string, Pin>, b: map<string, Pin>, id: string, session: string, other: string,
                    value: Session)
    requires SessionAgrees(a, other, value) && other != session
    requires forall p :: p != id ==> (p in a <==> p in b) && (p in a ==> a[p] == b[p])
    requires id in a ==> a[id].session == session
    requires id in b ==> b[id].session == session
    ensures SessionAgrees(b, other, value)
  {
    SameForOthers(a, b, id, other);
  }

  lemma StorePreserves(v: View, id: string, lease: Lease, session: string, execution: string)
    requires Consistent(v) && session in v.sessions && id !in v.pins
    requires lease !in LeasesOf(v.pins)
    requires lease.token in v.owners ==> v.owners[lease.token] == session
    ensures Consistent(Store(v, id, lease, session, execution))
  {
    hide SessionAgrees, OwnersAgree, DistinctLeases, LeasesOf, Hold;
    var w := Store(v, id, lease, session, execution);
    StoreAgrees(v, id, lease, session, execution);
    StoreOwners(v, id, lease, session, execution);
    StoreDistinct(v.pins, id, Pin(lease, session, execution));
    forall s | s in w.sessions && s != session ensures SessionAgrees(w.pins, s, w.sessions[s]) {
      OthersAgree(v.pins, w.pins, id, session, s, w.sessions[s]);
    }
  }

  /** A session that drops a pin still counts what the remaining pins hold. */
  lemma DropAgrees(pins: map<string, Pin>, id: string, was: Session)
    requires id in pins && SessionAgrees(pins, pins[id].session, was)
    ensures SessionAgrees(pins - {id}, pins[id].session, Drop(was, id, pins[id].lease.token))
  {
    var session := pins[id].session;
    var token := pins[id].lease.token;
    var now := Drop(was, id, token);
    HoldersAfterRelease(pins, id);
    var before := Holders(pins, session, token);
    assert |before - {id}| == |before| - 1;
    assert was.tokens[token] == |before|;
    forall t ensures t in now.tokens <==> Holders(pins - {id}, session, t) != {} {
      assert t in was.tokens <==> Holders(pins, session, t) != {};
    }
    forall t | t in now.tokens ensures now.tokens[t] == |Holders(pins - {id}, session, t)| {
      assert t in was.tokens <==> Holders(pins, session, t) != {};
    }
  }

  lemma ReleaseAgrees(v: View, id: string)
    requires id in v.pins && v.pins[id].session in v.sessions
    requires SessionAgrees(v.pins, v.pins[id].session, v.sessions[v.pins[id].session])
    ensures var w := ReleasePin(v, id); var s := v.pins[id].session; SessionAgrees(w.pins, s, w.sessions[s])
  {
    hide SessionAgrees, Drop;
    DropAgrees(v.pins, id, v.sessions[v.pins[id].session]);
  }

  lemma ReleaseOwners(v: View, id: string)
    requires OwnersAgree(v.pins, v.owners) && id in v.pins && v.pins[id].session in v.sessions
    requires SessionAgrees(v.pins, v.pins[id].session, v.sessions[v.pins[id].session])
    ensures var w := ReleasePin(v, id); OwnersAgree(w.pins, w.owners)
  {
    var w := ReleasePin(v, id);
    var session := v.pins[id].session;
    var token := v.pins[id].lease.token;
    var before := Holders(v.pins, session, token);
    assert id in before;
    var after := before - {id};
    assert |after| == |before| - 1;
    assert after == {} <==> v.sessions[session].tokens[token] == 1;
    hide SessionAgrees, Drop, Count;
    forall p | p in w.pins ensures w.pins[p].lease.token in w.owners
                                   && w.owners[w.pins[p].lease.token] == w.pins[p].session {
      if w.pins[p].lease.token == token {
        assert p in after;
      }
    }
    forall t | t in w.owners ensures Holders(w.pins, w.owners[t], t) != {} {
      if t == token {
        assert Holders(w.pins, session, token) == after;
      } else {
        var p :| p in Holders(v.pins, v.owners[t], t);
        assert p in Holders(w.pins, w.owners[t], t);
      }
    }
  }

  lemma ReleasePreserves(v: View, id: string)
    requires Consistent(v)
    ensures Consistent(ReleasePin(v, id))
  {
    hide SessionAgrees, OwnersAgree;
    if id in v.pins {
      var w := ReleasePin(v, id);
      ReleaseAgrees(v, id);
      ReleaseOwners(v, id);
      forall s | s in w.sessions && s != v.pins[id].session ensures SessionAgrees(w.pins, s, w.sessions[s]) {
        OthersAgree(v.pins, w.pins, id, v.pins[id].session, s, w.sessions[s]);
      }
    }
  }

  lemma HoldersAfterClose(pins: map<string, Pin>, gone: set<string>, session: string)
    requires forall p :: p in gone && p in pins ==> pins[p].session != session
    ensures PinsOf(pins - gone, session) == PinsOf(pins, session)
    ensures forall t :: Holders(pins - gone, session, t) == Holders(pins, session, t)
  {
  }

  lemma CloseSessionsPreserves(v: View, ids: set<string>)
    requires Consistent(v)
    ensures Consistent(CloseSessions(v, ids))
  {
    var w := CloseSessions(v, ids);
    var gone := PinsOfAll(v.pins, ids).Keys;
    forall s | s in w.sessions ensures SessionAgrees(w.pins, s, w.sessions[s]) {
      assert SessionAgrees(v.pins, s, v.sessions[s]);
      HoldersAfterClose(v.pins, gone, s);
    }
    forall t | t in w.owners ensures Holders(w.pins, w.owners[t], t) != {} {
      HoldersAfterClose(v.pins, gone, v.owners[t]);
    }
  }

  lemma SweepPreserves(v: View, id: string, now: int)
    requires Consistent(v)
    ensures Consistent(Sweep(v, id, now))
    ensures Quiet(v) ==> Quiet(Sweep(v, id, now))
  {
    CloseSessionsPreserves(v, {id});
  }

  // ----- closing in one go is closing one by one

  lemma DisjointLeases(a: map<string, Pin>, b: map<string, Pin>)
    requires a.Keys !! b.Keys && DistinctLeases(a + b)
    ensures multiset(LeasesOf(a + b)) == multiset(LeasesOf(a)) + multiset(LeasesOf(b))
  {
    forall l | l in LeasesOf(a) ensures l !in LeasesOf(b) && l in LeasesOf(a + b) {
      var p :| p in a && a[p].lease == l;
      assert (a + b)[p].lease == l;
      assert forall q :: q in b ==> (a + b)[q].lease == b[q].lease;
    }
    forall l | l in LeasesOf(b) ensures l in LeasesOf(a + b) {
      var p :| p in b && b[p].lease == l;
      assert (a + b)[p].lease == l;
    }
    assert LeasesOf(a + b) == LeasesOf(a) + LeasesOf(b);
  }

  lemma SessionsAfterClose(v: View, ids: set<string>)
    ensures CloseSessions(v, ids).sessions == v.sessions - ids
  {
  }

  lemma CloseNone(v: View)
    ensures CloseSessions(v, {}) == v
  {
    assert PinsOfAll(v.pins, {}) == map[];
  }

  lemma CloseOneMoreLeases(pins: map<string, Pin>, done: set<string>, id: string)
    requires DistinctLeases(pins) && id !in done
    ensures var rest := pins - PinsOfAll(pins, done).Keys;
      && rest - PinsOfAll(rest, {id}).Keys == pins - PinsOfAll(pins, done + {id}).Keys
      && multiset(LeasesOf(PinsOfAll(pins, done + {id})))
         == multiset(LeasesOf(PinsOfAll(pins, done))) + multiset(LeasesOf(PinsOfAll(rest, {id})))
  {
    var rest := pins - PinsOfAll(pins, done).Keys;
    var a, b := PinsOfAll(pins, done), PinsOfAll(rest, {id});
    assert PinsOfAll(pins, done + {id}) == a + b;
    DisjointLeases(a, b);
  }

  lemma CloseOneMore(v: View, done: set<string>, id: string)
    requires DistinctLeases(v.pins) && id !in done
    ensures CloseSessions(CloseSessions(v, done), {id}) == CloseSessions(v, done + {id})
  {
    hide LeasesOf, PinsOfAll, DistinctLeases;
    CloseOneMoreLeases(v.pins, done, id);
    var x, y := CloseSessions(CloseSessions(v, done), {id}), CloseSessions(v, done + {id});
    assert x.sessions == y.sessions;
    assert x.owners == y.owners;
  }

  // ----- the loop that ends one session releases its pins one at a time

  /** The state inside that loop: the session still lists what is left to release. */
  ghost predicate Closing(start: View, v: View, id: string) {
    && id in v.sessions && v.sessions[id].pins <= PinsOf(start.pins, id)
    && v.pins == start.pins - (PinsOf(start.pins, id) - v.sessions[id].pins)
    && v.sessions - {id} == start.sessions - {id}
    && v.closed == start.closed && v.revoked == start.revoked
    && v.released + multiset(LeasesOf(PinsOfAll(v.pins, {id})))
       == start.released + multiset(LeasesOf(PinsOfAll(start.pins, {id})))
  }

  lemma ClosingLeases(pins: map<string, Pin>, id: string, pin: string)
    requires DistinctLeases(pins) && pin in pins && pins[pin].session == id
    ensures multiset(LeasesOf(PinsOfAll(pins, {id})))
         == multiset(LeasesOf(PinsOfAll(pins - {pin}, {id}))) + multiset{pins[pin].lease}
  {
    hide LeasesOf, DistinctLeases;
    var one := map[pin := pins[pin]];
    var rest := PinsOfAll(pins - {pin}, {id});
    SplitPins(pins, id, pin);
    SomeDistinct(pins, {id});
    DisjointLeases(rest, one);
    LeaseOfOne(pin, pins[pin]);
  }

  lemma SplitPins(pins: map<string, Pin>, id: string, pin: string)
    requires pin in pins && pins[pin].session == id
    ensures PinsOfAll(pins, {id}) == PinsOfAll(pins - {pin}, {id}) + map[pin := pins[pin]]
  {
  }

  lemma SomeDistinct(pins: map<string, Pin>, ids: set<string>)
    requires DistinctLeases(pins)
    ensures DistinctLeases(PinsOfAll(pins, ids))
  {
  }

  lemma LeaseOfOne(id: string, pin: Pin)
    ensures LeasesOf(map[id := pin]) == {pin.lease}
  {
    var one := map[id := pin];
    assert one[id].lease in LeasesOf(one);
  }

  lemma ClosingPins(pins: map<string, Pin>, of: set<string>, left: set<string>, pin: string)
    requires pin in left && left <= of
    ensures pins - (of - left) - {pin} == pins - (of - (left - {pin}))
  {
  }

  lemma ClosingReleases(start: View, v: View, id: string, pin: string)
    requires Closing(start, v, id) && v.sessions[id].pins == PinsOf(v.pins, id)
    requires DistinctLeases(v.pins) && pin in v.sessions[id].pins
    ensures Closing(start, ReleasePin(v, pin), id)
  {
    ClosingLeases(v.pins, id, pin);
    assert ReleasePin(v, pin).sessions - {id} == v.sessions - {id};
    ClosingPins(start.pins, PinsOf(start.pins, id), v.sessions[id].pins, pin);
  }

  lemma ClosingStep(start: View, v: View, id: string, pin: string)
    requires Consistent(v) && Closing(start, v, id) && pin in v.sessions[id].pins
    ensures Consistent(ReleasePin(v, pin))
    ensures Closing(start, ReleasePin(v, pin), id)
    ensures ReleasePin(v, pin).sessions[id].pins == v.sessions[id].pins - {pin}
  {
    assert SessionAgrees(v.pins, id, v.sessions[id]);
    ClosingReleases(start, v, id, pin);
    ReleasePreserves(v, pin);
  }

  lemma ClosingBegin(start: View, id: string)
    requires Consistent(start) && id in start.sessions
    ensures Closing(start, start, id)
  {
    assert SessionAgrees(start.pins, id, start.sessions[id]);
    assert start.pins == start.pins - (PinsOf(start.pins, id) - start.sessions[id].pins);
  }

  lemma ClosingEndFields(start: View, v: View, id: string)
    requires Closing(start, v, id) && v.sessions[id].pins == {}
    ensures var done := CloseSessions(start, {id});
      && done.pins == v.pins && done.sessions == v.sessions - {id}
      && done.closed == v.closed && done.released == v.released && done.revoked == v.revoked + {id}
  {
    assert PinsOfAll(start.pins, {id}).Keys == PinsOf(start.pins, id);
    assert PinsOfAll(v.pins, {id}) == map[];
    hide PinsOfAll, PinsOf;
    assert LeasesOf(map[]) == {};
  }

  lemma ClosingEnd(start: View, v: View, id: string)
    requires Consistent(start) && Consistent(v) && Closing(start, v, id) && v.sessions[id].pins == {}
    ensures CloseSessions(start, {id}) == v.(sessions := v.sessions - {id}, revoked := v.revoked + {id})
    ensures Consistent(CloseSessions(start, {id}))
  {
    CloseSessionsPreserves(start, {id});
    ClosingEndFields(start, v, id);
    OwnersDetermined(CloseSessions(start, {id}), v);
  }

  // ----- every lock section keeps the maps consistent

  /** What the execution registry promises about a lease it hands to this session. */
  ghost predicate Offered(v: View, lease: Lease, session: string) {
    && lease !in LeasesOf(v.pins)
    && (lease.token in v.owners ==> v.owners[lease.token] == session)
  }

  lemma OfferedAfterSweep(v: View, id: string, now: int, lease: Lease, session: string)
    requires Offered(v, lease, session)
    ensures Offered(Sweep(v, id, now), lease, session)
  {
    var w := Sweep(v, id, now);
    assert forall p :: p in w.pins ==> p in v.pins && w.pins[p] == v.pins[p];
  }

  /** Renewing a session or raising its watermark does not touch what the maps share. */
  lemma AdjustPreserves(v: View, id: string, session: Session)
    requires Consistent(v) && id in v.sessions
    requires session.pins == v.sessions[id].pins && session.tokens == v.sessions[id].tokens
    ensures Consistent(v.(sessions := v.sessions[id := session]))
  {
    var w := v.(sessions := v.sessions[id := session]);
    forall s | s in w.sessions ensures SessionAgrees(w.pins, s, w.sessions[s]) {
      assert SessionAgrees(v.pins, s, v.sessions[s]);
    }
  }

  lemma OpenPreserves(v: View, id: string, now: int)
    requires Consistent(v) && Quiet(v) && id !in v.sessions
    ensures Consistent(OpenSession(v, id, now)) && Quiet(OpenSession(v, id, now))
  {
    if !v.closed {
      var w := OpenSession(v, id, now);
      assert PinsOf(w.pins, id) == {};
      forall t ensures Holders(w.pins, id, t) == {} {
      }
    }
  }

  lemma HeartbeatPreserves(v: View, id: string, now: int, later: int)
    requires Consistent(v) && Quiet(v)
    ensures Consistent(Heartbeat(v, id, now, later)) && Quiet(Heartbeat(v, id, now, later))
  {
    hide Consistent;
    SweepPreserves(v, id, now);
    var w := Sweep(v, id, now);
    if id in w.sessions {
      AdjustPreserves(w, id, w.sessions[id].(expires := later + SESSION_TTL));
    }
  }

  lemma AdmitPreserves(v: View, session: string, id: string, execution: string, sequence: nat, now: int,
                       grant: Option<Lease>)
    requires Consistent(v) && Quiet(v)
    requires grant.Some? ==> Offered(v, grant.value, session)
    ensures var w := Admit(v, session, id, execution, sequence, now, grant).0; Consistent(w) && Quiet(w)
  {
    hide Consistent;
    SweepPreserves(v, session, now);
    var w := Sweep(v, session, now);
    if session in w.sessions && !w.closed && id !in w.pins
       && (sequence == 0 || w.sessions[session].highWater < sequence) {
      var raised := if sequence == 0 then w else Raise(w, session, sequence);
      AdjustPreserves(w, session, w.sessions[session].(highWater := sequence));
      if grant.Some? {
        OfferedAfterSweep(v, session, now, grant.value, session);
        StorePreserves(raised, id, grant.value, session, execution);
      }
    }
  }

  lemma KeepPinPreserves(v: View, id: string, lease: Lease, session: string, now: int)
    requires Consistent(v) && Quiet(v) && id !in v.pins && Offered(v, lease, session)
    ensures var w := KeepPin(v, id, lease, session, now).0; Consistent(w) && Quiet(w)
  {
    hide Consistent;
    SweepPreserves(v, session, now);
    OfferedAfterSweep(v, session, now, lease, session);
    var w := Sweep(v, session, now);
    if session in w.sessions && !w.closed {
      StorePreserves(w, id, lease, session, "");
    }
  }

  lemma ReleaseRequestPreserves(v: View, requester: string, id: string, now: int)
    requires Consistent(v) && Quiet(v)
    ensures var w := Release(v, requester, id, now).0; Consistent(w) && Quiet(w)
  {
    hide Consistent;
    var owner := if id in v.pins then v.pins[id].session else requester;
    SweepPreserves(v, owner, now);
    var w := Sweep(v, owner, now);
    ReleasePreserves(w, id);
    if owner in w.sessions && NamedSequence(owner, id).Some? && NamedSequence(owner, id).value.Some? {
      var sequence := NamedSequence(owner, id).value.value;
      AdjustPreserves(w, owner, w.sessions[owner].(highWater := sequence));
      ReleasePreserves(Cancel(w, owner, sequence), id);
    }
  }

  lemma ExpirePreserves(v: View, now: int)
    requires Consistent(v) && Quiet(v)
    ensures Consistent(Expire(v, now)) && Quiet(Expire(v, now))
  {
    CloseSessionsPreserves(v, Expired(v, now));
  }

  lemma ShutdownPreserves(v: View)
    requires Consistent(v)
    ensures Consistent(v.(closed := true))
    ensures var w := Shutdown(v); Consistent(w) && Quiet(w) && w.closed
  {
    CloseSessionsPreserves(v.(closed := true), v.sessions.Keys);
  }

  /** A closed server holds nothing. */
  lemma ClosedIsEmpty(v: View)
    requires Consistent(v) && Quiet(v) && v.closed
    ensures v.sessions == map[] && v.pins == map[] && v.owners == map[]
  {
  }
}
