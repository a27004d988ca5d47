/** What holds over every run of the execution server. */
module ExecutionTheorems {
  import opened Outcomes
  import opened Decimal
  import opened ExecutionView
  import opened ExecutionSystem

  lemma InitialInv()
    ensures Inv(INIT)
  {
  }

  lemma {:induction false} RunKeepsInv(s: System, events: seq<Event>)
    requires Inv(s) && Runs(s, events)
    ensures Inv(After(s, events))
    decreases |events|
  {
    hide Inv, Legal, Step;
    if events != [] {
      StepKeepsInv(s, events[0]);
      RunKeepsInv(Step(s, events[0]), events[1..]);
    }
  }

  /** The pin sets, the token counts and the owners are exactly what the live pins say. */
  ghost predicate MapsAgree(v: View) {
    && (forall id :: id in v.sessions ==> v.sessions[id].pins == PinsOf(v.pins, id))
    && (forall id, t :: id in v.sessions ==>
          Count(v.sessions[id].tokens, t) == |Holders(v.pins, id, t)|
          && (t in v.sessions[id].tokens <==> Holders(v.pins, id, t) != {}))
    && (forall t :: t in v.owners <==> exists p :: p in v.pins && v.pins[p].lease.token == t)
    && (forall p :: p in v.pins ==>
          v.pins[p].session in v.sessions && v.owners[v.pins[p].lease.token] == v.pins[p].session)
  }

  lemma ConsistentMapsAgree(v: View)
    requires Consistent(v)
    ensures MapsAgree(v)
  {
    hide DistinctLeases, SessionAgrees;
    forall t | t in v.owners ensures exists p :: p in v.pins && v.pins[p].lease.token == t {
      var p :| p in Holders(v.pins, v.owners[t], t);
    }
    hide Holders, PinsOf;
    forall id, t | id in v.sessions
      ensures v.sessions[id].pins == PinsOf(v.pins, id)
      ensures Count(v.sessions[id].tokens, t) == |Holders(v.pins, id, t)|
              && (t in v.sessions[id].tokens <==> Holders(v.pins, id, t) != {})
    {
      SessionCounts(v.pins, id, v.sessions[id], t);
    }
  }

  lemma SessionCounts(pins: map<string, Pin>, id: string, session: Session, t: string)
    requires SessionAgrees(pins, id, session)
    ensures session.pins == PinsOf(pins, id)
    ensures Count(session.tokens, t) == |Holders(pins, id, t)| && (t in session.tokens <==> Holders(pins, id, t) != {})
  {
    hide Holders, PinsOf;
  }

  lemma MapsAgreeAlways(events: seq<Event>)
    requires Runs(INIT, events)
    ensures MapsAgree(After(INIT, events).view)
  {
    hide Consistent, MapsAgree;
    InitialInv();
    RunKeepsInv(INIT, events);
    ConsistentMapsAgree(After(INIT, events).view);
  }

  /** No lease is lost or released twice: at any moment each lease ever obtained is in one live
      pin, in flight in one pin request, or has been released exactly once. */
  lemma LeasesAreConserved(events: seq<Event>)
    requires Runs(INIT, events)
    ensures var s := After(INIT, events);
      && multiset(s.acquired) == multiset(LeasesOf(s.view.pins)) + multiset(InFlight(s.requests)) + s.view.released
      && (forall l :: s.view.released[l] <= 1)
      && DistinctLeases(s.view.pins) && DistinctRequests(s.requests)
  {
    hide LeasesOf, InFlight, Consistent;
    InitialInv();
    RunKeepsInv(INIT, events);
    var s := After(INIT, events);
    ConsistentIsDistinct(s.view);
    BalancedSum(LeasesOf(s.view.pins), InFlight(s.requests), s.view.released, s.acquired);
  }

  lemma BalancedSum(live: set<Lease>, flight: set<Lease>, released: multiset<Lease>, acquired: set<Lease>)
    requires Balanced(live, flight, released, acquired)
    ensures multiset(acquired) == multiset(live) + multiset(flight) + released
    ensures forall l :: released[l] <= 1
  {
    assert acquired == live + flight + (acquired - live - flight);
  }

  /** After shutdown the server is empty for good, and once the pin requests that raced with it
      have finished, every lease ever obtained has been released. */
  lemma {:induction false} ShutdownIsFinal(s: System, events: seq<Event>)
    requires Inv(s) && s.view.closed && Runs(s, events)
    ensures var w := After(s, events);
      && w.view.closed && w.view.sessions == map[] && w.view.pins == map[] && w.view.owners == map[]
      && (w.requests == map[] ==> w.view.released == multiset(w.acquired))
    decreases |events|
  {
    if events == [] {
      hide Consistent, Ledger;
      ClosedIsEmpty(s.view);
      assert s.requests == map[] ==> s.view.released == multiset(s.acquired) by {
        DrainedLedger(s.view, s.requests, s.acquired);
      }
    } else {
      hide Inv, Legal, Step;
      StepKeepsInv(s, events[0]);
      StepFacts(s, events[0]);
      ShutdownIsFinal(Step(s, events[0]), events[1..]);
    }
  }

  lemma DrainedLedger(v: View, requests: map<nat, PinRequest>, acquired: set<Lease>)
    requires Ledger(v, requests, acquired) && v.pins == map[]
    ensures requests == map[] ==> v.released == multiset(acquired)
  {
    assert LeasesOf(v.pins) == {};
    if requests == map[] {
      assert InFlight(requests) == {};
      assert acquired - {} - {} == acquired;
    }
  }

  // ----- what one event can change

  predicate StoresPin(s: System, e: Event, id: string) {
    || (AcquiresLease(s, e) && id == AdmissionId(e.session, e.admission, e.random).value.0)
    || (e.KeepPinEvent? && e.pinID == Some(id))
  }

  /** Sessions do not come back, watermarks do not fall, closing is not undone, and a new pin
      comes from an acquiring admission or a kept pin. */
  lemma StepFacts(s: System, e: Event)
    requires Inv(s) && Legal(s, e)
    ensures var w := Step(s, e);
      && s.known <= w.known
      && (forall id :: id in w.view.sessions && id in s.known ==>
            id in s.view.sessions && s.view.sessions[id].highWater <= w.view.sessions[id].highWater)
      && (s.view.closed ==> w.view.closed)
      && (forall p :: p in w.view.pins && p !in s.view.pins ==> StoresPin(s, e, p))
  {
    hide Consistent, Ledger, TokensBelong, PinsNamed, Admit, Acquires, AdmissionId, KeepPin, Sweep;
    ConsistentIsDistinct(s.view);
    if e.AdmitEvent? {
      AdmitFacts(s, e);
    } else if e.CheckPinEvent? {
      SweepShrinks(s.view, PinOwner(s.view, e.token), e.now);
    } else if e.KeepPinEvent? {
      if e.pinID.Some? {
        KeepPinFacts(s.view, e.pinID.value, s.requests[e.request].lease, s.requests[e.request].owner, e.now);
      }
    } else if OnlyShrinks(e) {
      ShrinkFacts(s, e);
    }
  }

  lemma KeepPinFacts(v: View, id: string, lease: Lease, session: string, now: int)
    requires DistinctLeases(v.pins)
    ensures var w := KeepPin(v, id, lease, session, now).0;
      && w.sessions.Keys <= v.sessions.Keys
      && (forall s :: s in w.sessions ==> v.sessions[s].highWater <= w.sessions[s].highWater)
      && (v.closed ==> w.closed)
      && (forall p :: p in w.pins && p !in v.pins ==> p == id)
  {
    hide DistinctLeases, Sweep;
    SweepShrinks(v, session, now);
  }

  lemma AdmitFacts(s: System, e: Event)
    requires Inv(s) && Legal(s, e) && e.AdmitEvent?
    ensures Step(s, e).known == s.known
    ensures var v, w := s.view, Step(s, e).view;
      && w.sessions.Keys <= v.sessions.Keys
      && (forall id :: id in w.sessions ==> v.sessions[id].highWater <= w.sessions[id].highWater)
      && (v.closed ==> w.closed)
      && (forall p :: p in w.pins && p !in v.pins ==> StoresPin(s, e, p))
  {
    hide Admit, Acquires, AdmissionId, Consistent, Ledger;
    var admission := AdmissionId(e.session, e.admission, e.random);
    if admission.Some? {
      ConsistentIsDistinct(s.view);
      var w := AdmitParts(s.view, e.session, admission.value.0, e.execution, admission.value.1, e.now, e.grant);
    }
  }

  lemma ShrinkFacts(s: System, e: Event)
    requires Inv(s) && Legal(s, e) && OnlyShrinks(e)
    ensures Shrinks(s.view, Step(s, e).view) && Step(s, e).known == s.known
  {
    hide Shrinks, Consistent, Heartbeat, CloseSessions, Sweep, Release, Shutdown, Ledger;
    ConsistentIsDistinct(s.view);
    match e
    case HeartbeatEvent(session, now, later) => HeartbeatShrinks(s.view, session, now, later);
    case CloseSessionEvent(session) => CloseSessionStep(s.view, session);
    case TouchEvent(session, now) => SweepShrinks(s.view, session, now);
    case ReleaseEvent(requester, id, now) => ReleaseRequestShrinks(s.view, requester, id, now);
    case ExpireEvent(asOf, _) => CloseShrinks(s.view, Expired(s.view, asOf));
    case ShutdownEvent => ShutdownShrinks(s.view);
  }

  // ----- admissions

  /** The event is an admit request for this sequence of this session. */
  predicate Admits(e: Event, session: string, sequence: nat) {
    && e.AdmitEvent? && e.session == session
    && AdmissionId(session, e.admission, e.random).Some?
    && AdmissionId(session, e.admission, e.random).value.1 == sequence
  }

  /** How many leases a run obtains for one sequence of one session. */
  ghost function Acquisitions(s: System, events: seq<Event>, session: string, sequence: nat): nat
    requires Runs(s, events)
    decreases |events|
  {
    if events == [] then 0
    else (if Admits(events[0], session, sequence) && AcquiresLease(s, events[0]) then 1 else 0)
         + Acquisitions(Step(s, events[0]), events[1..], session, sequence)
  }

  /** How many admit requests for it succeed. */
  ghost function Successes(s: System, events: seq<Event>, session: string, sequence: nat): nat
    requires Runs(s, events)
    decreases |events|
  {
    if events == [] then 0
    else (if Admits(events[0], session, sequence) && AdmitAnswer(s, events[0]).Ok? then 1 else 0)
         + Successes(Step(s, events[0]), events[1..], session, sequence)
  }

  /** The session is over, or its watermark has reached the sequence. */
  predicate Spent(s: System, session: string, sequence: nat) {
    session in s.known && (session in s.view.sessions ==> sequence <= s.view.sessions[session].highWater)
  }

  lemma SpentStays(s: System, e: Event, session: string, sequence: nat)
    requires Inv(s) && Legal(s, e) && Spent(s, session, sequence)
    ensures Spent(Step(s, e), session, sequence)
    ensures sequence != 0 && Admits(e, session, sequence) ==> !AcquiresLease(s, e)
  {
    hide Consistent, Ledger, AdmissionId;
    StepFacts(s, e);
    if sequence != 0 && Admits(e, session, sequence) && AcquiresLease(s, e) {
      SweepShrinks(s.view, session, e.now) by { ConsistentIsDistinct(s.view); }
    }
  }

  lemma AcquiringSpends(s: System, e: Event, session: string, sequence: nat)
    requires Inv(s) && Legal(s, e) && Admits(e, session, sequence) && AcquiresLease(s, e)
    ensures Spent(Step(s, e), session, sequence)
  {
    hide Shrinks, Consistent, Ledger, AdmissionId, Admit, Acquires;
    ConsistentIsDistinct(s.view);
    var admission := AdmissionId(e.session, e.admission, e.random).value;
    var w := AdmitParts(s.view, e.session, admission.0, e.execution, admission.1, e.now, e.grant);
    assert session in s.view.sessions by { ShrunkSessions(s.view, w, session); }
  }

  lemma ShrunkSessions(v: View, w: View, session: string)
    requires Shrinks(v, w) && session in w.sessions
    ensures session in v.sessions
  {
  }

  lemma {:induction false} SpentAcquiresNothing(s: System, events: seq<Event>, session: string, sequence: nat)
    requires Inv(s) && Runs(s, events) && Spent(s, session, sequence) && sequence != 0
    ensures Acquisitions(s, events, session, sequence) == 0
    decreases |events|
  {
    hide Inv, Legal, Step, Spent, Admits, AcquiresLease;
    if events != [] {
      SpentStays(s, events[0], session, sequence);
      StepKeepsInv(s, events[0]);
      SpentAcquiresNothing(Step(s, events[0]), events[1..], session, sequence);
    }
  }

  /** A sequence is granted at most one lease, however often it is requested. */
  lemma {:induction false} AdmittedAtMostOnce(s: System, events: seq<Event>, session: string, sequence: nat)
    requires Inv(s) && Runs(s, events) && sequence != 0
    ensures Acquisitions(s, events, session, sequence) <= 1
    decreases |events|
  {
    hide Inv, Legal, Step, Spent, Admits, AcquiresLease;
    if events != [] {
      StepKeepsInv(s, events[0]);
      if Admits(events[0], session, sequence) && AcquiresLease(s, events[0]) {
        AcquiringSpends(s, events[0], session, sequence);
        SpentAcquiresNothing(Step(s, events[0]), events[1..], session, sequence);
      } else {
        AdmittedAtMostOnce(Step(s, events[0]), events[1..], session, sequence);
      }
    }
  }

  /** A retry while the pin is live answers with the token of the first grant and obtains
      nothing, whatever the registry would have offered. */
  lemma RetryReturnsTheSameToken(s: System, e: Event)
    requires Inv(s) && Legal(s, e) && e.AdmitEvent?
    requires AdmissionId(e.session, e.admission, e.random).Some?
    requires var id := AdmissionId(e.session, e.admission, e.random).value.0;
      && id in s.view.pins && s.view.pins[id].session == e.session && s.view.pins[id].execution == e.execution
      && e.now < s.view.sessions[e.session].expires
    ensures var id := AdmissionId(e.session, e.admission, e.random).value.0;
      AdmitAnswer(s, e) == Ok(s.view.pins[id].lease.token)
    ensures Step(s, e) == s.(clock := e.now)
  {
    hide SessionAgrees, OwnersAgree, DistinctLeases, Ledger, AdmissionId;
  }

  // ----- cancellation

  /** No admit of this sequence can succeed any more: the session is over, or the watermark has
      passed the sequence and no pin of it is live. */
  predicate Canceled(s: System, session: string, sequence: nat) {
    session in s.view.sessions ==>
      && sequence <= s.view.sessions[session].highWater
      && AdmissionPin(session, sequence) !in s.view.pins
  }

  lemma AdmissionPinsDiffer(a: string, m: nat, b: string, n: nat)
    requires ':' !in a && ':' !in b && AdmissionPin(a, m) == AdmissionPin(b, n)
    ensures a == b && m == n
  {
    var id := AdmissionPin(a, m);
    assert id[|a|] == ':' && id[|b|] == ':';
    assert forall i :: 0 <= i < |a| ==> id[i] == a[i] && id[i] != ':';
    assert forall i :: 0 <= i < |b| ==> id[i] == b[i] && id[i] != ':';
    assert |a| == |b| && id[..|a|] == a && id[..|b|] == b;
    assert id[|a| + 1..] == FormatUint(m) && id[|b| + 1..] == FormatUint(n);
    FormatInjective(m, n);
  }

  /** An event stores no pin under an admission id that the watermark has passed. */
  lemma NotStoredAgain(s: System, e: Event, session: string, sequence: nat)
    requires Inv(s) && Legal(s, e) && session in s.known && session in s.view.sessions
    requires sequence <= s.view.sessions[session].highWater
    ensures !StoresPin(s, e, AdmissionPin(session, sequence))
  {
    hide Consistent, Ledger, TokensBelong, PinsNamed, Acquires, FormatUint;
    var id := AdmissionPin(session, sequence);
    assert id[|session|] == ':';
    if StoresPin(s, e, id) && AcquiresLease(s, e) {
      AcquirerKnown(s, e);
      if e.admission != "" {
        var n := AdmissionId(e.session, e.admission, e.random).value.1;
        AdmissionPinsDiffer(e.session, n, session, sequence);
      }
    }
  }

  lemma CanceledStays(s: System, e: Event, session: string, sequence: nat)
    requires Inv(s) && Legal(s, e) && session in s.known && sequence != 0 && Canceled(s, session, sequence)
    ensures Canceled(Step(s, e), session, sequence)
    ensures Admits(e, session, sequence) ==> AdmitAnswer(s, e).Err?
  {
    hide Inv, Legal, Step, StoresPin, Admits, AdmissionPin;
    StepFacts(s, e);
    if Admits(e, session, sequence) {
      CanceledAnswer(s, e, session, sequence);
    }
    if session in Step(s, e).view.sessions {
      NotStoredAgain(s, e, session, sequence);
    }
  }

  lemma AcquirerKnown(s: System, e: Event)
    requires Inv(s) && AcquiresLease(s, e)
    ensures e.session in s.view.sessions && ':' !in e.session
    ensures var n := AdmissionId(e.session, e.admission, e.random).value.1;
      n == 0 || s.view.sessions[e.session].highWater < n
  {
    hide Ledger, SessionAgrees, OwnersAgree;
    SweepShrinks(s.view, e.session, e.now);
  }

  lemma CanceledAnswer(s: System, e: Event, session: string, sequence: nat)
    requires Inv(s) && session in s.known && sequence != 0 && Canceled(s, session, sequence)
    requires Admits(e, session, sequence)
    ensures AdmitAnswer(s, e).Err?
  {
    hide Consistent, Ledger, TokensBelong;
    assert AdmissionId(session, e.admission, e.random).value.0 == AdmissionPin(session, sequence);
    assert DistinctLeases(s.view.pins) by { ConsistentIsDistinct(s.view); }
    SweepShrinks(s.view, session, e.now);
  }

  lemma {:induction false} CanceledNeverSucceeds(s: System, events: seq<Event>, session: string, sequence: nat)
    requires Inv(s) && Runs(s, events) && session in s.known && sequence != 0 && Canceled(s, session, sequence)
    ensures Successes(s, events, session, sequence) == 0
    ensures Acquisitions(s, events, session, sequence) == 0
    decreases |events|
  {
    hide Inv, Legal, Step, Canceled, Admits, AdmitAnswer, AcquiresLease;
    if events != [] {
      CanceledStays(s, events[0], session, sequence);
      StepKeepsInv(s, events[0]);
      StepFacts(s, events[0]);
      assert Admits(events[0], session, sequence) ==> !AcquiresLease(s, events[0]) by {
        if Admits(events[0], session, sequence) && AcquiresLease(s, events[0]) {
          AcquiringSucceeds(s, events[0], session, sequence);
        }
      }
      CanceledNeverSucceeds(Step(s, events[0]), events[1..], session, sequence);
    }
  }

  lemma AcquiringSucceeds(s: System, e: Event, session: string, sequence: nat)
    requires Admits(e, session, sequence) && AcquiresLease(s, e)
    ensures AdmitAnswer(s, e).Ok?
  {
  }

  /** The test a canceling runner could make: the release is final if and only if the request
      names the session, or leaves it out while the pin is live, or the sequence was dead already.
      Leaving the session out of an early release, before the admission arrives, cancels nothing. */
  lemma ReleaseCancelsExactlyWhen(s: System, e: Event, session: string, sequence: nat)
    requires Inv(s) && Legal(s, e) && session in s.known && 0 < sequence <= MAX_UINT64
    requires e.ReleaseEvent? && e.id == AdmissionPin(session, sequence) && |e.id| <= 256
    ensures Canceled(Step(s, e), session, sequence) <==>
      || e.requester == session
      || (e.requester == "" && e.id in s.view.pins)
      || Canceled(s, session, sequence)
  {
    hide Shrinks, Consistent, Ledger, TokensBelong, PinsNamed, Sweep, Release;
    var v, id := s.view, e.id;
    PinSession(s, session, sequence);
    if id in v.pins && e.requester != "" && e.requester != session {
      ReleaseForeign(v, e.requester, id, e.now);
    } else if id in v.pins || e.requester == session {
      ReleaseOwn(v, e.requester, session, sequence, e.now);
    } else if Canceled(s, session, sequence) {
      CanceledStays(s, e, session, sequence);
    } else {
      ReleaseElsewhere(s, e, session, sequence);
    }
  }

  /** The pin of an admission id belongs to the session in the id. */
  lemma PinSession(s: System, session: string, sequence: nat)
    requires Inv(s) && session in s.known
    ensures var id := AdmissionPin(session, sequence);
      id in s.view.pins ==> s.view.pins[id].session == session && session in s.view.sessions
  {
    hide Ledger, SessionAgrees, OwnersAgree, TokensBelong;
    var id := AdmissionPin(session, sequence);
    if id in s.view.pins {
      assert id[|session|] == ':';
      var other := s.view.pins[id].session;
      var n: nat :| 0 < n && id == AdmissionPin(other, n);
      AdmissionPinsDiffer(session, sequence, other, n);
    }
  }

  lemma ReleaseForeign(v: View, requester: string, id: string, now: int)
    requires |id| <= 256 && id in v.pins && requester != "" && requester != v.pins[id].session
    ensures Release(v, requester, id, now).0 == v
  {
  }

  lemma NamesItsSequence(session: string, sequence: nat)
    requires 0 < sequence <= MAX_UINT64
    ensures NamedSequence(session, AdmissionPin(session, sequence)) == Some(Some(sequence))
  {
    var id := AdmissionPin(session, sequence);
    assert session + ":" <= id && id[|session| + 1..] == FormatUint(sequence);
    ParseAfterFormat(sequence);
  }

  /** A release made in the session's own name raises the watermark, or finds the session over. */
  lemma ReleaseOwn(v: View, requester: string, session: string, sequence: nat, now: int)
    requires 0 < sequence <= MAX_UINT64 && |AdmissionPin(session, sequence)| <= 256
    requires var id := AdmissionPin(session, sequence);
      && (requester == session || (requester == "" && id in v.pins))
      && (id in v.pins ==> v.pins[id].session == session)
    ensures var w := Release(v, requester, AdmissionPin(session, sequence), now).0;
      session in w.sessions ==>
        sequence <= w.sessions[session].highWater && AdmissionPin(session, sequence) !in w.pins
  {
    hide NamedSequence, Sweep, AdmissionPin, ReleasePin, Cancel;
    NamesItsSequence(session, sequence);
    var swept := Sweep(v, session, now);
    if session in swept.sessions { CanceledThenReleased(swept, session, sequence, AdmissionPin(session, sequence)); }
    ReleaseKeepsMarks(swept, AdmissionPin(session, sequence));
    SweepKeepsPins(v, session, now);
  }

  lemma CanceledThenReleased(v: View, session: string, sequence: nat, id: string)
    requires session in v.sessions
    ensures var w := ReleasePin(Cancel(v, session, sequence), id);
      id !in w.pins && session in w.sessions && sequence <= w.sessions[session].highWater
  {
    hide Drop, ReleasePin;
    ReleaseKeepsMarks(Cancel(v, session, sequence), id);
  }

  lemma ReleaseKeepsMarks(v: View, id: string)
    ensures var w := ReleasePin(v, id);
      && id !in w.pins && w.sessions.Keys == v.sessions.Keys
      && forall s :: s in v.sessions ==> w.sessions[s].highWater == v.sessions[s].highWater
  {
  }

  lemma SweepKeepsPins(v: View, session: string, now: int)
    ensures forall p :: p in Sweep(v, session, now).pins ==> p in v.pins
  {
  }

  lemma ReleaseElsewhere(s: System, e: Event, session: string, sequence: nat)
    requires Inv(s) && Legal(s, e) && session in s.known && 0 < sequence <= MAX_UINT64
    requires e.ReleaseEvent? && e.id == AdmissionPin(session, sequence) && |e.id| <= 256
    requires e.requester != session && e.id !in s.view.pins && !Canceled(s, session, sequence)
    ensures !Canceled(Step(s, e), session, sequence)
  {
    hide Consistent, Ledger, TokensBelong, PinsNamed;
    var v, owner := s.view, e.requester;
    var w := Sweep(v, owner, e.now);
    ConsistentIsDistinct(v);
    SweepShrinks(v, owner, e.now);
    assert session in w.sessions && w.sessions[session] == v.sessions[session];
    if owner in w.sessions {
      NotItsPrefix(owner, session, sequence);
    }
  }

  lemma PrefixNamesOwner(owner: string, session: string, sequence: nat)
    requires ':' !in owner && ':' !in session && owner + ":" <= AdmissionPin(session, sequence)
    ensures owner == session
  {
    var id := AdmissionPin(session, sequence);
    assert id[|owner|] == ':' && id[|session|] == ':';
    assert forall i :: 0 <= i < |owner| ==> id[i] == owner[i] && id[i] != ':';
    assert forall i :: 0 <= i < |session| ==> id[i] == session[i] && id[i] != ':';
    assert |owner| == |session| && id[..|owner|] == owner && id[..|session|] == session;
  }

  lemma NotItsPrefix(owner: string, session: string, sequence: nat)
    requires ':' !in owner && ':' !in session && owner != session
    ensures NamedSequence(owner, AdmissionPin(session, sequence)) == None
  {
    if owner + ":" <= AdmissionPin(session, sequence) {
      PrefixNamesOwner(owner, session, sequence);
    }
  }

  /** Canceled is no more than it needs to be: before its deadline, a session whose sequence is
      not canceled can still be admitted under it. */
  lemma UncanceledCanSucceed(s: System, session: string, sequence: nat, execution: string, random: string,
                             now: int, lease: Lease) returns (e: Event)
    requires Inv(s) && session in s.known && 0 < sequence <= MAX_UINT64
    requires |AdmissionPin(session, sequence)| <= 256 && !Canceled(s, session, sequence)
    requires s.clock <= now < s.view.sessions[session].expires
    requires lease !in s.acquired && lease.token !in s.issued && ':' !in random && random !in s.view.pins
    ensures Legal(s, e) && Admits(e, session, sequence) && AdmitAnswer(s, e).Ok?
  {
    var id := AdmissionPin(session, sequence);
    hide SessionAgrees, OwnersAgree, DistinctLeases, Ledger, TokensBelong, PinsNamed, FormatUint, ParseUint, Store;
    PinSession(s, session, sequence);
    var wanted := if id in s.view.pins then s.view.pins[id].execution else execution;
    ParseAfterFormat(sequence);
    e := AdmitEvent(session, FormatUint(sequence), wanted, random, now, Some(lease));
    assert FormatUint(sequence) != "";
    assert AdmissionId(session, e.admission, random) == Some((id, sequence));
  }

  // ----- deadlines

  predicate Heartbeats(e: Event, session: string) {
    e.HeartbeatEvent? && e.session == session
  }

  /** A successful admission, or a pin kept, for this session. */
  predicate Uses(s: System, e: Event, session: string) {
    || (e.AdmitEvent? && e.session == session && AdmitAnswer(s, e).Ok?)
    || (e.KeepPinEvent? && e.request in s.requests && s.requests[e.request].Holding?
        && s.requests[e.request].owner == session && e.pinID.Some?
        && KeepPin(s.view, e.pinID.value, s.requests[e.request].lease, session, e.now).1)
  }

  ghost predicate KeepsDeadlines(v: View, w: View) {
    forall id :: id in w.sessions ==> id in v.sessions && w.sessions[id].expires == v.sessions[id].expires
  }

  lemma SweepDeadlines(v: View, id: string, now: int)
    ensures KeepsDeadlines(v, Sweep(v, id, now))
  {
  }

  lemma AdmitDeadlines(v: View, session: string, id: string, execution: string, sequence: nat, now: int,
                       grant: Option<Lease>)
    ensures KeepsDeadlines(v, Admit(v, session, id, execution, sequence, now, grant).0)
  {
    hide Sweep;
    SweepDeadlines(v, session, now);
  }

  lemma ReleasePinDeadlines(v: View, id: string)
    ensures KeepsDeadlines(v, ReleasePin(v, id))
  {
  }

  lemma CancelDeadlines(v: View, session: string, sequence: nat)
    requires session in v.sessions
    ensures KeepsDeadlines(v, Cancel(v, session, sequence))
  {
  }

  lemma ReleaseDeadlines(v: View, requester: string, id: string, now: int)
    ensures KeepsDeadlines(v, Release(v, requester, id, now).0)
  {
    hide Sweep, NamedSequence, ReleasePin, Cancel;
    var owner := if id in v.pins then v.pins[id].session else requester;
    var w := Sweep(v, owner, now);
    SweepDeadlines(v, owner, now);
    ReleasePinDeadlines(w, id);
    if owner in w.sessions && NamedSequence(owner, id).Some? && NamedSequence(owner, id).value.Some? {
      CancelDeadlines(w, owner, NamedSequence(owner, id).value.value);
      ReleasePinDeadlines(Cancel(w, owner, NamedSequence(owner, id).value.value), id);
    }
  }

  lemma CloseDeadlines(v: View, ids: set<string>)
    ensures KeepsDeadlines(v, CloseSessions(v, ids))
  {
  }

  lemma KeepPinDeadlines(v: View, id: string, lease: Lease, session: string, now: int)
    ensures KeepsDeadlines(v, KeepPin(v, id, lease, session, now).0)
  {
    hide Sweep;
    SweepDeadlines(v, session, now);
  }

  /** Only a heartbeat moves a deadline, and only one that arrives before it. */
  lemma StepDeadline(s: System, e: Event, session: string)
    requires Inv(s) && Legal(s, e) && session in s.view.sessions && session in Step(s, e).view.sessions
    ensures var before, after := s.view.sessions[session].expires, Step(s, e).view.sessions[session].expires;
      if Heartbeats(e, session) then e.now < before && after == e.later + SESSION_TTL else after == before
  {
    if e.HeartbeatEvent? {
      HeartbeatDeadline(s.view, e.session, e.now, e.later, session);
    } else if e.OpenEvent? {
      hide Consistent, Ledger, TokensBelong, PinsNamed;
    } else {
      OtherDeadlines(s, e);
    }
  }

  lemma HeartbeatDeadline(v: View, id: string, now: int, later: int, session: string)
    requires session in v.sessions && session in Heartbeat(v, id, now, later).sessions
    ensures var before, after := v.sessions[session].expires, Heartbeat(v, id, now, later).sessions[session].expires;
      if id == session then now < before && after == later + SESSION_TTL else after == before
  {
  }

  lemma OtherDeadlines(s: System, e: Event)
    requires Legal(s, e) && !e.HeartbeatEvent? && !e.OpenEvent?
    ensures KeepsDeadlines(s.view, Step(s, e).view)
  {
    hide Sweep, Admit, Acquires, AdmissionId, KeepPin, Release, CloseSessions, Expired;
    match e
    case CloseSessionEvent(session) => CloseDeadlines(s.view, {session});
    case TouchEvent(session, now) => SweepDeadlines(s.view, session, now);
    case AdmitEvent(session, admission, execution, random, now, grant) =>
      if AdmissionId(session, admission, random).Some? {
        var (id, sequence) := AdmissionId(session, admission, random).value;
        AdmitDeadlines(s.view, session, id, execution, sequence, now, grant);
      }
    case CheckPinEvent(_, token, now) => SweepDeadlines(s.view, PinOwner(s.view, token), now);
    case KeepPinEvent(request, pinID, now) =>
      if pinID.Some? {
        KeepPinDeadlines(s.view, pinID.value, s.requests[request].lease, s.requests[request].owner, now);
      }
    case ReleaseEvent(requester, id, now) => ReleaseDeadlines(s.view, requester, id, now);
    case ExpireEvent(asOf, _) => CloseDeadlines(s.view, Expired(s.view, asOf));
    case ShutdownEvent => CloseDeadlines(s.view.(closed := true), s.view.sessions.Keys);
    case _ =>
  }

  /** Successful uses of the session at or after the deadline. */
  ghost function LateUses(s: System, events: seq<Event>, session: string, deadline: int): nat
    requires Runs(s, events)
    decreases |events|
  {
    if events == [] then 0
    else (if Uses(s, events[0], session) && deadline <= events[0].now then 1 else 0)
         + LateUses(Step(s, events[0]), events[1..], session, deadline)
  }

  lemma UseNeedsSession(s: System, e: Event, session: string)
    requires Inv(s) && Legal(s, e) && Uses(s, e, session)
    ensures session in s.view.sessions && e.now < s.view.sessions[session].expires
  {
    hide SessionAgrees, OwnersAgree, DistinctLeases, Ledger, TokensBelong, PinsNamed, AdmissionId;
  }

  /** Without a heartbeat nothing succeeds for a session at or after its deadline. */
  lemma {:induction false} NothingAfterTheDeadline(s: System, events: seq<Event>, session: string, deadline: int)
    requires Inv(s) && Runs(s, events) && session in s.known
    requires session in s.view.sessions ==> s.view.sessions[session].expires == deadline
    requires forall e :: e in events ==> !Heartbeats(e, session)
    ensures LateUses(s, events, session, deadline) == 0
    decreases |events|
  {
    hide Inv, Legal, Step, Uses, Heartbeats;
    if events != [] {
      var e := events[0];
      StepKeepsInv(s, e);
      StepFacts(s, e);
      if Uses(s, e, session) {
        UseNeedsSession(s, e, session);
      }
      if session in Step(s, e).view.sessions {
        StepDeadline(s, e, session);
      }
      NothingAfterTheDeadline(Step(s, e), events[1..], session, deadline);
    }
  }

  // ----- a release that comes too early

  /** For every session and sequence: open the session, release the sequence before its admit
      without naming the session, and the admit that follows succeeds all the same. */
  lemma EarlyReleaseCancelsNothing(session: string, sequence: nat, execution: string, lease: Lease)
    returns (events: seq<Event>, admit: Event)
    requires session != "" && ':' !in session && 0 < sequence <= MAX_UINT64 && |AdmissionPin(session, sequence)| <= 256
    ensures events == [OpenEvent(session, 0), ReleaseEvent("", AdmissionPin(session, sequence), 0)]
    ensures Runs(INIT, events) && Legal(After(INIT, events), admit)
    ensures Admits(admit, session, sequence) && AdmitAnswer(After(INIT, events), admit).Ok?
  {
    hide Inv, AdmissionPin, Canceled, Release, OpenSession;
    var open, release := OpenEvent(session, 0), ReleaseEvent("", AdmissionPin(session, sequence), 0);
    events := [open, release];
    InitialInv();
    StepKeepsInv(INIT, open);
    var s := Step(INIT, open);
    Opened(session, sequence);
    assert s == INIT.(view := OpenSession(EMPTY, session, 0), known := {session});
    ReleaseCancelsExactlyWhen(s, release, session, sequence);
    StepKeepsInv(s, release);
    var w := Step(s, release);
    NotCanceled(w, session, sequence);
    StepDeadline(s, release, session);
    assert events[1..] == [release] && [release][1..] == [];
    assert Runs(w, []) && Runs(s, [release]) && Runs(INIT, events);
    assert After(w, []) == w && After(s, [release]) == w && After(INIT, events) == w;
    NoPinWithout(s.view, release.id);
    admit := UncanceledCanSucceed(w, session, sequence, execution, "", 0, lease);
  }

  lemma Opened(session: string, sequence: nat)
    requires session != "" && sequence > 0
    ensures OpenSession(EMPTY, session, 0).pins == map[] && session in OpenSession(EMPTY, session, 0).sessions
    ensures OpenSession(EMPTY, session, 0).sessions[session].expires == SESSION_TTL
    ensures !Canceled(INIT.(view := OpenSession(EMPTY, session, 0), known := {session}), session, sequence)
  {
  }

  lemma NotCanceled(s: System, session: string, sequence: nat)
    requires !Canceled(s, session, sequence) && session in s.known
    ensures session in s.view.sessions
  {
  }

  lemma NoPinWithout(v: View, id: string)
    requires v.pins == map[]
    ensures Release(v, "", id, 0).0.pins == map[]
  {
  }

  /** The first sequence of a session named "s". */
  lemma EarlyReleaseExample(lease: Lease) returns (admit: Event)
    ensures var events := [OpenEvent("s", 0), ReleaseEvent("", AdmissionPin("s", 1), 0)];
      && Runs(INIT, events) && Legal(After(INIT, events), admit)
      && Admits(admit, "s", 1) && AdmitAnswer(After(INIT, events), admit).Ok?
  {
    hide Runs, After, Legal, Admits, AdmitAnswer;
    var events;
    events, admit := EarlyReleaseCancelsNothing("s", 1, "", lease);
  }
}
