/** What each event does to the execution server, told by its inputs alone: which sessions end and
    begin, which pins go and come, where deadlines and watermarks stand, and what is answered. */
module ExecutionAccount {
  import opened Outcomes
  import opened Decimal
  import opened ExecutionView
  import opened ExecutionSystem
  import opened ExecutionTheorems

  predicate Alive(v: View, session: string, now: int) {
    session in v.sessions && now < v.sessions[session].expires
  }

  predicate Lapsed(v: View, session: string, now: int) {
    session in v.sessions && v.sessions[session].expires <= now
  }

  predicate HeldBy(v: View, token: string, session: string) {
    exists p :: p in v.pins && v.pins[p].lease.token == token && v.pins[p].session == session
  }

  // ----- names of admissions

  predicate Digits(text: string) {
    text != "" && forall c :: c in text ==> '0' <= c <= '9'
  }

  /** The text is a positive number of 64 bits. */
  predicate Numbers(text: string, n: nat) {
    Digits(text) && DigitsValue(text) == n && 0 < n < 0x1_0000_0000_0000_0000
  }

  /** The pin that an admit request names, and its sequence. */
  predicate NamesPin(session: string, admission: string, random: string, id: string, n: nat) {
    && |id| <= 256
    && if admission == "" then id == random && n == 0
       else Numbers(admission, n) && id == session + ":" + FormatUint(n)
  }

  lemma AdmissionIdExactly(session: string, admission: string, random: string, id: string, n: nat)
    ensures AdmissionId(session, admission, random) == Some((id, n)) <==> NamesPin(session, admission, random, id, n)
  {
  }

  /** The pin bears the owner's name, and the number n after it, if one is valid. */
  predicate BearsName(owner: string, pin: string) {
    |owner| < |pin| && pin[..|owner|] == owner && pin[|owner|] == ':'
  }

  predicate BearsNumber(owner: string, pin: string, n: nat) {
    BearsName(owner, pin) && Numbers(pin[|owner| + 1..], n)
  }

  lemma NamedExactly(owner: string, pin: string)
    ensures NamedSequence(owner, pin).Some? <==> BearsName(owner, pin)
    ensures forall n: nat :: NamedSequence(owner, pin) == Some(Some(n)) <==> BearsNumber(owner, pin, n)
  {
    hide DigitsValue;
    if BearsName(owner, pin) { assert pin[..|owner| + 1] == owner + ":"; }
  }

  // ----- releases

  predicate Foreign(v: View, requester: string, pin: string) {
    pin in v.pins && requester != "" && requester != v.pins[pin].session
  }

  function OwnerOf(v: View, requester: string, pin: string): string {
    if pin in v.pins then v.pins[pin].session else requester
  }

  /** The name is the owner's but no admission of it. */
  ghost predicate Misnamed(owner: string, pin: string) {
    BearsName(owner, pin) && !exists n :: BearsNumber(owner, pin, n)
  }

  /** Each answer to a release request has its own reason. */
  ghost predicate ReleaseAnswers(v: View, requester: string, pin: string, now: int, status: ReleaseStatus) {
    var owner := OwnerOf(v, requester, pin);
    match status
    case PinIdTooLong => |pin| > 256
    case ForeignPin => |pin| <= 256 && Foreign(v, requester, pin)
    case BadPinId => |pin| <= 256 && !Foreign(v, requester, pin) && Alive(v, owner, now) && Misnamed(owner, pin)
    case Released => |pin| <= 256 && !Foreign(v, requester, pin) && !(Alive(v, owner, now) && Misnamed(owner, pin))
  }

  lemma ReleaseAnswersExactly(v: View, requester: string, pin: string, now: int, status: ReleaseStatus)
    ensures Release(v, requester, pin, now).1 == status <==> ReleaseAnswers(v, requester, pin, now, status)
  {
    hide BearsName, BearsNumber, CloseSessions, ReleasePin, Cancel, NamedSequence;
    var owner := OwnerOf(v, requester, pin);
    NamedExactly(owner, pin);
    SweptSession(v, owner, now);
    if NamedSequence(owner, pin).Some? && NamedSequence(owner, pin).value.Some? {
      assert BearsNumber(owner, pin, NamedSequence(owner, pin).value.value);
    }
  }

  lemma SweptSession(v: View, session: string, now: int)
    ensures session in Sweep(v, session, now).sessions <==> Alive(v, session, now)
    ensures Alive(v, session, now) ==> Sweep(v, session, now) == v
  {
  }

  // ----- the account of one event

  /** The event ends the session: by request, by shutdown, by the janitor, or by looking it up at
      or after its deadline. */
  ghost predicate Ends(s: System, e: Event, session: string) {
    match e
    case HeartbeatEvent(id, now, _) => id == session && Lapsed(s.view, session, now)
    case CloseSessionEvent(id) => id == session && session in s.view.sessions
    case TouchEvent(id, now) => id == session && Lapsed(s.view, session, now)
    case AdmitEvent(id, admission, _, random, now, _) =>
      id == session && Lapsed(s.view, session, now) && exists pin, n :: NamesPin(id, admission, random, pin, n)
    case CheckPinEvent(_, token, now) => HeldBy(s.view, token, session) && Lapsed(s.view, session, now)
    case KeepPinEvent(r, pinID, now) =>
      pinID.Some? && r in s.requests && s.requests[r].Holding? && s.requests[r].owner == session
      && Lapsed(s.view, session, now)
    case ReleaseEvent(requester, pin, now) =>
      && |pin| <= 256 && !Foreign(s.view, requester, pin)
      && OwnerOf(s.view, requester, pin) == session && Lapsed(s.view, session, now)
    case ExpireEvent(asOf, _) => Lapsed(s.view, session, asOf)
    case ShutdownEvent => session in s.view.sessions
    case _ => false
  }

  predicate Begins(s: System, e: Event, session: string) {
    e.OpenEvent? && e.id == session && !s.view.closed
  }

  /** The request releases the pin. */
  ghost predicate Frees(s: System, e: Event, pin: string) {
    e.ReleaseEvent? && e.id == pin && ReleaseAnswers(s.view, e.requester, pin, e.now, Released)
  }

  /** The request stores the pin: an admission of a live session that is new and above the
      watermark, or a pin kept while its session is live. */
  ghost predicate Stores(s: System, e: Event, id: string, pin: Pin) {
    match e
    case AdmitEvent(session, admission, execution, random, now, grant) =>
      && Alive(s.view, session, now) && id !in s.view.pins
      && (NamesPin(session, admission, random, id, 0)
          || exists n :: NamesPin(session, admission, random, id, n) && s.view.sessions[session].highWater < n)
      && grant.Some? && pin == Pin(grant.value, session, execution)
    case KeepPinEvent(r, pinID, now) =>
      && pinID == Some(id) && r in s.requests && s.requests[r].Holding?
      && Alive(s.view, s.requests[r].owner, now)
      && pin == Pin(s.requests[r].lease, s.requests[r].owner, "")
    case _ => false
  }

  /** The event names a sequence of the session: an admission whose pin is not live, or a release. */
  ghost predicate Marks(s: System, e: Event, session: string, n: nat) {
    match e
    case AdmitEvent(id, admission, _, random, now, _) =>
      && id == session && n > 0 && Alive(s.view, session, now)
      && exists pin :: NamesPin(session, admission, random, pin, n) && pin !in s.view.pins
    case ReleaseEvent(requester, pin, now) =>
      && Frees(s, e, pin) && OwnerOf(s.view, requester, pin) == session && Alive(s.view, session, now)
      && BearsNumber(session, pin, n)
    case _ => false
  }

  /** Sessions end and begin for their reasons only. */
  ghost predicate SessionsAccount(s: System, e: Event, w: View) {
    forall id :: id in w.sessions <==> (id in s.view.sessions && !Ends(s, e, id)) || Begins(s, e, id)
  }

  /** A deadline is 60 seconds after the session began or after its latest heartbeat. */
  predicate DeadlinesAccount(s: System, e: Event, w: View) {
    forall id :: id in w.sessions ==>
      if Begins(s, e, id) then w.sessions[id].expires == e.now + 60
      else if id !in s.view.sessions then false
      else if Heartbeats(e, id) then w.sessions[id].expires == e.later + 60
      else w.sessions[id].expires == s.view.sessions[id].expires
  }

  /** A watermark rises to the sequence that is named, and moves for no other reason. */
  ghost predicate MarksAccount(s: System, e: Event, w: View) {
    forall id :: id in w.sessions ==>
      if id !in s.view.sessions then w.sessions[id].highWater == 0
      else
        && (forall n: nat :: Marks(s, e, id, n) ==>
              w.sessions[id].highWater == if n > s.view.sessions[id].highWater then n
                else s.view.sessions[id].highWater)
        && (w.sessions[id].highWater != s.view.sessions[id].highWater ==> exists n :: Marks(s, e, id, n))
  }

  /** Pins go with their session or by a release, and come by an admission or by being kept. */
  ghost predicate PinsAccount(s: System, e: Event, w: View) {
    forall p, pin :: p in w.pins && w.pins[p] == pin <==>
      || (p in s.view.pins && s.view.pins[p] == pin && !Ends(s, e, pin.session) && !Frees(s, e, p))
      || Stores(s, e, p, pin)
  }

  ghost predicate Accounted(s: System, e: Event, w: View) {
    && SessionsAccount(s, e, w) && DeadlinesAccount(s, e, w) && MarksAccount(s, e, w) && PinsAccount(s, e, w)
    && (w.closed <==> s.view.closed || e.ShutdownEvent?)
  }

  // ----- the sections one by one

  /** Sessions that end take their pins with them and leave everything else as it was. */
  predicate Without(v: View, w: View, gone: set<string>) {
    && w.sessions == v.sessions - gone && w.closed == v.closed
    && w.pins == map p | p in v.pins && v.pins[p].session !in gone :: v.pins[p]
  }

  lemma CloseWithout(v: View, ids: set<string>)
    ensures Without(v, CloseSessions(v, ids), ids)
  {
  }

  function LapsedAt(v: View, session: string, now: int): set<string> {
    if Lapsed(v, session, now) then {session} else {}
  }

  lemma SweepWithout(v: View, session: string, now: int)
    ensures Without(v, Sweep(v, session, now), LapsedAt(v, session, now))
  {
    hide CloseSessions;
    CloseWithout(v, {session});
  }

  lemma WithoutAccounted(s: System, e: Event, w: View, gone: set<string>)
    requires Without(s.view, w, gone)
    requires forall id :: id in s.view.sessions ==> (id in gone <==> Ends(s, e, id))
    requires forall p :: p in s.view.pins ==> s.view.pins[p].session in s.view.sessions
    requires e.CloseSessionEvent? || e.TouchEvent? || e.CheckPinEvent? || e.ExpireEvent?
    ensures Accounted(s, e, w)
  {
  }

  lemma OpenAccounted(s: System, e: Event)
    requires Inv(s) && Legal(s, e) && e.OpenEvent?
    ensures Accounted(s, e, Step(s, e).view)
  {
    hide Ledger, TokensBelong, PinsNamed, SessionAgrees, OwnersAgree, DistinctLeases;
    assert s.view.sessions.Keys <= s.known;
  }

  lemma HeartbeatEffect(v: View, session: string, now: int, later: int)
    ensures var w := Heartbeat(v, session, now, later);
      if Alive(v, session, now)
      then w == v.(sessions := v.sessions[session := v.sessions[session].(expires := later + 60)])
      else Without(v, w, LapsedAt(v, session, now))
  {
    hide Sweep;
    SweepWithout(v, session, now);
    SweptSession(v, session, now);
  }

  lemma HeartbeatAccounted(s: System, e: Event)
    requires Inv(s) && Legal(s, e) && e.HeartbeatEvent?
    ensures Accounted(s, e, Step(s, e).view)
  {
    hide Ledger, TokensBelong, PinsNamed, SessionAgrees, OwnersAgree, DistinctLeases, Heartbeat, SessionsAccounted;
    HeartbeatEffect(s.view, e.session, e.now, e.later);
  }

  lemma ShutdownAccounted(s: System, e: Event)
    requires Inv(s) && Legal(s, e) && e.ShutdownEvent?
    ensures Accounted(s, e, Step(s, e).view)
  {
    hide Ledger, TokensBelong, PinsNamed, SessionAgrees, OwnersAgree, DistinctLeases, CloseSessions, SessionsAccounted;
    CloseWithout(s.view.(closed := true), s.view.sessions.Keys);
  }

  lemma OwnerHolds(v: View, token: string, session: string)
    requires OwnersAgree(v.pins, v.owners) && session != ""
    ensures PinOwner(v, token) == session <==> HeldBy(v, token, session)
  {
    if token in v.owners {
      var p :| p in Holders(v.pins, v.owners[token], token);
    }
  }

  lemma LookupAccounted(s: System, e: Event)
    requires Inv(s) && Legal(s, e)
    requires e.CloseSessionEvent? || e.TouchEvent? || e.CheckPinEvent? || e.ExpireEvent?
    ensures Accounted(s, e, Step(s, e).view)
  {
    hide Ledger, TokensBelong, PinsNamed, SessionAgrees, OwnersAgree, DistinctLeases, CloseSessions, Sweep, Accounted,
         HeldBy;
    var v := s.view;
    match e
    case CloseSessionEvent(id) =>
      CloseWithout(v, {id});
      WithoutAccounted(s, e, Step(s, e).view, if id in v.sessions then {id} else {});
    case TouchEvent(id, now) =>
      SweepWithout(v, id, now);
      WithoutAccounted(s, e, Step(s, e).view, LapsedAt(v, id, now));
    case CheckPinEvent(_, token, now) =>
      var owner := PinOwner(v, token);
      forall id | id in v.sessions ensures PinOwner(v, token) == id <==> HeldBy(v, token, id) {
        OwnerHolds(v, token, id);
      }
      SweepWithout(v, owner, now);
      WithoutAccounted(s, e, Step(s, e).view, LapsedAt(v, owner, now));
    case ExpireEvent(asOf, _) =>
      CloseWithout(v, Expired(v, asOf));
      WithoutAccounted(s, e, Step(s, e).view, Expired(v, asOf));
  }

  lemma OutsideAccounted(s: System, e: Event)
    requires Inv(s) && Legal(s, e) && (e.AcquirePinEvent? || e.DropPinEvent?)
    ensures Accounted(s, e, Step(s, e).view)
  {
    hide Ledger, TokensBelong, PinsNamed, SessionAgrees, OwnersAgree, DistinctLeases, SessionsAccounted;
  }

  /** The same sessions with the same deadlines. */
  predicate SameSessions(v: View, w: View) {
    && w.sessions.Keys == v.sessions.Keys && w.closed == v.closed
    && forall id :: id in v.sessions ==> w.sessions[id].expires == v.sessions[id].expires
  }

  predicate SameMarks(v: View, w: View, but: string) {
    forall id :: id in v.sessions && id in w.sessions && id != but ==>
      w.sessions[id].highWater == v.sessions[id].highWater
  }

  lemma KeepPinEffect(v: View, id: string, lease: Lease, session: string, now: int)
    requires Quiet(v)
    ensures var w := KeepPin(v, id, lease, session, now).0;
      if Alive(v, session, now) then
        && SameSessions(v, w)
             && SameMarks(v, w, session) && w.sessions[session].highWater == v.sessions[session].highWater
        && w.pins == v.pins[id := Pin(lease, session, "")]
      else Without(v, w, LapsedAt(v, session, now))
  {
    hide Sweep;
    SweepWithout(v, session, now);
    SweptSession(v, session, now);
  }

  lemma KeepPinAccounted(s: System, e: Event)
    requires Inv(s) && Legal(s, e) && e.KeepPinEvent?
    ensures Accounted(s, e, Step(s, e).view)
  {
    hide Ledger, TokensBelong, PinsNamed, SessionAgrees, OwnersAgree, DistinctLeases, SessionsAccounted, KeepPin;
    if e.pinID.Some? {
      KeepPinEffect(s.view, e.pinID.value, s.requests[e.request].lease, s.requests[e.request].owner, e.now);
    }
  }

  /** An admission that is asked of the registry. */
  predicate Fresh(v: View, session: string, id: string, sequence: nat)
    requires session in v.sessions
  {
    id !in v.pins && (sequence == 0 || v.sessions[session].highWater < sequence)
  }

  lemma AdmitEffect(v: View, session: string, id: string, execution: string, sequence: nat, now: int,
                    grant: Option<Lease>)
    requires Quiet(v)
    ensures var w := Admit(v, session, id, execution, sequence, now, grant).0;
      if Alive(v, session, now) then
        && SameSessions(v, w) && SameMarks(v, w, session)
        && w.sessions[session].highWater
             == (if Fresh(v, session, id, sequence) && sequence > 0 then sequence else v.sessions[session].highWater)
        && w.pins == if Fresh(v, session, id, sequence) && grant.Some?
                     then v.pins[id := Pin(grant.value, session, execution)] else v.pins
      else Without(v, w, LapsedAt(v, session, now))
  {
    hide Sweep;
    SweepWithout(v, session, now);
    SweptSession(v, session, now);
  }

  /** Sessions that stay, and sessions that end, keep the account of sessions and deadlines. */
  lemma SessionsFrom(s: System, e: Event, w: View, gone: set<string>)
    requires if gone == {} then SameSessions(s.view, w) || Without(s.view, w, gone) else Without(s.view, w, gone)
    requires forall id :: id in s.view.sessions ==> (id in gone <==> Ends(s, e, id))
    requires !e.OpenEvent? && !e.HeartbeatEvent? && !e.ShutdownEvent?
    ensures SessionsAccount(s, e, w) && DeadlinesAccount(s, e, w) && (w.closed <==> s.view.closed)
  {
    hide Ends;
  }

  /** The admit request in terms of the pin that it names. */
  lemma AdmitNames(s: System, e: Event, id: string, n: nat)
    requires e.AdmitEvent? && AdmissionId(e.session, e.admission, e.random) == Some((id, n))
    ensures forall other, m: nat :: NamesPin(e.session, e.admission, e.random, other, m) <==> other == id && m == n
  {
    hide AdmissionId, NamesPin;
    forall other, m: nat ensures NamesPin(e.session, e.admission, e.random, other, m) <==> other == id && m == n {
      AdmissionIdExactly(e.session, e.admission, e.random, other, m);
    }
  }

  lemma AdmitMarks(s: System, e: Event, w: View, id: string, n: nat)
    requires e.AdmitEvent? && forall other, m: nat :: NamesPin(e.session, e.admission, e.random, other, m) <==>
      other == id && m == n
    requires if Alive(s.view, e.session, e.now) then
               && SameSessions(s.view, w) && SameMarks(s.view, w, e.session)
               && w.sessions[e.session].highWater ==
                    (if Fresh(s.view, e.session, id, n) && n > 0 then n else s.view.sessions[e.session].highWater)
             else Without(s.view, w, LapsedAt(s.view, e.session, e.now))
    ensures MarksAccount(s, e, w)
  {
    hide NamesPin;
    assert NamesPin(e.session, e.admission, e.random, id, n);
    assert Alive(s.view, e.session, e.now) && Fresh(s.view, e.session, id, n) && n > 0 ==> Marks(s, e, e.session, n);
  }

  lemma AdmitPins(s: System, e: Event, w: View, id: string, n: nat)
    requires e.AdmitEvent? && forall other, m: nat :: NamesPin(e.session, e.admission, e.random, other, m) <==>
      other == id && m == n
    requires if Alive(s.view, e.session, e.now) then
               w.pins == if Fresh(s.view, e.session, id, n) && e.grant.Some?
                         then s.view.pins[id := Pin(e.grant.value, e.session, e.execution)] else s.view.pins
             else Without(s.view, w, LapsedAt(s.view, e.session, e.now))
    ensures PinsAccount(s, e, w)
  {
    hide NamesPin;
    assert NamesPin(e.session, e.admission, e.random, id, n);
  }

  lemma AdmitAccounted(s: System, e: Event)
    requires Inv(s) && Legal(s, e) && e.AdmitEvent?
    ensures Accounted(s, e, Step(s, e).view)
  {
    hide Ledger, TokensBelong, PinsNamed, SessionAgrees, OwnersAgree, DistinctLeases, SessionsAccounted, Admit,
         Acquires,
         AdmissionId, NamesPin, MarksAccount, PinsAccount, SessionsAccount, DeadlinesAccount, Stores, Marks;
    var admission := AdmissionId(e.session, e.admission, e.random);
    if admission.Some? {
      var (id, n) := admission.value;
      AdmitEffect(s.view, e.session, id, e.execution, n, e.now, e.grant);
      AdmitNames(s, e, id, n);
      assert NamesPin(e.session, e.admission, e.random, id, n);
      AdmitMarks(s, e, Step(s, e).view, id, n);
      AdmitPins(s, e, Step(s, e).view, id, n);
      SessionsFrom(s, e, Step(s, e).view, LapsedAt(s.view, e.session, e.now));
    } else {
      forall other, m: nat ensures !NamesPin(e.session, e.admission, e.random, other, m) {
        AdmissionIdExactly(e.session, e.admission, e.random, other, m);
      }
      NamelessAdmit(s, e);
    }
  }

  lemma NamelessAdmit(s: System, e: Event)
    requires e.AdmitEvent? && forall other, m: nat :: !NamesPin(e.session, e.admission, e.random, other, m)
    requires forall p :: p in s.view.pins ==> s.view.pins[p].session in s.view.sessions
    ensures Accounted(s, e, s.view)
  {
    hide NamesPin;
  }

  /** A release request that is looked into for a session that has not lapsed. */
  predicate Looked(v: View, requester: string, pin: string, now: int) {
    |pin| <= 256 && !Foreign(v, requester, pin) && !Lapsed(v, OwnerOf(v, requester, pin), now)
  }

  lemma ReleaseElsewhere(v: View, requester: string, pin: string, now: int)
    requires pin in v.pins ==> v.pins[pin].session in v.sessions
    requires !Looked(v, requester, pin, now)
    ensures var (w, status) := Release(v, requester, pin, now);
      if |pin| > 256 || Foreign(v, requester, pin) then w == v && status != Released
      else Without(v, w, {OwnerOf(v, requester, pin)})
  {
    hide Sweep, NamedSequence;
    SweepWithout(v, OwnerOf(v, requester, pin), now);
  }

  lemma ReleasedPin(v: View, pin: string)
    ensures var w := ReleasePin(v, pin); SameSessions(v, w) && SameMarks(v, w, "") && w.pins == v.pins - {pin}
    ensures forall id :: id in v.sessions ==> ReleasePin(v, pin).sessions[id].highWater == v.sessions[id].highWater
  {
  }

  lemma CanceledMark(v: View, session: string, n: nat)
    requires session in v.sessions
    ensures var w := Cancel(v, session, n);
      && SameSessions(v, w) && SameMarks(v, w, session) && w.pins == v.pins
      && w.sessions[session].highWater == if n > v.sessions[session].highWater then n else v.sessions[session].highWater
  {
  }

  lemma ReleaseHere(v: View, requester: string, pin: string, now: int)
    requires Looked(v, requester, pin, now)
    ensures var (w, status) := Release(v, requester, pin, now);
      var owner := OwnerOf(v, requester, pin);
      && SameSessions(v, w) && SameMarks(v, w, owner)
      && w.pins == (if status == Released then v.pins - {pin} else v.pins)
      && (owner in v.sessions ==>
            var named := NamedSequence(owner, pin);
            if named.Some? && named.value.Some?
            then status == Released && w.sessions[owner].highWater ==
              if named.value.value > v.sessions[owner].highWater then named.value.value
              else v.sessions[owner].highWater
            else w.sessions[owner].highWater == v.sessions[owner].highWater)
  {
    hide Sweep, NamedSequence, ReleasePin, Cancel;
    var owner := OwnerOf(v, requester, pin);
    SweptSession(v, owner, now);
    NotSwept(v, owner, now);
    ReleasedPin(v, pin);
    if owner in v.sessions && NamedSequence(owner, pin).Some? && NamedSequence(owner, pin).value.Some? {
      var n := NamedSequence(owner, pin).value.value;
      CanceledMark(v, owner, n);
      ReleasedPin(Cancel(v, owner, n), pin);
    }
  }

  lemma NotSwept(v: View, session: string, now: int)
    requires !Lapsed(v, session, now)
    ensures Sweep(v, session, now) == v
  {
  }

  lemma ReleaseAccounted(s: System, e: Event)
    requires Inv(s) && Legal(s, e) && e.ReleaseEvent?
    ensures Accounted(s, e, Step(s, e).view)
  {
    hide Ledger, TokensBelong, PinsNamed, SessionAgrees, OwnersAgree, DistinctLeases, SessionsAccounted, Release,
         BearsNumber, ReleaseAnswers, MarksAccount, PinsAccount, SessionsAccount, DeadlinesAccount, Marks, Without;
    var v, w, owner := s.view, Step(s, e).view, OwnerOf(s.view, e.requester, e.id);
    ReleaseAnswersExactly(v, e.requester, e.id, e.now, Released);
    if Looked(v, e.requester, e.id, e.now) {
      ReleaseHere(v, e.requester, e.id, e.now);
      ReleaseMarks(s, e, w);
      ReleasePins(s, e, w);
      SessionsFrom(s, e, w, {});
    } else {
      ReleaseElsewhere(v, e.requester, e.id, e.now);
      ReleaseNothing(s, e, w);
      if |e.id| > 256 || Foreign(v, e.requester, e.id) { SessionsFrom(s, e, w, {}); }
      else { SessionsFrom(s, e, w, {owner}); }
    }
  }

  lemma ReleaseNothing(s: System, e: Event, w: View)
    requires e.ReleaseEvent? && !Looked(s.view, e.requester, e.id, e.now)
    requires forall p :: p in s.view.pins ==> s.view.pins[p].session in s.view.sessions
    requires if |e.id| > 256 || Foreign(s.view, e.requester, e.id) then w == s.view && !Frees(s, e, e.id)
             else Without(s.view, w, {OwnerOf(s.view, e.requester, e.id)})
    ensures MarksAccount(s, e, w) && PinsAccount(s, e, w)
  {
    hide ReleaseAnswers;
  }

  lemma ReleasePins(s: System, e: Event, w: View)
    requires e.ReleaseEvent? && Looked(s.view, e.requester, e.id, e.now)
    requires w.pins == if Frees(s, e, e.id) then s.view.pins - {e.id} else s.view.pins
    requires forall p :: p in s.view.pins ==> s.view.pins[p].session in s.view.sessions
    ensures PinsAccount(s, e, w)
  {
    hide ReleaseAnswers;
  }

  lemma ReleaseMarks(s: System, e: Event, w: View)
    requires e.ReleaseEvent? && Looked(s.view, e.requester, e.id, e.now)
    requires SameSessions(s.view, w) && SameMarks(s.view, w, OwnerOf(s.view, e.requester, e.id))
    requires var owner := OwnerOf(s.view, e.requester, e.id);
      owner in s.view.sessions ==>
        var named := NamedSequence(owner, e.id);
        if named.Some? && named.value.Some?
        then Frees(s, e, e.id) && w.sessions[owner].highWater ==
          if named.value.value > s.view.sessions[owner].highWater then named.value.value
          else s.view.sessions[owner].highWater
        else w.sessions[owner].highWater == s.view.sessions[owner].highWater
    ensures MarksAccount(s, e, w)
  {
    hide ReleaseAnswers, NamedSequence, BearsNumber;
    var owner := OwnerOf(s.view, e.requester, e.id);
    NamedExactly(owner, e.id);
    var named := NamedSequence(owner, e.id);
    if owner in s.view.sessions && named.Some? && named.value.Some? {
      assert Marks(s, e, owner, named.value.value);
    }
  }

  lemma EventAccounted(s: System, e: Event)
    requires Inv(s) && Legal(s, e)
    ensures Accounted(s, e, Step(s, e).view)
  {
    hide Inv, Accounted, Step, Legal;
    match e
    case OpenEvent(_, _) => OpenAccounted(s, e);
    case HeartbeatEvent(_, _, _) => HeartbeatAccounted(s, e);
    case AdmitEvent(_, _, _, _, _, _) => AdmitAccounted(s, e);
    case AcquirePinEvent(_, _) => OutsideAccounted(s, e);
    case KeepPinEvent(_, _, _) => KeepPinAccounted(s, e);
    case DropPinEvent(_) => OutsideAccounted(s, e);
    case ReleaseEvent(_, _, _) => ReleaseAccounted(s, e);
    case ShutdownEvent => ShutdownAccounted(s, e);
    case _ => LookupAccounted(s, e);
  }

  // ----- answers

  /** Each answer to an admit request has its own reason. */
  ghost predicate AdmitAnswers(s: System, e: Event, answer: Result<string, AdmitError>)
    requires e.AdmitEvent?
  {
    if forall id, n: nat :: !NamesPin(e.session, e.admission, e.random, id, n) then answer == Err(BadAdmission)
    else if !Alive(s.view, e.session, e.now) then answer == Err(SessionExpired)
    else exists id, n: nat :: NamesPin(e.session, e.admission, e.random, id, n) && PinAnswers(s.view, e, id, n, answer)
  }

  /** The pin that is live answers its own session and execution with its token, and nobody else;
      a sequence at or below the watermark is refused; otherwise the registry decides. */
  predicate PinAnswers(v: View, e: Event, id: string, n: nat, answer: Result<string, AdmitError>)
    requires e.AdmitEvent? && e.session in v.sessions
  {
    if id in v.pins then
      if v.pins[id].session == e.session && v.pins[id].execution == e.execution
      then answer == Ok(v.pins[id].lease.token) else answer == Err(ForeignAdmission)
    else if 0 < n <= v.sessions[e.session].highWater then answer == Err(Superseded)
    else if e.grant.Some? then answer == Ok(e.grant.value.token)
    else answer == Err(Refused)
  }

  lemma AdmitAnswersExactly(s: System, e: Event, answer: Result<string, AdmitError>)
    requires Inv(s) && e.AdmitEvent?
    ensures AdmitAnswer(s, e) == answer <==> AdmitAnswers(s, e, answer)
  {
    hide Ledger, TokensBelong, PinsNamed, Consistent, SessionsAccounted, AdmissionId, NamesPin, Sweep;
    var admission := AdmissionId(e.session, e.admission, e.random);
    SweptSession(s.view, e.session, e.now);
    if admission.Some? {
      var (id, n) := admission.value;
      AdmitNames(s, e, id, n);
      assert NamesPin(e.session, e.admission, e.random, id, n);
    } else {
      forall other, m: nat ensures !NamesPin(e.session, e.admission, e.random, other, m) {
        AdmissionIdExactly(e.session, e.admission, e.random, other, m);
      }
    }
  }

  /** A pin request goes on while the session that holds the token is live, holds the lease that
      the registry gives it, and gives it back exactly when it cannot keep it. */
  ghost predicate RequestsAccount(s: System, e: Event, requests: map<nat, PinRequest>)
    requires Legal(s, e)
  {
    match e
    case CheckPinEvent(r, token, now) =>
      if exists owner :: HeldBy(s.view, token, owner) && Alive(s.view, owner, now)
      then exists owner :: HeldBy(s.view, token, owner) && requests == s.requests[r := Checked(token, owner)]
      else requests == s.requests
    case AcquirePinEvent(r, pinned) =>
      requests == if pinned.None? then s.requests - {r}
                  else s.requests[r := Holding(pinned.value, s.requests[r].owner)]
    case KeepPinEvent(r, pinID, now) =>
      requests == if pinID.Some? && Alive(s.view, s.requests[r].owner, now) then s.requests - {r}
                  else s.requests[r := Unwanted(s.requests[r].lease)]
    case DropPinEvent(r) => requests == s.requests - {r}
    case _ => requests == s.requests
  }

  lemma RequestsAccounted(s: System, e: Event)
    requires Inv(s) && Legal(s, e)
    ensures RequestsAccount(s, e, Step(s, e).requests)
  {
    hide Ledger, TokensBelong, PinsNamed, SessionAgrees, DistinctLeases, Sweep, OwnersAgree, HeldBy,
         Admit, Acquires, Release, CloseSessions, Heartbeat;
    match e
    case CheckPinEvent(_, token, now) =>
      var owner := PinOwner(s.view, token);
      forall id | id in s.view.sessions ensures owner == id <==> HeldBy(s.view, token, id) {
        OwnerHolds(s.view, token, id);
      }
      SweptSession(s.view, owner, now);
    case KeepPinEvent(r, _, now) => SweptSession(s.view, s.requests[r].owner, now);
    case _ =>
  }

  // ----- over runs

  function NextBeat(time: int, e: Event, session: string): int {
    match e
    case OpenEvent(id, now) => if id == session then now else time
    case HeartbeatEvent(id, _, later) => if id == session then later else time
    case _ => time
  }

  /** The time of the latest event that opened the session or kept it alive. */
  function LastBeat(time: int, events: seq<Event>, session: string): int
    decreases |events|
  {
    if events == [] then time else LastBeat(NextBeat(time, events[0], session), events[1..], session)
  }

  /** Over every run, a session that is still there expires 60 seconds after its latest heartbeat. */
  lemma {:induction false} DeadlineIsTheLastBeat(s: System, events: seq<Event>, session: string, time: int)
    requires Inv(s) && Runs(s, events) && session in After(s, events).view.sessions
    requires session in s.view.sessions ==> s.view.sessions[session].expires == time + 60
    ensures After(s, events).view.sessions[session].expires == LastBeat(time, events, session) + 60
    decreases |events|
  {
    hide Inv, Legal, Step, NextBeat;
    if events != [] {
      StepKeepsInv(s, events[0]);
      EventAccounted(s, events[0]);
      Beaten(s, events[0], session, time);
      DeadlineIsTheLastBeat(Step(s, events[0]), events[1..], session, NextBeat(time, events[0], session));
    }
  }

  lemma Beaten(s: System, e: Event, session: string, time: int)
    requires Inv(s) && Legal(s, e) && Accounted(s, e, Step(s, e).view)
    requires session in s.view.sessions ==> s.view.sessions[session].expires == time + 60
    ensures var w := Step(s, e).view;
      session in w.sessions ==> w.sessions[session].expires == NextBeat(time, e, session) + 60
  {
    hide Step, Consistent, Ledger, TokensBelong, PinsNamed, SessionsAccount, MarksAccount, PinsAccount;
  }

  /** The lease is neither live nor held by a pin request. */
  predicate Gone(s: System, lease: Lease) {
    && lease in s.acquired
    && (forall p :: p in s.view.pins ==> s.view.pins[p].lease != lease)
    && (forall r :: r in s.requests && !s.requests[r].Checked? ==> s.requests[r].lease != lease)
  }

  lemma GoneStays(s: System, e: Event, lease: Lease)
    requires Inv(s) && Legal(s, e) && Gone(s, lease)
    ensures Gone(Step(s, e), lease)
  {
    hide Inv, Step, Ends, Frees;
    EventAccounted(s, e);
    RequestsAccounted(s, e);
    AcquiredGrows(s, e);
    var w := Step(s, e);
    forall p | p in w.view.pins ensures w.view.pins[p].lease != lease {
      assert p in w.view.pins && w.view.pins[p] == w.view.pins[p];
    }
  }

  lemma AcquiredGrows(s: System, e: Event)
    requires Legal(s, e)
    ensures s.acquired <= Step(s, e).acquired
  {
  }

  lemma GoneIsReleased(s: System, lease: Lease)
    requires Inv(s)
    ensures Gone(s, lease) ==> s.view.released[lease] == 1
    ensures (exists p :: p in s.view.pins && s.view.pins[p].lease == lease) ==> s.view.released[lease] == 0
  {
    hide Consistent, TokensBelong, SessionsAccounted, PinsNamed;
    if p :| p in s.view.pins && s.view.pins[p].lease == lease { assert lease in LeasesOf(s.view.pins); }
  }

  /** A release that is granted frees the pin, and over every later run the pin's lease stays
      released, once. */
  lemma {:induction false} ReleasedForGood(s: System, e: Event, events: seq<Event>)
    requires Inv(s) && Legal(s, e) && e.ReleaseEvent? && e.id in s.view.pins
    requires ReleaseAnswers(s.view, e.requester, e.id, e.now, Released) && Runs(Step(s, e), events)
    ensures e.id !in Step(s, e).view.pins
    ensures var lease := s.view.pins[e.id].lease;
      s.view.released[lease] == 0 && Gone(After(Step(s, e), events), lease)
      && After(Step(s, e), events).view.released[lease] == 1
  {
    hide Inv, Step, Ends, Gone, ReleaseAnswers;
    var lease, w := s.view.pins[e.id].lease, Step(s, e);
    GoneIsReleased(s, lease);
    FreedIsGone(s, e);
    StepKeepsInv(s, e);
    GoneForGood(w, events, lease);
  }

  lemma FreedIsGone(s: System, e: Event)
    requires Inv(s) && Legal(s, e) && e.ReleaseEvent? && e.id in s.view.pins
    requires ReleaseAnswers(s.view, e.requester, e.id, e.now, Released)
    ensures e.id !in Step(s, e).view.pins && Gone(Step(s, e), s.view.pins[e.id].lease)
  {
    hide Step, Ends, ReleaseAnswers, TokensBelong, SessionsAccounted, PinsNamed, SessionAgrees, OwnersAgree;
    EventAccounted(s, e);
    RequestsAccounted(s, e);
    AcquiredGrows(s, e);
    var lease, w := s.view.pins[e.id].lease, Step(s, e);
    assert lease in LeasesOf(s.view.pins);
    forall p | p in w.view.pins ensures w.view.pins[p].lease != lease {
      assert p in w.view.pins && w.view.pins[p] == w.view.pins[p];
    }
    forall r | r in s.requests && !s.requests[r].Checked? ensures s.requests[r].lease in InFlight(s.requests) {
    }
  }

  lemma {:induction false} GoneForGood(s: System, events: seq<Event>, lease: Lease)
    requires Inv(s) && Runs(s, events) && Gone(s, lease)
    ensures Gone(After(s, events), lease) && After(s, events).view.released[lease] == 1
    decreases |events|
  {
    hide Inv, Legal, Step, Gone;
    if events == [] {
      GoneIsReleased(s, lease);
    } else {
      StepKeepsInv(s, events[0]);
      GoneStays(s, events[0], lease);
      GoneForGood(Step(s, events[0]), events[1..], lease);
    }
  }
}
