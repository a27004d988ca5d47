/** The lifecycle of one admitted invocation: counters and flags that a loaded Worker's calls,
    background tasks, microtasks and lifecycle acknowledgments update in any interleaving.

    `State` holds the fields of the invocation object, the resolver that `finish` and `fail`
    currently stand for, and the promises those fields refer to. A lifecycle call is named by
    its position in `log`; a transition promise by its position in `transitions`. */
module InvocationLifecycle {
  import opened Outcomes

  datatype Lifecycle = Start(epoch: nat) | Complete(epoch: nat)

  datatype Ack = Pending | Accepted | Rejected

  /** completionAck.then(beginEpoch).finally(...): waits for a completion, then for a start. */
  datatype Transition = AwaitingAck(complete: nat) | AwaitingStart(start: nat) | Done(ok: bool)

  datatype Promise = OnStart(start: nat) | OnTransition(transition: nat)

  /** A call between its arrival and its `done`. */
  datatype Call = Waiting(on: Promise) | Running | Reporting

  datatype State = State(
    pending: int,
    running: int,
    mainDone: bool,
    completing: bool,
    completionQueued: bool,
    started: bool,
    epoch: nat,
    startPromise: Option<nat>,
    transitionPromise: Option<nat>,
    completionAck: nat,
    resolver: nat,
    log: seq<Lifecycle>,
    acks: seq<Ack>,
    transitions: seq<Transition>,
    reactions: map<nat, nat>,
    calls: map<nat, Call>,
    tasks: set<nat>,
    settled: seq<nat>)

  /** `completionAck` is not read before the first completion sets it. */
  const INITIAL := State(0, 0, false, false, false, false, 0, None, None, 0, 0, [], [], [], map[], map[], {}, [])

  // ----- the functions of the invocation object

  /** Opens an epoch: its completion promise gets the resolver, its start call goes out. */
  function BeginEpoch(s: State): State {
    var epoch := s.epoch + 1;
    s.(epoch := epoch, started := false, mainDone := false, completing := false,
       resolver := epoch, startPromise := Some(|s.log|),
       log := s.log + [Start(epoch)], acks := s.acks + [Pending])
  }

  /** The promise a call must wait for when it cannot run at once. */
  function Admission(s: State): (State, Promise) {
    if s.completing then
      if s.transitionPromise.Some? then (s, OnTransition(s.transitionPromise.value))
      else
        (s.(transitionPromise := Some(|s.transitions|),
            transitions := s.transitions + [AwaitingAck(s.completionAck)]),
         OnTransition(|s.transitions|))
    else if s.startPromise.Some? then (s, OnStart(s.startPromise.value))
    else (BeginEpoch(s), OnStart(|s.log|))
  }

  function MaybeComplete(s: State): State {
    if !s.started || !s.mainDone || s.running != 0 || s.pending != 0 || s.completing || s.completionQueued
    then s
    else s.(completionQueued := true)
  }

  /** The queued completion check. It does not look at `started` again. */
  function Microtask(s: State): State {
    var t := s.(completionQueued := false);
    if !s.mainDone || s.running != 0 || s.pending != 0 || s.completing then t
    else t.(completing := true, completionAck := |s.log|,
            log := s.log + [Complete(s.epoch)], acks := s.acks + [Pending],
            reactions := s.reactions[|s.log| := s.resolver])
  }

  function Arrive(s: State, call: nat): State {
    var t := s.(running := s.running + 1);
    if t.started && !t.completing then t.(calls := t.calls[call := Running])
    else
      var (u, on) := Admission(t);
      u.(calls := u.calls[call := Waiting(on)])
  }

  function Finish(s: State, call: nat): State {
    MaybeComplete(s.(running := s.running - 1, mainDone := true, calls := s.calls - {call}))
  }

  function Track(s: State, tasks: set<nat>): State {
    s.(pending := s.pending + |tasks|, tasks := s.tasks + tasks)
  }

  function Untrack(s: State, task: nat): State {
    MaybeComplete(s.(pending := s.pending - 1, tasks := s.tasks - {task}))
  }

  // ----- promises settling

  function StartAnswered(s: State, start: nat, ok: bool): State
    requires start < |s.acks|
  {
    if ok then s.(acks := s.acks[start := Accepted], started := true)
    else s.(acks := s.acks[start := Rejected], settled := s.settled + [s.resolver])
  }

  function CompleteAnswered(s: State, complete: nat, ok: bool): State
    requires complete < |s.acks|
  {
    s.(acks := s.acks[complete := if ok then Accepted else Rejected])
  }

  /** completionAck.then(finish, fail), with the resolver captured when it was registered. */
  function React(s: State, complete: nat): State
    requires complete in s.reactions
  {
    s.(settled := s.settled + [s.reactions[complete]], reactions := s.reactions - {complete})
  }

  function TransitionBegins(s: State, t: nat): State
    requires t < |s.transitions|
  {
    BeginEpoch(s).(transitions := s.transitions[t := AwaitingStart(|s.log|)])
  }

  function TransitionSettles(s: State, t: nat, ok: bool): State
    requires t < |s.transitions|
  {
    s.(transitions := s.transitions[t := Done(ok)], transitionPromise := None)
  }

  function Resume(s: State, call: nat, ok: bool): State {
    s.(calls := s.calls[call := if ok then Running else Reporting])
  }

  // ----- events

  /** The value of a promise, if it has settled: whether it was fulfilled. */
  function Outcome(s: State, p: Promise): Option<bool> {
    match p
    case OnStart(start) =>
      if start < |s.acks| && s.acks[start] != Pending then Some(s.acks[start] == Accepted) else None
    case OnTransition(t) =>
      if t < |s.transitions| && s.transitions[t].Done? then Some(s.transitions[t].ok) else None
  }

  /** What a transition's settled inputs make of it: None while they are pending. */
  function TransitionOutcome(s: State, t: Transition): Option<bool> {
    match t
    case AwaitingAck(complete) =>
      if complete < |s.acks| && s.acks[complete] == Rejected then Some(false) else None
    case AwaitingStart(start) => Outcome(s, OnStart(start))
    case Done(_) => None
  }

  datatype Event =
    | CallArrives(call: nat)
    | WaitUntil(task: nat)
    | StartAnswer(start: nat, ok: bool)
    | CompleteAnswer(complete: nat, ok: bool)
    | CompletionReaction(complete: nat)
    | TransitionContinues(transition: nat)
    | TransitionEnds(transition: nat)
    | CallResumes(call: nat)
    | CallReturns(call: nat, streams: set<nat>)               // streamed responses stay pending as tasks
    | CallThrows(call: nat, report: nat, streams: set<nat>)   // synchronously: its report is waited for
    | CallRejects(call: nat)                                  // asynchronously: it reports before `done`
    | ReportSettles(call: nat)
    | TaskSettles(task: nat)
    | CompletionCheck

  predicate Enabled(s: State, e: Event) {
    match e
    case CallArrives(c) => c !in s.calls
    case WaitUntil(t) => t !in s.tasks
    case StartAnswer(i, _) => i < |s.log| && i < |s.acks| && s.log[i].Start? && s.acks[i] == Pending
    case CompleteAnswer(i, _) => i < |s.log| && i < |s.acks| && s.log[i].Complete? && s.acks[i] == Pending
    case CompletionReaction(i) => i in s.reactions && i < |s.acks| && s.acks[i] != Pending
    case TransitionContinues(t) =>
      && t < |s.transitions| && s.transitions[t].AwaitingAck?
      && s.transitions[t].complete < |s.acks| && s.acks[s.transitions[t].complete] == Accepted
    case TransitionEnds(t) => t < |s.transitions| && TransitionOutcome(s, s.transitions[t]).Some?
    case CallResumes(c) => c in s.calls && s.calls[c].Waiting? && Outcome(s, s.calls[c].on).Some?
    case CallReturns(c, streams) => c in s.calls && s.calls[c].Running? && streams !! s.tasks
    case CallThrows(c, report, streams) =>
      c in s.calls && s.calls[c].Running? && streams !! s.tasks && report !in s.tasks + streams
    case CallRejects(c) => c in s.calls && s.calls[c].Running?
    case ReportSettles(c) => c in s.calls && s.calls[c].Reporting?
    case TaskSettles(t) => t in s.tasks
    case CompletionCheck => s.completionQueued
  }

  function Step(s: State, e: Event): State
    requires Enabled(s, e)
  {
    match e
    case CallArrives(c) => Arrive(s, c)
    case WaitUntil(t) => Track(s, {t})
    case StartAnswer(i, ok) => StartAnswered(s, i, ok)
    case CompleteAnswer(i, ok) => CompleteAnswered(s, i, ok)
    case CompletionReaction(i) => React(s, i)
    case TransitionContinues(t) => TransitionBegins(s, t)
    case TransitionEnds(t) => TransitionSettles(s, t, TransitionOutcome(s, s.transitions[t]).value)
    case CallResumes(c) => Resume(s, c, Outcome(s, s.calls[c].on).value)
    case CallReturns(c, streams) => Finish(Track(s, streams), c)
    case CallThrows(c, report, streams) => Finish(Track(s, streams + {report}), c)
    case CallRejects(c) => s.(calls := s.calls[c := Reporting])
    case ReportSettles(c) => Finish(s, c)
    case TaskSettles(t) => Untrack(s, t)
    case CompletionCheck => Microtask(s)
  }

  ghost predicate Runs(s: State, events: seq<Event>)
    decreases |events|
  {
    events == [] || (Enabled(s, events[0]) && Runs(Step(s, events[0]), events[1..]))
  }

  ghost function After(s: State, events: seq<Event>): State
    requires Runs(s, events)
    decreases |events|
  {
    if events == [] then s else After(Step(s, events[0]), events[1..])
  }

  // ----- the invariant

  /** start(1), complete(1), start(2), complete(2), ... */
  ghost predicate Alternates(log: seq<Lifecycle>) {
    forall i :: 0 <= i < |log| ==> log[i] == if i % 2 == 0 then Start(i / 2 + 1) else Complete(i / 2 + 1)
  }

  /** The fields and the protocol: epoch k has sent start(k), and complete(k) when `completing`;
      every earlier call was accepted. */
  ghost predicate Protocol(s: State) {
    && Alternates(s.log) && |s.acks| == |s.log|
    && s.resolver == s.epoch
    && (if s.epoch == 0
        then s.log == [] && s.startPromise == None && !s.started && !s.completing && !s.mainDone
        else |s.log| == (if s.completing then 2 * s.epoch else 2 * s.epoch - 1)
             && s.startPromise == Some(2 * s.epoch - 2)
             && (s.started <==> s.acks[2 * s.epoch - 2] == Accepted))
    && (forall i :: 0 <= i < |s.log| - 1 ==> s.acks[i] == Accepted)
    && (s.completing ==> s.started && s.mainDone && s.completionAck == |s.log| - 1)
    && (s.completionQueued ==> s.started && !s.completing)
    && (s.mainDone ==> s.started || Dead(s))
  }

  /** The latest lifecycle call was definitively rejected: nothing follows it. */
  predicate Dead(s: State) {
    |s.log| > 0 && |s.acks| == |s.log| && s.acks[|s.log| - 1] == Rejected
  }

  predicate Open(s: State) { s.started && !s.completing }

  ghost predicate CallFits(s: State, call: Call) {
    match call
    case Running => Open(s)
    case Reporting => Open(s) || Dead(s)
    case Waiting(OnStart(i)) => s.epoch > 0 && !s.completing && i == 2 * s.epoch - 2
    case Waiting(OnTransition(t)) =>
      t < |s.transitions| && (match s.transitions[t]
        case Done(ok) => if ok then Open(s) else Dead(s)
        case _ => s.transitionPromise == Some(t))
  }

  ghost predicate TransitionFits(s: State) {
    && (forall t :: 0 <= t < |s.transitions| && !s.transitions[t].Done? ==> s.transitionPromise == Some(t))
    && (s.transitionPromise.Some? ==>
          var t := s.transitionPromise.value;
          && t < |s.transitions| && !s.transitions[t].Done?
          && (s.transitions[t].AwaitingAck? ==> s.completing && s.transitions[t].complete == |s.log| - 1)
          && (s.transitions[t].AwaitingStart? ==>
                s.epoch > 0 && !s.completing && s.transitions[t].start == 2 * s.epoch - 2)
          && exists c :: c in s.calls && s.calls[c] == Waiting(OnTransition(t)))
  }

  /** The counters count, and an epoch without a finished call still has one to come. */
  ghost predicate Counted(s: State) {
    && s.running == |s.calls| && s.pending == |s.tasks|
    && (forall c :: c in s.calls ==> CallFits(s, s.calls[c]))
    && (s.epoch > 0 && !s.mainDone ==> s.calls != map[])
    && (s.epoch == 0 ==> s.calls == map[])
  }

  /** No lost wakeup. */
  ghost predicate CheckQueued(s: State) {
    Open(s) && s.mainDone && s.running == 0 && s.pending == 0 ==> s.completionQueued
  }

  /** How often the promise of epoch e must have been settled by now. */
  function Due(s: State, e: nat): nat {
    if e == 0 || e > s.epoch then 0
    else if 2 * e - 1 < |s.log| then (if 2 * e - 1 in s.reactions then 0 else 1)
    else if 2 * e - 2 < |s.acks| && s.acks[2 * e - 2] == Rejected then 1 else 0
  }

  /** The promise of epoch e is settled once, by the answer to its own complete call or by the
      rejection of its own start call. */
  ghost predicate SettledOnce(s: State) {
    && (forall i :: i in s.reactions ==> i < |s.log| && i % 2 == 1 && s.reactions[i] == i / 2 + 1)
    && (forall i: nat :: i < |s.log| && i < |s.acks| && i % 2 == 1 && i !in s.reactions ==> s.acks[i] != Pending)
    && (forall e: nat :: multiset(s.settled)[e] == Due(s, e))
  }

  ghost predicate Inv(s: State) {
    Protocol(s) && TransitionFits(s) && Counted(s) && CheckQueued(s) && SettledOnce(s)
  }

  lemma StepKeepsInv(s: State, e: Event)
    requires Inv(s) && Enabled(s, e)
    ensures Inv(Step(s, e))
  {
    match e
    case CallArrives(c) => ArriveKeepsInv(s, c);
    case WaitUntil(t) => TrackKeepsInv(s, {t});
    case StartAnswer(i, ok) => StartAnsweredKeepsInv(s, i, ok);
    case CompleteAnswer(i, ok) => CompleteAnsweredKeepsInv(s, i, ok);
    case CompletionReaction(i) => ReactKeepsInv(s, i);
    case TransitionContinues(t) => TransitionBeginsKeepsInv(s, t);
    case TransitionEnds(t) => TransitionSettlesKeepsInv(s, t);
    case CallResumes(c) => ResumeKeepsInv(s, c);
    case CallReturns(c, streams) =>
      TrackKeepsInv(s, streams);
      FinishKeepsInv(Track(s, streams), c);
    case CallThrows(c, report, streams) =>
      TrackKeepsInv(s, streams + {report});
      FinishKeepsInv(Track(s, streams + {report}), c);
    case CallRejects(c) => RejectKeepsInv(s, c);
    case ReportSettles(c) => FinishKeepsInv(s, c);
    case TaskSettles(t) => UntrackKeepsInv(s, t);
    case CompletionCheck => MicrotaskKeepsInv(s);
  }

  /** A call that fits the state as it is joins it: it runs at once or waits for a promise
      that is already there. */
  lemma JoinKeepsInv(s: State, c: nat, call: Call)
    requires Inv(s) && c !in s.calls && s.epoch > 0 && CallFits(s, call)
    ensures Inv(s.(running := s.running + 1, calls := s.calls[c := call]))
  {
    hide Protocol, TransitionFits, SettledOnce, CallFits;
    var w := s.(running := s.running + 1, calls := s.calls[c := call]);
    ProtocolIgnoresWork(s, w);
    SettledIgnoresWork(s, w);
    CallsStillFit(s, w);
    assert |w.calls| == |s.calls| + 1;
    JoinedWaiters(s, c, call);
  }

  lemma JoinedWaiters(s: State, c: nat, call: Call)
    requires TransitionFits(s) && c !in s.calls
    ensures TransitionFits(s.(running := s.running + 1, calls := s.calls[c := call]))
  {
    WaiterStays(s, s.(running := s.running + 1, calls := s.calls[c := call]), c);
  }

  /** The first call opens epoch 1. */
  lemma FirstCallSettled(s: State, c: nat)
    requires Protocol(s) && SettledOnce(s) && s.epoch == 0
    ensures SettledOnce(Arrive(s, c))
  {
  }

  lemma FirstCallKeepsInv(s: State, c: nat)
    requires Inv(s) && c !in s.calls && s.epoch == 0
    ensures Inv(Arrive(s, c))
  {
    hide SettledOnce;
    FirstCallSettled(s, c);
    assert s.calls == map[];
    assert Arrive(s, c).calls[c] == Waiting(OnStart(0));
  }

  /** The first call that finds a completion under way creates the transition. */
  lemma NewTransitionKeepsInv(s: State, c: nat)
    requires Inv(s) && c !in s.calls && s.completing && s.transitionPromise.None?
    ensures Inv(Arrive(s, c))
  {
    hide SettledOnce;
    var w := Arrive(s, c);
    assert SettledOnce(w) by { SettledIgnoresWork(s, w); }
    assert |w.calls| == |s.calls| + 1;
    assert w.calls[c] == Waiting(OnTransition(|s.transitions|));
  }

  lemma ArriveKeepsInv(s: State, c: nat)
    requires Inv(s) && c !in s.calls
    ensures Inv(Arrive(s, c))
  {
    if s.epoch == 0 {
      FirstCallKeepsInv(s, c);
    } else if s.completing && s.transitionPromise.None? {
      NewTransitionKeepsInv(s, c);
    } else {
      hide SettledOnce, CheckQueued;
      JoinKeepsInv(s, c, Arrive(s, c).calls[c]);
    }
  }

  /** The protocol does not depend on the calls and tasks as such. */
  lemma ProtocolIgnoresWork(s: State, w: State)
    requires Protocol(s)
    requires w == s.(running := w.running, pending := w.pending, calls := w.calls, tasks := w.tasks,
                     transitions := w.transitions, transitionPromise := w.transitionPromise)
    ensures Protocol(w)
  {
  }

  lemma SettledIgnoresWork(s: State, w: State)
    requires SettledOnce(s)
    requires w.settled == s.settled && w.reactions == s.reactions && w.log == s.log && w.acks == s.acks
    requires w.epoch == s.epoch
    ensures SettledOnce(w)
  {
  }

  /** A call that changes, unless it waits for a pending transition, leaves that one its waiter. */
  lemma WaiterStays(s: State, w: State, c: nat)
    requires TransitionFits(s)
    requires c in s.calls && s.calls[c].Waiting? && s.transitionPromise.Some? ==>
               s.calls[c].on != OnTransition(s.transitionPromise.value)
    requires forall d :: d in s.calls && d != c ==> d in w.calls && w.calls[d] == s.calls[d]
    ensures s.transitionPromise.Some? ==>
      exists d :: d in w.calls && w.calls[d] == Waiting(OnTransition(s.transitionPromise.value))
  {
    if s.transitionPromise.Some? {
      var d :| d in s.calls && s.calls[d] == Waiting(OnTransition(s.transitionPromise.value));
      assert w.calls[d] == s.calls[d];
    }
  }

  lemma TrackKeepsInv(s: State, tasks: set<nat>)
    requires Inv(s) && tasks !! s.tasks
    ensures Inv(Track(s, tasks))
  {
    hide Protocol, TransitionFits, Counted, CheckQueued, SettledOnce;
    var w := Track(s, tasks);
    ProtocolIgnoresWork(s, w);
    SettledIgnoresWork(s, w);
    TransitionIgnoresTasks(s, w);
    TrackCounted(s, tasks);
  }

  lemma TrackCounted(s: State, tasks: set<nat>)
    requires Counted(s) && CheckQueued(s) && tasks !! s.tasks
    ensures Counted(Track(s, tasks)) && CheckQueued(Track(s, tasks))
  {
    var w := Track(s, tasks);
    assert |s.tasks + tasks| == |s.tasks| + |tasks|;
    CallsStillFit(s, w);
  }

  lemma TrackTwice(s: State, tasks: set<nat>, task: nat)
    requires task !in tasks
    ensures Track(Track(s, tasks), {task}) == Track(s, tasks + {task})
  {
    assert s.tasks + tasks + {task} == s.tasks + (tasks + {task});
  }

  /** Whether a call fits depends on the protocol and the transitions only. */
  lemma CallsStillFit(s: State, w: State)
    requires w == s.(running := w.running, pending := w.pending, calls := w.calls, tasks := w.tasks,
                     mainDone := w.mainDone, completionQueued := w.completionQueued)
    ensures forall call :: CallFits(s, call) <==> CallFits(w, call)
  {
  }

  lemma TransitionIgnoresTasks(s: State, w: State)
    requires TransitionFits(s)
    requires w == s.(pending := w.pending, tasks := w.tasks, completionQueued := w.completionQueued)
    ensures TransitionFits(w)
  {
  }

  lemma StartAnsweredSettled(s: State, i: nat, ok: bool)
    requires Protocol(s) && SettledOnce(s) && Enabled(s, StartAnswer(i, ok))
    ensures SettledOnce(StartAnswered(s, i, ok))
  {
    hide Protocol, Alternates;
    StartIndex(s, i);
  }

  /** A pending start is the last call, that of the epoch. */
  lemma StartIndex(s: State, i: nat)
    requires Protocol(s) && i < |s.log| && s.log[i].Start? && s.acks[i] == Pending
    ensures s.epoch > 0 && i == 2 * s.epoch - 2 == |s.log| - 1 && |s.acks| == |s.log| && s.resolver == s.epoch
  {
  }

  lemma StartAnsweredKeepsInv(s: State, i: nat, ok: bool)
    requires Inv(s) && Enabled(s, StartAnswer(i, ok))
    ensures Inv(StartAnswered(s, i, ok))
  {
    hide Protocol, TransitionFits, Counted, CheckQueued, SettledOnce;
    StartAnsweredSettled(s, i, ok);
    StartAnsweredProtocol(s, i, ok);
    StartAnsweredFits(s, i, ok);
  }

  lemma StartAnsweredProtocol(s: State, i: nat, ok: bool)
    requires Protocol(s) && Enabled(s, StartAnswer(i, ok))
    ensures Protocol(StartAnswered(s, i, ok))
  {
  }

  lemma StartAnsweredFits(s: State, i: nat, ok: bool)
    requires Protocol(s) && TransitionFits(s) && Counted(s) && CheckQueued(s) && Enabled(s, StartAnswer(i, ok))
    ensures var w := StartAnswered(s, i, ok); TransitionFits(w) && Counted(w) && CheckQueued(w)
  {
  }

  lemma CompleteAnsweredSettled(s: State, i: nat, ok: bool)
    requires Protocol(s) && SettledOnce(s) && Enabled(s, CompleteAnswer(i, ok))
    ensures SettledOnce(CompleteAnswered(s, i, ok))
  {
  }

  lemma CompleteAnsweredKeepsInv(s: State, i: nat, ok: bool)
    requires Inv(s) && Enabled(s, CompleteAnswer(i, ok))
    ensures Inv(CompleteAnswered(s, i, ok))
  {
    hide Protocol, TransitionFits, Counted, CheckQueued, SettledOnce;
    CompleteAnsweredSettled(s, i, ok);
    CompleteAnsweredProtocol(s, i, ok);
    CompleteAnsweredFits(s, i, ok);
  }

  lemma CompleteAnsweredProtocol(s: State, i: nat, ok: bool)
    requires Protocol(s) && Enabled(s, CompleteAnswer(i, ok))
    ensures Protocol(CompleteAnswered(s, i, ok))
  {
    hide Alternates;
    CompleteIndex(s.log, i);
  }

  lemma CompleteAnsweredFits(s: State, i: nat, ok: bool)
    requires Protocol(s) && TransitionFits(s) && Counted(s) && CheckQueued(s) && Enabled(s, CompleteAnswer(i, ok))
    ensures var w := CompleteAnswered(s, i, ok); TransitionFits(w) && Counted(w) && CheckQueued(w)
  {
    hide Alternates;
    CompleteIndex(s.log, i);
  }

  lemma CompleteIndex(log: seq<Lifecycle>, i: nat)
    requires Alternates(log) && i < |log| && log[i].Complete?
    ensures i % 2 == 1 && log[i] == Complete(i / 2 + 1)
  {
  }

  /** Settling a promise changes nothing else. */
  lemma OthersIgnoreSettling(s: State, w: State)
    requires Protocol(s) && TransitionFits(s) && Counted(s) && CheckQueued(s)
    requires w == s.(settled := w.settled, reactions := w.reactions)
    ensures Protocol(w) && TransitionFits(w) && Counted(w) && CheckQueued(w)
  {
  }

  lemma ReactDue(s: State, i: nat, e: nat)
    requires Protocol(s) && SettledOnce(s) && Enabled(s, CompletionReaction(i))
    ensures Due(React(s, i), e) == Due(s, e) + if e == s.reactions[i] then 1 else 0
  {
    hide Alternates;
    assert 2 * s.reactions[i] - 1 == i;
  }

  lemma ReactSettled(s: State, i: nat)
    requires Protocol(s) && SettledOnce(s) && Enabled(s, CompletionReaction(i))
    ensures SettledOnce(React(s, i))
  {
    hide Protocol, Due;
    var w := React(s, i);
    forall e: nat ensures multiset(w.settled)[e] == Due(w, e) {
      ReactDue(s, i, e);
      assert multiset(s.settled)[e] == Due(s, e);
    }
  }

  lemma ReactKeepsInv(s: State, i: nat)
    requires Inv(s) && Enabled(s, CompletionReaction(i))
    ensures Inv(React(s, i))
  {
    hide Protocol, TransitionFits, Counted, CheckQueued, SettledOnce;
    OthersIgnoreSettling(s, React(s, i));
    ReactSettled(s, i);
  }

  lemma TransitionBeginsSettled(s: State, t: nat)
    requires Protocol(s) && TransitionFits(s) && SettledOnce(s) && Enabled(s, TransitionContinues(t))
    ensures SettledOnce(TransitionBegins(s, t))
  {
  }

  lemma TransitionBeginsKeepsInv(s: State, t: nat)
    requires Inv(s) && Enabled(s, TransitionContinues(t))
    ensures Inv(TransitionBegins(s, t))
  {
    hide SettledOnce;
    TransitionBeginsSettled(s, t);
  }

  lemma TransitionSettlesKeepsInv(s: State, t: nat)
    requires Inv(s) && Enabled(s, TransitionEnds(t))
    ensures Inv(Step(s, TransitionEnds(t)))
  {
    hide Protocol, TransitionFits, Counted, CheckQueued, SettledOnce;
    var w := Step(s, TransitionEnds(t));
    SettledIgnoresWork(s, w);
    ProtocolIgnoresWork(s, w);
    TransitionSettlesFits(s, t);
  }

  /** A transition that ends leaves an open epoch behind, or nothing. */
  lemma TransitionOutcomeFits(s: State, t: nat)
    requires Protocol(s) && TransitionFits(s) && Enabled(s, TransitionEnds(t))
    ensures s.transitionPromise == Some(t)
    ensures if TransitionOutcome(s, s.transitions[t]).value then Open(s) else Dead(s)
  {
    hide Alternates;
  }

  lemma TransitionSettlesFits(s: State, t: nat)
    requires Protocol(s) && TransitionFits(s) && Counted(s) && CheckQueued(s) && Enabled(s, TransitionEnds(t))
    ensures var w := Step(s, TransitionEnds(t)); TransitionFits(w) && Counted(w) && CheckQueued(w)
  {
    hide Protocol, TransitionOutcome, CallFits;
    TransitionOutcomeFits(s, t);
    var ok := TransitionOutcome(s, s.transitions[t]).value;
    forall c | c in s.calls ensures CallFits(TransitionSettles(s, t, ok), s.calls[c]) {
      EndedCallFits(s, t, ok, s.calls[c]);
    }
  }

  lemma EndedCallFits(s: State, t: nat, ok: bool, call: Call)
    requires TransitionFits(s) && CallFits(s, call) && t < |s.transitions| && !s.transitions[t].Done?
    requires if ok then Open(s) else Dead(s)
    ensures CallFits(TransitionSettles(s, t, ok), call)
  {
  }

  /** A call that takes its next step where it fits. */
  lemma MoveKeepsInv(s: State, c: nat, next: Call)
    requires Inv(s) && c in s.calls && CallFits(s, next) && !next.Waiting?
    requires s.calls[c].Waiting? ==> Outcome(s, s.calls[c].on).Some?
    ensures Inv(s.(calls := s.calls[c := next]))
  {
    hide Protocol, TransitionFits, SettledOnce, CallFits, Outcome;
    var w := s.(calls := s.calls[c := next]);
    SettledIgnoresWork(s, w);
    ProtocolIgnoresWork(s, w);
    CallsStillFit(s, w);
    assert w.calls.Keys == s.calls.Keys && |w.calls| == |s.calls|;
    MovedWaiters(s, c, next);
  }

  lemma MovedWaiters(s: State, c: nat, next: Call)
    requires TransitionFits(s) && c in s.calls && !next.Waiting?
    requires s.calls[c].Waiting? ==> Outcome(s, s.calls[c].on).Some?
    ensures TransitionFits(s.(calls := s.calls[c := next]))
  {
    WaiterStays(s, s.(calls := s.calls[c := next]), c);
  }

  lemma ResumeKeepsInv(s: State, c: nat)
    requires Inv(s) && Enabled(s, CallResumes(c))
    ensures Inv(Step(s, CallResumes(c)))
  {
    var next := Step(s, CallResumes(c)).calls[c];
    assert CallFits(s, next) by { ResumedFits(s, c); }
    hide Inv, CallFits;
    MoveKeepsInv(s, c, next);
  }

  lemma ResumedFits(s: State, c: nat)
    requires Inv(s) && Enabled(s, CallResumes(c))
    ensures CallFits(s, Step(s, CallResumes(c)).calls[c])
  {
    hide SettledOnce, CheckQueued, Alternates;
    assert CallFits(s, s.calls[c]);
  }

  lemma RejectKeepsInv(s: State, c: nat)
    requires Inv(s) && Enabled(s, CallRejects(c))
    ensures Inv(Step(s, CallRejects(c)))
  {
    hide Protocol, TransitionFits, CheckQueued, SettledOnce;
    MoveKeepsInv(s, c, Reporting);
  }

  lemma MaybeCompleteRestoresInv(s: State)
    requires Protocol(s) && TransitionFits(s) && Counted(s) && SettledOnce(s)
    ensures Inv(MaybeComplete(s))
  {
    hide SettledOnce;
    SettledIgnoresWork(s, MaybeComplete(s));
  }

  lemma FinishKeepsInv(s: State, c: nat)
    requires Inv(s) && c in s.calls && !s.calls[c].Waiting?
    ensures Inv(Finish(s, c))
  {
    hide Protocol, TransitionFits, Counted, SettledOnce, MaybeComplete;
    var w := s.(running := s.running - 1, mainDone := true, calls := s.calls - {c});
    SettledIgnoresWork(s, w);
    FinishedCounted(s, c);
    FinishedWaiters(s, c);
    MaybeCompleteRestoresInv(w);
  }

  lemma FinishedWaiters(s: State, c: nat)
    requires TransitionFits(s) && c in s.calls && !s.calls[c].Waiting?
    ensures TransitionFits(s.(running := s.running - 1, mainDone := true, calls := s.calls - {c}))
  {
    WaiterStays(s, s.(running := s.running - 1, mainDone := true, calls := s.calls - {c}), c);
  }

  lemma FinishedCounted(s: State, c: nat)
    requires Protocol(s) && Counted(s) && c in s.calls && !s.calls[c].Waiting?
    ensures var w := s.(running := s.running - 1, mainDone := true, calls := s.calls - {c});
      Protocol(w) && Counted(w)
  {
    hide Alternates;
    var w := s.(running := s.running - 1, mainDone := true, calls := s.calls - {c});
    CallsStillFit(s, w);
    assert |w.calls| == |s.calls| - 1;
    assert CallFits(s, s.calls[c]);
  }

  lemma UntrackKeepsInv(s: State, t: nat)
    requires Inv(s) && t in s.tasks
    ensures Inv(Untrack(s, t))
  {
    hide Protocol, TransitionFits, SettledOnce, MaybeComplete, CallFits;
    var w := s.(pending := s.pending - 1, tasks := s.tasks - {t});
    ProtocolIgnoresWork(s, w);
    SettledIgnoresWork(s, w);
    TransitionIgnoresTasks(s, w);
    CallsStillFit(s, w);
    MaybeCompleteRestoresInv(w);
  }

  lemma MicrotaskSettled(s: State)
    requires Protocol(s) && SettledOnce(s) && s.completionQueued
    ensures SettledOnce(Microtask(s))
  {
    var w := Microtask(s);
    assert w.settled == s.settled && w.epoch == s.epoch;
    if w.log != s.log {
      assert |s.log| == 2 * s.epoch - 1;
    }
  }

  /** Sending the completion of an open epoch. */
  lemma MicrotaskProtocol(s: State)
    requires Protocol(s) && s.completionQueued
    ensures Protocol(Microtask(s))
  {
  }

  lemma MicrotaskFits(s: State)
    requires Protocol(s) && TransitionFits(s) && Counted(s) && CheckQueued(s) && s.completionQueued
    ensures TransitionFits(Microtask(s)) && Counted(Microtask(s)) && CheckQueued(Microtask(s))
  {
    hide Alternates;
  }

  lemma MicrotaskKeepsInv(s: State)
    requires Inv(s) && s.completionQueued
    ensures Inv(Microtask(s))
  {
    hide Protocol, TransitionFits, Counted, CheckQueued, SettledOnce, Microtask;
    MicrotaskSettled(s);
    MicrotaskProtocol(s);
    MicrotaskFits(s);
  }
}
