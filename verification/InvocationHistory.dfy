/** The state of an invocation told from its events alone: which calls and tasks are unfinished, how
    each lifecycle call was answered, and when the body of a call runs. */
module InvocationHistory {
  import opened Outcomes
  import opened InvocationLifecycle
  import opened InvocationTheorems

  // ----- calls, tasks and answers are those of the events

  function CallsNext(calls: set<nat>, e: Event): set<nat> {
    match e
    case CallArrives(c) => calls + {c}
    case CallReturns(c, _) => calls - {c}
    case CallThrows(c, _, _) => calls - {c}
    case ReportSettles(c) => calls - {c}
    case _ => calls
  }

  /** The calls that have arrived and not ended. */
  function CallsAfter(calls: set<nat>, events: seq<Event>): set<nat>
    decreases |events|
  {
    if events == [] then calls else CallsAfter(CallsNext(calls, events[0]), events[1..])
  }

  function TasksNext(tasks: set<nat>, e: Event): set<nat> {
    match e
    case WaitUntil(t) => tasks + {t}
    case CallReturns(_, streams) => tasks + streams
    case CallThrows(_, report, streams) => tasks + streams + {report}
    case TaskSettles(t) => tasks - {t}
    case _ => tasks
  }

  /** The promises, streamed responses and reports that have been tracked and not settled. */
  function TasksAfter(tasks: set<nat>, events: seq<Event>): set<nat>
    decreases |events|
  {
    if events == [] then tasks else TasksAfter(TasksNext(tasks, events[0]), events[1..])
  }

  predicate Answered(events: seq<Event>, i: nat, ok: bool) {
    StartAnswer(i, ok) in events || CompleteAnswer(i, ok) in events
  }

  /** What an event does to the calls, to the tasks, to the lifecycle calls and to transitions that
      have ended. */
  predicate Touches(s: State, w: State, e: Event) {
    && w.calls.Keys == CallsNext(s.calls.Keys, e)
    && (forall c :: c in s.calls && c in w.calls && e != CallResumes(c) ==>
          w.calls[c] == if e == CallRejects(c) then Reporting else s.calls[c])
    && w.tasks == TasksNext(s.tasks, e)
    && s.log <= w.log && |s.acks| <= |w.acks|
    && AnswersOnly(s.acks, w.acks, e)
    && EndedStay(s.transitions, w.transitions)
  }

  predicate AnswersOnly(acks: seq<Ack>, next: seq<Ack>, e: Event) {
    match e
    case StartAnswer(i, ok) => i < |acks| && next == acks[i := if ok then Accepted else Rejected]
    case CompleteAnswer(i, ok) => i < |acks| && next == acks[i := if ok then Accepted else Rejected]
    case _ => next == acks || next == acks + [Pending]
  }

  predicate EndedStay(transitions: seq<Transition>, next: seq<Transition>) {
    && |transitions| <= |next|
    && forall t :: 0 <= t < |transitions| && transitions[t].Done? ==> next[t] == transitions[t]
  }

  lemma AdmissionTouches(s: State)
    ensures var u := Admission(s).0;
      && u.calls == s.calls && u.tasks == s.tasks
      && ((u.log == s.log && u.acks == s.acks) || (s.log <= u.log && u.acks == s.acks + [Pending]))
      && EndedStay(s.transitions, u.transitions)
  {
  }

  lemma ArrivalTouches(s: State, c: nat)
    requires c !in s.calls
    ensures Touches(s, Arrive(s, c), CallArrives(c))
  {
    hide Admission;
    AdmissionTouches(s.(running := s.running + 1));
  }

  /** Calls that end and tasks that come and go touch the work and the queued check. */
  lemma WorkTouches(s: State, c: nat, t: nat)
    ensures var w := Finish(s, c);
      w == s.(running := w.running, mainDone := true, completionQueued := w.completionQueued, calls := s.calls - {c})
    ensures var w := Untrack(s, t);
      w == s.(pending := w.pending, completionQueued := w.completionQueued, tasks := s.tasks - {t})
  {
  }

  lemma ReturnTouches(s: State, c: nat, streams: set<nat>)
    requires c in s.calls && s.calls[c].Running?
    ensures Touches(s, Finish(Track(s, streams), c), CallReturns(c, streams))
  {
    hide Finish;
    WorkTouches(Track(s, streams), c, 0);
  }

  lemma ThrowTouches(s: State, c: nat, report: nat, streams: set<nat>)
    requires c in s.calls && s.calls[c].Running?
    ensures Touches(s, Finish(Track(s, streams + {report}), c), CallThrows(c, report, streams))
  {
    hide Finish;
    WorkTouches(Track(s, streams + {report}), c, 0);
    assert s.tasks + (streams + {report}) == s.tasks + streams + {report};
  }

  lemma ReportTouches(s: State, c: nat)
    requires c in s.calls && s.calls[c].Reporting?
    ensures Touches(s, Finish(s, c), ReportSettles(c))
  {
    hide Finish;
    WorkTouches(s, c, 0);
  }

  lemma TaskTouches(s: State, t: nat)
    ensures Touches(s, Untrack(s, t), TaskSettles(t))
    ensures Touches(s, Track(s, {t}), WaitUntil(t))
  {
    hide Untrack;
    WorkTouches(s, 0, t);
  }

  lemma MoveTouches(s: State, c: nat, ok: bool)
    requires c in s.calls
    ensures Touches(s, Resume(s, c, ok), CallResumes(c))
    ensures s.calls[c].Running? ==> Touches(s, s.(calls := s.calls[c := Reporting]), CallRejects(c))
  {
  }

  lemma CheckTouches(s: State)
    ensures Touches(s, Microtask(s), CompletionCheck)
  {
  }

  lemma AnswerTouches(s: State, i: nat, ok: bool)
    requires i < |s.acks|
    ensures Touches(s, StartAnswered(s, i, ok), StartAnswer(i, ok))
    ensures Touches(s, CompleteAnswered(s, i, ok), CompleteAnswer(i, ok))
    ensures i in s.reactions ==> Touches(s, React(s, i), CompletionReaction(i))
  {
  }

  lemma TransitionTouches(s: State, t: nat, ok: bool)
    requires t < |s.transitions| && !s.transitions[t].Done?
    ensures Touches(s, TransitionBegins(s, t), TransitionContinues(t))
    ensures Touches(s, TransitionSettles(s, t, ok), TransitionEnds(t))
  {
  }

  lemma StepTouches(s: State, e: Event)
    requires Enabled(s, e)
    ensures Touches(s, Step(s, e), e)
  {
    hide Touches, Arrive, Finish, Track, Untrack, StartAnswered, CompleteAnswered, React, TransitionBegins,
         TransitionSettles, Resume, Microtask;
    match e
    case CallArrives(c) => ArrivalTouches(s, c);
    case CallReturns(c, streams) => ReturnTouches(s, c, streams);
    case CallThrows(c, report, streams) => ThrowTouches(s, c, report, streams);
    case ReportSettles(c) => ReportTouches(s, c);
    case CallRejects(c) => MoveTouches(s, c, true);
    case WaitUntil(t) => TaskTouches(s, t);
    case TaskSettles(t) => TaskTouches(s, t);
    case CallResumes(c) => MoveTouches(s, c, Outcome(s, s.calls[c].on).value);
    case CompletionCheck => CheckTouches(s);
    case StartAnswer(i, ok) => AnswerTouches(s, i, ok);
    case CompleteAnswer(i, ok) => AnswerTouches(s, i, ok);
    case CompletionReaction(i) => AnswerTouches(s, i, true);
    case TransitionContinues(t) => TransitionTouches(s, t, true);
    case TransitionEnds(t) => TransitionTouches(s, t, TransitionOutcome(s, s.transitions[t]).value);
  }

  /** The unfinished calls and tasks are those of the events. */
  lemma {:induction false} WorkIsHistory(s: State, events: seq<Event>)
    requires Runs(s, events)
    ensures After(s, events).calls.Keys == CallsAfter(s.calls.Keys, events)
    ensures After(s, events).tasks == TasksAfter(s.tasks, events)
    decreases |events|
  {
    hide Enabled, Step, CallsNext, TasksNext;
    if events != [] {
      StepTouches(s, events[0]);
      WorkIsHistory(Step(s, events[0]), events[1..]);
    }
  }

  lemma AcksOfStep(s: State, e: Event, i: nat)
    requires Enabled(s, e) && i < |Step(s, e).acks|
    ensures |s.acks| <= |Step(s, e).acks|
    ensures Step(s, e).acks[i] ==
      if Answered([e], i, true) then Accepted
      else if Answered([e], i, false) then Rejected
      else if i < |s.acks| then s.acks[i]
      else Pending
    ensures Answered([e], i, true) || Answered([e], i, false) ==> i < |s.acks| && s.acks[i] == Pending
    ensures !(Answered([e], i, true) && Answered([e], i, false))
  {
    hide Step;
    StepTouches(s, e);
  }

  lemma AnsweredFirst(events: seq<Event>, i: nat, ok: bool)
    requires events != []
    ensures Answered(events, i, ok) <==> Answered([events[0]], i, ok) || Answered(events[1..], i, ok)
  {
    assert events == [events[0]] + events[1..];
  }

  /** Each lifecycle call stands as it was answered, once and for all, or was not answered yet. */
  lemma {:induction false} AcksAreAnswers(s: State, events: seq<Event>, i: nat)
    requires Runs(s, events) && i < |After(s, events).acks|
    ensures i < |s.acks| && s.acks[i] != Pending ==>
      After(s, events).acks[i] == s.acks[i] && !Answered(events, i, true) && !Answered(events, i, false)
    ensures (i < |s.acks| ==> s.acks[i] == Pending) ==>
      && (After(s, events).acks[i] == Accepted <==> Answered(events, i, true))
      && (After(s, events).acks[i] == Rejected <==> Answered(events, i, false))
    decreases |events|
  {
    hide Enabled, Step, Answered;
    if events == [] {
      NoAnswers(i);
    } else {
      var next := Step(s, events[0]);
      AcksAreAnswers(next, events[1..], i);
      AnsweredFirst(events, i, true);
      AnsweredFirst(events, i, false);
      AcksGrow(next, events[1..]);
      if i < |next.acks| {
        AcksOfStep(s, events[0], i);
      } else {
        NotAnsweredYet(s, events[0], i);
      }
    }
  }

  lemma NoAnswers(i: nat)
    ensures !Answered([], i, true) && !Answered([], i, false)
  {
  }

  lemma NotAnsweredYet(s: State, e: Event, i: nat)
    requires Enabled(s, e) && i >= |Step(s, e).acks|
    ensures i >= |s.acks| && !Answered([e], i, true) && !Answered([e], i, false)
  {
    hide Step;
    StepTouches(s, e);
  }

  lemma {:induction false} AcksGrow(s: State, events: seq<Event>)
    requires Runs(s, events)
    ensures |s.acks| <= |After(s, events).acks|
    decreases |events|
  {
    hide Enabled, Step;
    if events != [] {
      StepTouches(s, events[0]);
      AcksGrow(Step(s, events[0]), events[1..]);
    }
  }

  // ----- completion

  /** When a completion is sent, every call that arrived has ended and all that was tracked has
      settled, as the events tell. */
  lemma CompletionEndsHistory(events: seq<Event>, e: Event, epoch: nat)
    requires Runs(INITIAL, events) && Enabled(After(INITIAL, events), e)
    requires Sends(After(INITIAL, events), e, Complete(epoch))
    ensures CallsAfter({}, events) == {} && TasksAfter({}, events) == {}
    ensures var last := 2 * epoch - 2; last >= 0 && StartAnswer(last, true) in events
  {
    hide Inv, Enabled, Step, CallsAfter, TasksAfter, Sends;
    InitialInv();
    RunKeepsInv(INITIAL, events);
    var s := After(INITIAL, events);
    CompletionIsQuiet(s, e, epoch);
    WorkIsHistory(INITIAL, events);
    assert INITIAL.calls.Keys == {};
    OpenLog(s);
    LatestAnswer(events);
  }

  lemma OpenLog(s: State)
    requires Inv(s) && Open(s)
    ensures |s.log| == |s.acks| == 2 * s.epoch - 1
  {
    hide TransitionFits, Counted, CheckQueued, SettledOnce, Alternates;
  }

  /** The latest lifecycle call opens an epoch exactly when it is a start that was accepted. */
  lemma LatestAnswer(events: seq<Event>)
    requires Runs(INITIAL, events)
    ensures var s := After(INITIAL, events);
      Open(s) <==> s.log != [] && s.log[|s.log| - 1].Start? && StartAnswer(|s.log| - 1, true) in events
  {
    hide Enabled, Step, Inv;
    InitialInv();
    RunKeepsInv(INITIAL, events);
    var s := After(INITIAL, events);
    OpenByAck(s);
    if s.log != [] && s.log[|s.log| - 1].Start? {
      AcksAreAnswers(INITIAL, events, |s.log| - 1);
      OnlyStartsAnswer(events, |s.log| - 1);
    }
  }

  lemma OpenByAck(s: State)
    requires Inv(s)
    ensures |s.acks| == |s.log|
    ensures Open(s) <==> s.log != [] && s.log[|s.log| - 1].Start? && s.acks[|s.log| - 1] == Accepted
  {
    hide TransitionFits, Counted, CheckQueued, SettledOnce;
  }

  /** A start call is answered as a start. */
  lemma OnlyStartsAnswer(events: seq<Event>, i: nat)
    requires Runs(INITIAL, events) && i < |After(INITIAL, events).log| && After(INITIAL, events).log[i].Start?
    ensures forall ok :: CompleteAnswer(i, ok) !in events
  {
    hide Enabled, Step;
    AnswersFit(INITIAL, events, i);
  }

  lemma {:induction false} AnswersFit(s: State, events: seq<Event>, i: nat)
    requires Runs(s, events) && i < |After(s, events).log|
    ensures i < |s.log| ==> After(s, events).log[i] == s.log[i]
    ensures forall ok :: CompleteAnswer(i, ok) in events ==> After(s, events).log[i].Complete?
    decreases |events|
  {
    hide Enabled, Step;
    if events != [] {
      LogGrows(s, events[0], i);
      AnswersFit(Step(s, events[0]), events[1..], i);
      assert events == [events[0]] + events[1..];
    }
  }

  lemma LogGrows(s: State, e: Event, i: nat)
    requires Enabled(s, e)
    ensures s.log <= Step(s, e).log
    ensures e.CompleteAnswer? && e.complete == i ==> i < |s.log| && s.log[i].Complete?
  {
    hide Step;
    StepTouches(s, e);
  }

  /** The check is queued only once there is nothing left to wait for. */
  lemma QueuedWhenIdle(s: State, e: Event)
    requires Inv(s) && Enabled(s, e) && !s.completionQueued && Step(s, e).completionQueued
    ensures var w := Step(s, e); Open(w) && w.mainDone && w.calls == map[] && w.tasks == {}
  {
    hide Inv;
    StepKeepsInv(s, e);
    IdleWhenQueued(s, e);
    NothingCounted(Step(s, e));
  }

  predicate Idle(s: State) {
    s.started && !s.completing && s.mainDone && s.running == 0 && s.pending == 0
  }

  lemma WorkQueues(s: State, c: nat, t: nat)
    ensures !s.completionQueued && Finish(s, c).completionQueued ==> Idle(Finish(s, c))
    ensures !s.completionQueued && Untrack(s, t).completionQueued ==> Idle(Untrack(s, t))
  {
  }

  lemma ArrivalQueues(s: State, c: nat)
    ensures Arrive(s, c).completionQueued == s.completionQueued
  {
  }

  lemma IdleWhenQueued(s: State, e: Event)
    requires Enabled(s, e) && !s.completionQueued && Step(s, e).completionQueued
    ensures Idle(Step(s, e))
  {
    hide Arrive, Finish, Untrack, Outcome, TransitionOutcome, Idle;
    match e
    case CallArrives(c) => ArrivalQueues(s, c);
    case CallReturns(c, streams) => WorkQueues(Track(s, streams), c, 0);
    case CallThrows(c, report, streams) => WorkQueues(Track(s, streams + {report}), c, 0);
    case ReportSettles(c) => WorkQueues(s, c, 0);
    case TaskSettles(t) => WorkQueues(s, 0, t);
    case _ =>
  }

  lemma NothingCounted(s: State)
    requires Inv(s)
    ensures s.running == 0 ==> s.calls == map[]
    ensures s.pending == 0 ==> s.tasks == {}
  {
    hide Protocol, TransitionFits, CallFits, CheckQueued, SettledOnce;
  }

  // ----- when the body of a call runs

  /** A call that arrives in an open epoch runs at once; any other waits, for a promise that has
      not settled. */
  lemma ArrivalRunsExactlyWhenOpen(s: State, c: nat)
    requires Enabled(s, CallArrives(c))
    ensures var w := Step(s, CallArrives(c));
      && w.calls.Keys == s.calls.Keys + {c} && (forall d :: d in s.calls ==> w.calls[d] == s.calls[d])
      && (Open(s) ==> w.calls[c] == Running && w.log == s.log)
      && (!Open(s) ==> w.calls[c].Waiting?)
  {
    hide Inv;
    NotOpenWaits(s, c);
  }

  lemma NotOpenWaits(s: State, c: nat)
    ensures Arrive(s, c).calls[c].Running? <==> Open(s)
    ensures Open(s) ==> Arrive(s, c).log == s.log
  {
  }

  /** A call that waited runs its body when the epoch is open, and reports when it is not. */
  lemma WaiterRunsExactlyWhenOpen(s: State, c: nat)
    requires Inv(s) && Enabled(s, CallResumes(c))
    ensures var w := Step(s, CallResumes(c));
      && w.calls == s.calls[c := if Open(s) then Running else Reporting]
      && (!Open(s) ==> Dead(s))
  {
    hide SettledOnce, CheckQueued, TransitionFits;
  }

  /** A promise that has settled stays so while the call waits for it. */
  lemma PromiseStays(s: State, e: Event, c: nat)
    requires Inv(s) && Enabled(s, e) && e != CallResumes(c)
    requires c in s.calls && s.calls[c].Waiting? && Outcome(s, s.calls[c].on).Some?
    ensures var w := Step(s, e);
      c in w.calls && w.calls[c] == s.calls[c] && Outcome(w, s.calls[c].on) == Outcome(s, s.calls[c].on)
  {
    hide Inv;
    WaitersKept(s, e, c);
    OutcomesKept(s, e, s.calls[c].on);
  }

  lemma WaitersKept(s: State, e: Event, c: nat)
    requires Enabled(s, e) && e != CallResumes(c) && c in s.calls && s.calls[c].Waiting?
    ensures c in Step(s, e).calls && Step(s, e).calls[c] == s.calls[c]
  {
    hide Step;
    StepTouches(s, e);
  }

  lemma OutcomesKept(s: State, e: Event, p: Promise)
    requires Enabled(s, e) && Outcome(s, p).Some?
    ensures Outcome(Step(s, e), p) == Outcome(s, p)
  {
    hide Step;
    StepTouches(s, e);
  }

  /** Over every run, the body of a call that waits for a settled promise begins when the call
      resumes, if the promise was fulfilled, and only then. */
  lemma {:induction false} WaitersFollowTheirPromise(s: State, events: seq<Event>, c: nat)
    requires Inv(s) && Runs(s, events) && CallResumes(c) !in events
    requires c in s.calls && s.calls[c].Waiting? && Outcome(s, s.calls[c].on).Some?
    ensures var w := After(s, events);
      && Enabled(w, CallResumes(c))
      && (BeginsBody(w, CallResumes(c)) <==> Outcome(s, s.calls[c].on) == Some(true))
    decreases |events|
  {
    hide Inv, Step, Enabled, Outcome;
    if events == [] {
      FulfilledRuns(s, c);
    } else {
      assert events[0] in events;
      StepKeepsInv(s, events[0]);
      PromiseStays(s, events[0], c);
      WaitersFollowTheirPromise(Step(s, events[0]), events[1..], c);
    }
  }

  lemma FulfilledRuns(s: State, c: nat)
    requires Inv(s) && c in s.calls && s.calls[c].Waiting? && Outcome(s, s.calls[c].on).Some?
    ensures Enabled(s, CallResumes(c))
    ensures BeginsBody(s, CallResumes(c)) <==> Outcome(s, s.calls[c].on) == Some(true)
  {
    assert Enabled(s, CallResumes(c));
    WaiterRunsExactlyWhenOpen(s, c);
    FulfilledMeansOpen(s, c);
  }

  lemma FulfilledMeansOpen(s: State, c: nat)
    requires Inv(s) && c in s.calls && s.calls[c].Waiting? && Outcome(s, s.calls[c].on).Some?
    ensures Open(s) <==> Outcome(s, s.calls[c].on) == Some(true)
  {
    hide SettledOnce, CheckQueued, TransitionFits;
  }

  /** From the beginning: a waiting call runs when it resumes exactly when the latest lifecycle call
      is a start that was accepted. */
  lemma BodiesFollowTheAnswers(events: seq<Event>, c: nat)
    requires Runs(INITIAL, events) && Enabled(After(INITIAL, events), CallResumes(c))
    ensures var s := After(INITIAL, events);
      BeginsBody(s, CallResumes(c)) <==>
        s.log != [] && s.log[|s.log| - 1].Start? && StartAnswer(|s.log| - 1, true) in events
  {
    hide Inv, Enabled, Step;
    InitialInv();
    RunKeepsInv(INITIAL, events);
    WaiterRunsExactlyWhenOpen(After(INITIAL, events), c);
    LatestAnswer(events);
  }
}
