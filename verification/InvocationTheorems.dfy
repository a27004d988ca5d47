/** What holds over every run of an invocation's lifecycle. */
module InvocationTheorems {
  import opened Outcomes
  import opened InvocationLifecycle

  lemma InitialInv()
    ensures Inv(INITIAL)
  {
  }

  lemma {:induction false} RunKeepsInv(s: State, events: seq<Event>)
    requires Inv(s) && Runs(s, events)
    ensures Inv(After(s, events))
    decreases |events|
  {
    hide Inv, Enabled, Step;
    if events != [] {
      StepKeepsInv(s, events[0]);
      RunKeepsInv(Step(s, events[0]), events[1..]);
    }
  }

  /** The lifecycle calls of every run are start(1), complete(1), start(2), complete(2), ...:
      each one follows the acceptance of the one before. */
  lemma CallsAlternate(events: seq<Event>)
    requires Runs(INITIAL, events)
    ensures var s := After(INITIAL, events);
      && Alternates(s.log) && |s.acks| == |s.log|
      && (forall i :: 0 <= i < |s.log| - 1 ==> s.acks[i] == Accepted)
  {
    hide TransitionFits, Counted, CheckQueued, SettledOnce;
    InitialInv();
    RunKeepsInv(INITIAL, events);
  }

  /** The event sends a lifecycle call. */
  predicate Sends(s: State, e: Event, call: Lifecycle)
    requires Enabled(s, e)
  {
    Step(s, e).log == s.log + [call]
  }

  /** The callback of a call starts to run. */
  predicate BeginsBody(s: State, e: Event)
    requires Enabled(s, e)
  {
    || (e.CallArrives? && Step(s, e).calls[e.call].Running?)
    || (e.CallResumes? && Step(s, e).calls[e.call].Running?)
  }

  lemma ArriveSends(s: State, c: nat)
    ensures Arrive(s, c).log == s.log || Arrive(s, c).log == s.log + [Start(s.epoch + 1)]
  {
  }

  lemma WorkSendsNothing(s: State, c: nat, tasks: set<nat>)
    ensures Finish(s, c).log == s.log && Untrack(s, c).log == s.log
    ensures Track(s, tasks).log == s.log && Finish(Track(s, tasks), c).log == s.log
  {
  }

  lemma OthersSendStarts(s: State, e: Event)
    requires Enabled(s, e) && e != CompletionCheck
    ensures Step(s, e).log == s.log || Step(s, e).log == s.log + [Start(s.epoch + 1)]
  {
    hide Arrive, Finish, Track, Untrack;
    match e
    case CallArrives(c) => ArriveSends(s, c);
    case WaitUntil(t) => WorkSendsNothing(s, t, {t});
    case CallReturns(c, streams) => WorkSendsNothing(s, c, streams);
    case CallThrows(c, report, streams) => WorkSendsNothing(s, c, streams + {report});
    case ReportSettles(c) => WorkSendsNothing(s, c, {});
    case TaskSettles(t) => WorkSendsNothing(s, t, {});
    case _ =>
  }

  lemma OnlyTheCheckCompletes(s: State, e: Event, epoch: nat)
    requires Enabled(s, e) && Sends(s, e, Complete(epoch))
    ensures e == CompletionCheck && epoch == s.epoch
  {
    assert Step(s, e).log[|s.log|] == Complete(epoch);
    if e != CompletionCheck {
      hide Step;
      OthersSendStarts(s, e);
    }
  }

  /** A completion is sent only for the open epoch, after its start was accepted, with nothing
      running and nothing pending; and then every call and every task has finished. */
  lemma CompletionIsQuiet(s: State, e: Event, epoch: nat)
    requires Inv(s) && Enabled(s, e) && Sends(s, e, Complete(epoch))
    ensures e == CompletionCheck && epoch == s.epoch && Open(s)
    ensures s.log[|s.log| - 1] == Start(epoch) && s.acks[|s.log| - 1] == Accepted
    ensures s.running == 0 && s.pending == 0 && s.calls == map[] && s.tasks == {}
    ensures !Open(Step(s, e))
  {
    hide SettledOnce, TransitionFits, CallFits, CheckQueued;
    OnlyTheCheckCompletes(s, e, epoch);
    assert Step(s, CompletionCheck) == Microtask(s);
  }

  /** A body begins only while the latest lifecycle call is an accepted start. */
  lemma BodiesBeginInOpenEpochs(s: State, e: Event)
    requires Inv(s) && Enabled(s, e) && BeginsBody(s, e)
    ensures |s.log| > 0 && s.log[|s.log| - 1] == Start(s.epoch) && s.acks[|s.log| - 1] == Accepted
  {
    hide SettledOnce, CheckQueued;
  }

  /** Only an accepted start opens an epoch. */
  lemma OpensByStart(s: State, e: Event)
    requires Inv(s) && Enabled(s, e) && !Open(s) && Open(Step(s, e))
    ensures e.StartAnswer? && e.ok && s.acks[e.start] == Pending
  {
    hide SettledOnce, CheckQueued, Counted, TransitionFits;
  }

  /** Between a completion and the next body lies the acceptance of a new start. */
  lemma {:induction false} NoBodyBeforeTheNextStart(s: State, events: seq<Event>, e: Event) returns (k: nat)
    requires Inv(s) && !Open(s) && Runs(s, events)
    requires Enabled(After(s, events), e) && BeginsBody(After(s, events), e)
    ensures k < |events| && events[k].StartAnswer? && events[k].ok
    decreases |events|
  {
    hide Inv, Step, Enabled;
    if events == [] {
      BodyNeedsOpen(s, e);
      assert false;
    } else {
      var next := Step(s, events[0]);
      StepKeepsInv(s, events[0]);
      if Open(next) {
        OpensByStart(s, events[0]);
        k := 0;
      } else {
        var rest := NoBodyBeforeTheNextStart(next, events[1..], e);
        k := rest + 1;
      }
    }
  }

  lemma BodyNeedsOpen(s: State, e: Event)
    requires Inv(s) && Enabled(s, e) && BeginsBody(s, e)
    ensures Open(s)
  {
    hide SettledOnce, CheckQueued;
  }

  /** No completion is lost: whenever an open epoch has had a finished call and has no work
      left, the completion check is queued. */
  lemma NoLostCompletion(events: seq<Event>)
    requires Runs(INITIAL, events)
    ensures var s := After(INITIAL, events);
      s.started && s.mainDone && s.running == 0 && s.pending == 0 && !s.completing ==> s.completionQueued
  {
    hide Protocol, TransitionFits, Counted, SettledOnce;
    InitialInv();
    RunKeepsInv(INITIAL, events);
  }

  /** The counters are the numbers of unfinished calls and tasks. */
  lemma CountersCount(events: seq<Event>)
    requires Runs(INITIAL, events)
    ensures var s := After(INITIAL, events); s.running == |s.calls| && s.pending == |s.tasks|
  {
    hide Protocol, TransitionFits, CallFits, SettledOnce;
    InitialInv();
    RunKeepsInv(INITIAL, events);
  }

  /** The promise of an epoch is settled at most once, and by the epoch's own lifecycle calls:
      its accepted or rejected completion, or the rejection of its start. */
  lemma EachEpochSettlesOnce(events: seq<Event>, epoch: nat)
    requires Runs(INITIAL, events)
    ensures var s := After(INITIAL, events);
      && multiset(s.settled)[epoch] <= 1
      && (multiset(s.settled)[epoch] == 1 ==>
            exists i :: 0 <= i < |s.log| == |s.acks| && s.acks[i] != Pending
                        && (s.log[i] == Complete(epoch) || (s.log[i] == Start(epoch) && s.acks[i] == Rejected)))
  {
    hide Inv, After;
    InitialInv();
    RunKeepsInv(INITIAL, events);
    EpochSettled(After(INITIAL, events), epoch);
  }

  lemma EpochSettled(s: State, epoch: nat)
    requires Inv(s)
    ensures multiset(s.settled)[epoch] <= 1
    ensures multiset(s.settled)[epoch] == 1 ==>
      exists i :: 0 <= i < |s.log| == |s.acks| && s.acks[i] != Pending
                  && (s.log[i] == Complete(epoch) || (s.log[i] == Start(epoch) && s.acks[i] == Rejected))
  {
    hide TransitionFits, Counted, CheckQueued;
    if multiset(s.settled)[epoch] == 1 {
      if 2 * epoch - 1 < |s.log| {
        assert s.log[2 * epoch - 1] == Complete(epoch);
      } else {
        assert s.log[2 * epoch - 2] == Start(epoch);
      }
    }
  }

  // ----- once nothing new arrives, everything settles

  /** Every event but the arrival of new work. */
  predicate Settles(e: Event) {
    !e.CallArrives? && !e.WaitUntil?
  }

  function WaitingCalls(calls: map<nat, Call>): set<nat> { set c | c in calls && calls[c].Waiting? }

  function RunningCalls(calls: map<nat, Call>): set<nat> { set c | c in calls && calls[c].Running? }

  function ReportingCalls(calls: map<nat, Call>): set<nat> { set c | c in calls && calls[c].Reporting? }

  function CallWork(calls: map<nat, Call>): nat {
    4 * |WaitingCalls(calls)| + 3 * |RunningCalls(calls)| + 2 * |ReportingCalls(calls)|
  }

  function Weight(call: Call): nat {
    match call case Waiting(_) => 4 case Running => 3 case Reporting => 2
  }

  /** What the protocol itself still has to do. */
  function Rank(s: State): nat {
    (if s.completionQueued then 3 else 0)
    + (if |s.acks| > 0 && s.acks[|s.acks| - 1] == Pending then 1 else 0)
    + |s.reactions|
    + (if s.transitionPromise.None? || s.transitionPromise.value >= |s.transitions| then 0
       else match s.transitions[s.transitionPromise.value]
            case AwaitingAck(_) => 3 case AwaitingStart(_) => 1 case Done(_) => 0)
  }

  function Measure(s: State): nat {
    4 * (CallWork(s.calls) + |s.tasks|) + Rank(s)
  }

  lemma CallsWithout(calls: map<nat, Call>, c: nat)
    ensures WaitingCalls(calls - {c}) == WaitingCalls(calls) - {c}
    ensures RunningCalls(calls - {c}) == RunningCalls(calls) - {c}
    ensures ReportingCalls(calls - {c}) == ReportingCalls(calls) - {c}
  {
  }

  lemma WorkWithout(calls: map<nat, Call>, c: nat)
    requires c in calls
    ensures CallWork(calls) == CallWork(calls - {c}) + Weight(calls[c])
  {
    CallsWithout(calls, c);
    assert c in WaitingCalls(calls) <==> calls[c].Waiting?;
    assert c in RunningCalls(calls) <==> calls[c].Running?;
    assert c in ReportingCalls(calls) <==> calls[c].Reporting?;
    hide WaitingCalls, RunningCalls, ReportingCalls;
  }

  lemma WorkAfter(calls: map<nat, Call>, c: nat, next: Call)
    requires c in calls
    ensures CallWork(calls[c := next]) + Weight(calls[c]) == CallWork(calls) + Weight(next)
  {
    hide CallWork;
    WorkWithout(calls, c);
    WorkWithout(calls[c := next], c);
    assert calls[c := next] - {c} == calls - {c};
  }

  lemma RankAfterCheck(s: State, w: State)
    requires w.completionQueued == s.completionQueued && w.acks == s.acks && w.reactions == s.reactions
    requires w.transitionPromise == s.transitionPromise && w.transitions == s.transitions
    ensures Rank(w) == Rank(s) && Rank(MaybeComplete(w)) <= Rank(s) + 3
  {
  }

  /** A call that ends takes more off than the check it may queue puts on. */
  lemma FinishDecreases(s: State, tasks: set<nat>, c: nat)
    requires c in s.calls && !s.calls[c].Waiting? && tasks !! s.tasks
    ensures CallWork(Finish(Track(s, tasks), c).calls) < CallWork(s.calls)
    ensures Measure(Finish(Track(s, tasks), c)) + 4 * Weight(s.calls[c]) <= Measure(s) + 4 * |tasks| + 3
  {
    hide CallWork, Rank;
    var t := Track(s, tasks);
    WorkWithout(s.calls, c);
    assert |s.tasks + tasks| == |s.tasks| + |tasks|;
    RankAfterCheck(s, t.(running := t.running - 1, mainDone := true, calls := t.calls - {c}));
  }

  lemma UntrackDecreases(s: State, t: nat)
    requires t in s.tasks
    ensures Measure(Untrack(s, t)) < Measure(s) && Untrack(s, t).calls == s.calls
  {
    hide CallWork, Rank;
    assert |s.tasks - {t}| == |s.tasks| - 1;
    RankAfterCheck(s, s.(pending := s.pending - 1, tasks := s.tasks - {t}));
  }

  lemma CallDecreases(s: State, c: nat, next: Call)
    requires c in s.calls && Weight(next) < Weight(s.calls[c])
    ensures CallWork(s.calls[c := next]) < CallWork(s.calls)
    ensures Measure(s.(calls := s.calls[c := next])) < Measure(s)
  {
    hide CallWork, Rank;
    WorkAfter(s.calls, c, next);
    RankAfterCheck(s, s.(calls := s.calls[c := next]));
  }

  lemma RankAfterAck(s: State, w: State)
    requires |s.acks| == |w.acks| > 0 && s.acks[|s.acks| - 1] == Pending != w.acks[|s.acks| - 1]
    requires w.completionQueued == s.completionQueued && w.reactions == s.reactions
    requires w.transitionPromise == s.transitionPromise && w.transitions == s.transitions
    ensures Rank(w) == Rank(s) - 1
  {
  }

  /** Only the last lifecycle call is ever pending. */
  lemma AnswersTheLast(s: State, i: nat)
    requires Inv(s) && i < |s.acks| && s.acks[i] == Pending
    ensures i == |s.acks| - 1
  {
    hide TransitionFits, Counted, CheckQueued, SettledOnce, Alternates;
  }

  /** The events of the protocol itself leave the work as it is. */
  lemma AnswerDecreases(s: State, e: Event)
    requires Inv(s) && Enabled(s, e) && (e.StartAnswer? || e.CompleteAnswer?)
    ensures Measure(Step(s, e)) < Measure(s) && Step(s, e).calls == s.calls
  {
    hide Inv, CallWork, Measure, StartAnswered, CompleteAnswered;
    match e
    case StartAnswer(i, ok) =>
      AnswersTheLast(s, i);
      StartAnswerDecreases(s, i, ok);
    case CompleteAnswer(i, ok) =>
      AnswersTheLast(s, i);
      CompleteAnswerDecreases(s, i, ok);
  }

  lemma StartAnswerDecreases(s: State, i: nat, ok: bool)
    requires i == |s.acks| - 1 && s.acks[i] == Pending
    ensures Measure(StartAnswered(s, i, ok)) < Measure(s) && StartAnswered(s, i, ok).calls == s.calls
  {
    hide CallWork, Rank;
    RankAfterAck(s, StartAnswered(s, i, ok));
  }

  lemma CompleteAnswerDecreases(s: State, i: nat, ok: bool)
    requires i == |s.acks| - 1 && s.acks[i] == Pending
    ensures Measure(CompleteAnswered(s, i, ok)) < Measure(s) && CompleteAnswered(s, i, ok).calls == s.calls
  {
    hide CallWork, Rank;
    RankAfterAck(s, CompleteAnswered(s, i, ok));
  }

  lemma ReactionDecreases(s: State, i: nat)
    requires i in s.reactions
    ensures Measure(React(s, i)) < Measure(s) && React(s, i).calls == s.calls
  {
    hide CallWork;
    assert |s.reactions - {i}| == |s.reactions| - 1;
  }

  lemma CheckDecreases(s: State)
    requires Inv(s) && s.completionQueued
    ensures Measure(Microtask(s)) < Measure(s) && Microtask(s).calls == s.calls
  {
    hide TransitionFits, Counted, CheckQueued, CallWork;
    assert |s.log| !in s.reactions;
  }

  lemma TransitionDecreases(s: State, e: Event)
    requires Inv(s) && Enabled(s, e) && (e.TransitionContinues? || e.TransitionEnds?)
    ensures Measure(Step(s, e)) < Measure(s) && Step(s, e).calls == s.calls
  {
    hide Counted, CheckQueued, SettledOnce, CallWork, Alternates;
  }

  /** The streamed responses that an event leaves pending. */
  function Streams(e: Event): set<nat> {
    match e
    case CallReturns(_, streams) => streams
    case CallThrows(_, _, streams) => streams
    case _ => {}
  }

  /** Lexicographically: the calls come nearer to their end, or stay while the rest does. */
  predicate Nearer(w: State, s: State) {
    CallWork(w.calls) < CallWork(s.calls) || (CallWork(w.calls) == CallWork(s.calls) && Measure(w) < Measure(s))
  }

  /** Each event that brings no new work takes the invocation closer to rest: nearer in a
      well-founded order, and by the measure, but for the streams a call leaves behind. */
  lemma SettlingDecreases(s: State, e: Event)
    requires Inv(s) && Enabled(s, e) && Settles(e)
    ensures Nearer(Step(s, e), s)
    ensures Measure(Step(s, e)) < Measure(s) + 4 * |Streams(e)|
  {
    hide Inv, Measure, Finish, Untrack, React, Microtask, CallWork, Track;
    match e
    case CallResumes(c) => CallDecreases(s, c, Step(s, e).calls[c]);
    case CallRejects(c) => CallDecreases(s, c, Reporting);
    case CallReturns(c, streams) => FinishDecreases(s, streams, c);
    case CallThrows(c, report, streams) => FinishDecreases(s, streams + {report}, c);
    case ReportSettles(c) =>
      TrackNothing(s);
      FinishDecreases(s, {}, c);
    case TaskSettles(t) => UntrackDecreases(s, t);
    case CompletionReaction(i) => ReactionDecreases(s, i);
    case CompletionCheck => CheckDecreases(s);
    case StartAnswer(_, _) => AnswerDecreases(s, e);
    case CompleteAnswer(_, _) => AnswerDecreases(s, e);
    case _ => TransitionDecreases(s, e);
  }

  lemma TrackNothing(s: State)
    ensures Track(s, {}) == s
  {
    assert s.tasks + {} == s.tasks;
  }

  /** How many streamed responses a run leaves pending. */
  function Streamed(events: seq<Event>): nat {
    if events == [] then 0 else |Streams(events[0])| + Streamed(events[1..])
  }

  /** A run in which nothing new arrives has no more events than the measure and its streams allow. */
  lemma {:induction false} SettlingEnds(s: State, events: seq<Event>)
    requires Inv(s) && Runs(s, events) && forall e :: e in events ==> Settles(e)
    ensures |events| <= Measure(s) + 4 * Streamed(events)
    decreases |events|
  {
    hide Inv, Enabled, Step, Measure, Settles, Nearer, Streams;
    if events != [] {
      StepKeepsInv(s, events[0]);
      SettlingDecreases(s, events[0]);
      SettlingEnds(Step(s, events[0]), events[1..]);
    }
  }

  /** All work is done and the promise of every epoch is settled. */
  ghost predicate AllSettled(s: State) {
    s.calls == map[] && s.tasks == {} && forall e: nat :: 1 <= e <= s.epoch ==> multiset(s.settled)[e] == 1
  }

  lemma RestIsSettled(s: State)
    requires Inv(s) && s.calls == map[] && s.tasks == {} && s.reactions == map[] && !s.completionQueued
    requires |s.acks| > 0 ==> s.acks[|s.acks| - 1] != Pending
    ensures AllSettled(s)
  {
    hide TransitionFits, CallFits, Alternates;
  }

  lemma AnswerArrives(s: State) returns (e: Event)
    requires Protocol(s) && s.epoch > 0 && s.acks[|s.log| - 1] == Pending
    ensures Enabled(s, e) && Settles(e)
  {
    var last := |s.log| - 1;
    e := if s.completing then CompleteAnswer(last, true) else StartAnswer(last, true);
  }

  lemma ReactionRuns(s: State) returns (e: Event)
    requires Inv(s) && s.reactions != map[] && (s.epoch > 0 ==> s.acks[|s.log| - 1] != Pending)
    ensures Enabled(s, e) && Settles(e)
  {
    hide TransitionFits, Counted, CheckQueued, Alternates;
    var i :| i in s.reactions;
    e := CompletionReaction(i);
  }

  /** Until all is settled, some event other than new work can happen. */
  lemma SomethingCanSettle(s: State) returns (e: Event)
    requires Inv(s) && !AllSettled(s)
    ensures Enabled(s, e) && Settles(e)
  {
    hide AllSettled, SettledOnce, CheckQueued, TransitionFits, Alternates, CallFits;
    if s.tasks != {} {
      var t :| t in s.tasks;
      e := TaskSettles(t);
    } else if s.epoch > 0 && s.acks[|s.log| - 1] == Pending {
      e := AnswerArrives(s);
    } else if s.transitionPromise.Some? && s.epoch > 0 {
      e := TransitionMoves(s);
    } else if s.calls != map[] {
      e := CallMoves(s);
    } else if s.completionQueued {
      e := CompletionCheck;
    } else if s.reactions != map[] {
      e := ReactionRuns(s);
    } else {
      RestIsSettled(s);
      assert false;
    }
  }

  lemma TransitionMoves(s: State) returns (e: Event)
    requires Inv(s) && s.transitionPromise.Some? && s.epoch > 0 && s.acks[|s.log| - 1] != Pending
    ensures Enabled(s, e) && Settles(e)
  {
    hide SettledOnce, CheckQueued, Counted;
    var t := s.transitionPromise.value;
    e := if s.transitions[t].AwaitingAck? && s.acks[|s.log| - 1] == Accepted
         then TransitionContinues(t) else TransitionEnds(t);
  }

  lemma CallMoves(s: State) returns (e: Event)
    requires Inv(s) && s.calls != map[] && s.transitionPromise.None? && s.epoch > 0 && s.acks[|s.log| - 1] != Pending
    ensures Enabled(s, e) && Settles(e)
  {
    hide SettledOnce, CheckQueued;
    var c :| c in s.calls;
    e := match s.calls[c]
         case Running => CallReturns(c, {})
         case Reporting => ReportSettles(c)
         case Waiting(_) => CallResumes(c);
  }

  /** A run that brings no new work and can go no further has settled everything. */
  lemma EverythingSettles(s: State, events: seq<Event>)
    requires Inv(s) && Runs(s, events)
    requires forall e :: Enabled(After(s, events), e) ==> !Settles(e)
    ensures AllSettled(After(s, events))
  {
    hide Inv, Enabled, Settles, AllSettled;
    RunKeepsInv(s, events);
    if !AllSettled(After(s, events)) {
      var e := SomethingCanSettle(After(s, events));
    }
  }
}
