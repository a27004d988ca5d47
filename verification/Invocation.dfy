/** The invocation object itself: each function of the embedded module updates the fields in
    place, and its contract says that the object moves exactly as InvocationLifecycle says.
    The bookkeeping fields stand for the promises and lifecycle requests that the JavaScript
    closures hold. */
module Invocation {
  import opened Outcomes
  import L = InvocationLifecycle

  class InvocationState {
    var pending: int
    var running: int
    var mainDone: bool
    var completing: bool
    var completionQueued: bool
    var started: bool
    var epoch: nat
    var startPromise: Option<nat>
    var transitionPromise: Option<nat>
    var completionAck: nat
    var resolver: nat
    var log: seq<L.Lifecycle>
    var acks: seq<L.Ack>
    var transitions: seq<L.Transition>
    var reactions: map<nat, nat>
    var calls: map<nat, L.Call>
    var tasks: set<nat>
    var settled: seq<nat>

    ghost function Value(): L.State
      reads this
    {
      L.State(pending, running, mainDone, completing, completionQueued, started, epoch, startPromise,
              transitionPromise, completionAck, resolver, log, acks, transitions, reactions, calls, tasks, settled)
    }

    ghost predicate Valid()
      reads this
    {
      L.Inv(Value())
    }

    constructor ()
      ensures Valid() && Value() == L.INITIAL
    {
      pending, running, epoch := 0, 0, 0;
      mainDone, completing, completionQueued, started := false, false, false, false;
      startPromise, transitionPromise, completionAck, resolver := None, None, 0, 0;
      log, acks, transitions, settled := [], [], [], [];
      reactions, calls, tasks := map[], map[], {};
    }

    // ----- the closures of makeInvocation

    /** Sends a lifecycle request and names it by its place in the log. */
    method Lifecycle(call: L.Lifecycle) returns (request: nat)
      modifies `log, `acks
      ensures log == old(log) + [call] && acks == old(acks) + [L.Pending] && request == |old(log)|
    {
      request := |log|;
      log := log + [call];
      acks := acks + [L.Pending];
    }

    method BeginEpoch() returns (start: nat)
      modifies `epoch, `started, `mainDone, `completing, `resolver, `startPromise, `log, `acks
      ensures epoch == old(epoch) + 1 == resolver && !started && !mainDone && !completing
      ensures startPromise == Some(start) && start == |old(log)|
      ensures log == old(log) + [L.Start(epoch)] && acks == old(acks) + [L.Pending]
    {
      epoch := epoch + 1;
      started, mainDone, completing := false, false, false;
      resolver := epoch;
      start := Lifecycle(L.Start(epoch));
      startPromise := Some(start);
    }

    method Start() returns (on: L.Promise)
      modifies this
      ensures (Value(), on) == L.Admission(old(Value()))
    {
      if completing {
        if transitionPromise.None? {
          transitionPromise := Some(|transitions|);
          transitions := transitions + [L.AwaitingAck(completionAck)];
        }
        return L.OnTransition(transitionPromise.value);
      }
      if startPromise.Some? { return L.OnStart(startPromise.value); }
      var start := BeginEpoch();
      on := L.OnStart(start);
    }

    method MaybeComplete()
      modifies this`completionQueued
      ensures Value() == L.MaybeComplete(old(Value()))
    {
      if !started || !mainDone || running != 0 || pending != 0 || completing || completionQueued { return; }
      completionQueued := true;
    }

    /** Asks for the completion of the epoch; its answer settles what the epoch handed out. */
    method Complete()
      modifies `completing, `completionAck, `reactions, `log, `acks
      ensures completing && completionAck == |old(log)| && reactions == old(reactions)[completionAck := resolver]
      ensures log == old(log) + [L.Complete(epoch)] && acks == old(acks) + [L.Pending]
    {
      completing := true;
      var request := Lifecycle(L.Complete(epoch));
      completionAck := request;
      reactions := reactions[request := resolver];
    }

    /** The body of the microtask that MaybeComplete queues. */
    method RunCheck()
      modifies `completionQueued, `completing, `completionAck, `reactions, `log, `acks
      ensures Value() == L.Microtask(old(Value()))
    {
      completionQueued := false;
      assert Value() == old(Value()).(completionQueued := false);
      if !mainDone || running != 0 || pending != 0 || completing { return; }
      Complete();
    }

    /** The microtask, when it is due. */
    method CompletionCheck()
      requires Valid() && completionQueued
      modifies `completionQueued, `completing, `completionAck, `reactions, `log, `acks
      ensures Valid() && Value() == L.Step(old(Value()), L.CompletionCheck)
    {
      hide L.Inv, L.Microtask;
      L.MicrotaskKeepsInv(Value());
      RunCheck();
    }

    method WaitUntil(task: nat)
      requires Valid() && task !in tasks
      modifies `pending, `tasks
      ensures Valid() && Value() == L.Step(old(Value()), L.WaitUntil(task))
    {
      hide L.Inv;
      L.TrackKeepsInv(Value(), {task});
      pending := pending + 1;
      tasks := tasks + {task};
    }

    method TaskSettles(task: nat)
      requires Valid() && task in tasks
      modifies `pending, `tasks, `completionQueued
      ensures Valid() && Value() == L.Step(old(Value()), L.TaskSettles(task))
    {
      hide L.Inv;
      L.UntrackKeepsInv(Value(), task);
      pending := pending - 1;
      tasks := tasks - {task};
      MaybeComplete();
    }

    // ----- runInvocation

    method RunInvocation(call: nat)
      requires Valid() && call !in calls
      modifies this
      ensures Valid() && Value() == L.Step(old(Value()), L.CallArrives(call))
    {
      hide L.Inv;
      L.ArriveKeepsInv(Value(), call);
      running := running + 1;
      if started && !completing {
        calls := calls[call := L.Running];
      } else {
        var on := Start();
        calls := calls[call := L.Waiting(on)];
      }
    }

    /** `done`, at the end of a call that ran or whose error has been reported. */
    method Done(call: nat)
      requires Valid() && call in calls && !calls[call].Waiting?
      modifies `running, `mainDone, `calls, `completionQueued
      ensures Valid() && Value() == L.Finish(old(Value()), call)
    {
      hide L.Inv;
      L.FinishKeepsInv(Value(), call);
      running := running - 1;
      mainDone := true;
      calls := calls - {call};
      MaybeComplete();
    }

    /** Each streamed response within the returned value counts as pending. */
    method ObserveStreams(streams: set<nat>)
      requires streams !! tasks
      modifies `pending, `tasks
      ensures pending == old(pending) + |streams| && tasks == old(tasks) + streams
    {
      var left := streams;
      while left != {}
        invariant left <= streams && pending == old(pending) + |streams| - |left|
        invariant tasks == old(tasks) + (streams - left)
        decreases |left|
      {
        var stream :| stream in left;
        left := left - {stream};
        pending := pending + 1;
        tasks := tasks + {stream};
      }
    }

    /** The same, as the model has it. */
    method TrackStreams(streams: set<nat>)
      requires Valid() && streams !! tasks
      modifies `pending, `tasks
      ensures Valid() && Value() == L.Track(old(Value()), streams) && tasks == old(tasks) + streams
    {
      hide L.Inv;
      L.TrackKeepsInv(Value(), streams);
      ObserveStreams(streams);
    }

    /** The callback returned; streamed responses in its value are tracked before `done`. */
    method Returns(call: nat, streams: set<nat>)
      requires Valid() && L.Enabled(Value(), L.CallReturns(call, streams))
      modifies `running, `mainDone, `calls, `completionQueued, `pending, `tasks
      ensures Valid() && Value() == L.Step(old(Value()), L.CallReturns(call, streams))
    {
      hide L.Inv, L.Finish, L.Track;
      TrackStreams(streams);
      Done(call);
    }

    /** The callback threw before returning a promise, or its value could not be wrapped to the
        end; the report is waited for. */
    method Throws(call: nat, report: nat, streams: set<nat>)
      requires Valid() && L.Enabled(Value(), L.CallThrows(call, report, streams))
      modifies `running, `mainDone, `calls, `completionQueued, `pending, `tasks
      ensures Valid() && Value() == L.Step(old(Value()), L.CallThrows(call, report, streams))
    {
      hide L.Inv, L.Finish, L.Track;
      ghost var before := Value();
      L.TrackTwice(before, streams, report);
      TrackStreams(streams);
      WaitUntil(report);
      assert Value() == L.Track(before, streams + {report}) && call in calls && calls[call].Running?;
      Done(call);
    }

    // ----- what the runtime delivers

    /** lifecycle("start").then(started).catch(finish) */
    method StartAnswered(start: nat, ok: bool)
      requires Valid() && L.Enabled(Value(), L.StartAnswer(start, ok))
      modifies this
      ensures Valid() && Value() == L.Step(old(Value()), L.StartAnswer(start, ok))
    {
      hide L.Inv;
      L.StartAnsweredKeepsInv(Value(), start, ok);
      if ok {
        acks := acks[start := L.Accepted];
        started := true;
      } else {
        acks := acks[start := L.Rejected];
        settled := settled + [resolver];
      }
    }

    /** completionAck.then(finish, fail) */
    method CompletionReaction(complete: nat)
      requires Valid() && L.Enabled(Value(), L.CompletionReaction(complete))
      modifies this
      ensures Valid() && Value() == L.Step(old(Value()), L.CompletionReaction(complete))
    {
      hide L.Inv;
      L.ReactKeepsInv(Value(), complete);
      settled := settled + [reactions[complete]];
      reactions := reactions - {complete};
    }

    /** completionAck.then(beginEpoch) */
    method TransitionContinues(t: nat)
      requires Valid() && L.Enabled(Value(), L.TransitionContinues(t))
      modifies this
      ensures Valid() && Value() == L.Step(old(Value()), L.TransitionContinues(t))
    {
      hide L.Inv;
      L.TransitionBeginsKeepsInv(Value(), t);
      var start := BeginEpoch();
      transitions := transitions[t := L.AwaitingStart(start)];
    }

    /** The transition's finally. */
    method TransitionEnds(t: nat)
      requires Valid() && L.Enabled(Value(), L.TransitionEnds(t))
      modifies this
      ensures Valid() && Value() == L.Step(old(Value()), L.TransitionEnds(t))
    {
      hide L.Inv;
      L.TransitionSettlesKeepsInv(Value(), t);
      var ok := match transitions[t]
        case AwaitingAck(_) => false
        case AwaitingStart(start) => acks[start] == L.Accepted
        case Done(ok) => ok;
      transitions := transitions[t := L.Done(ok)];
      transitionPromise := None;
    }

    /** start().then(invoke, report) */
    method Resumes(call: nat)
      requires Valid() && L.Enabled(Value(), L.CallResumes(call))
      modifies this
      ensures Valid() && Value() == L.Step(old(Value()), L.CallResumes(call))
    {
      L.ResumeKeepsInv(Value(), call);
      var ok := match calls[call].on
        case OnStart(start) => acks[start] == L.Accepted
        case OnTransition(t) => transitions[t].ok;
      calls := calls[call := if ok then L.Running else L.Reporting];
    }
  }
}
