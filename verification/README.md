# Nanoflare: verified models

Dafny models of the stateful and textual cores of Nanoflare, a self-hosted Workers platform, with
proofs of what those cores are for. `dafny verify dfyconfig.toml` checks the whole project.

## What is modelled

**The execution server** (`ExecutionView`, `ExecutionServer`, `ExecutionSystem`,
`ExecutionTheorems`, `ExecutionAccount`). Runner sessions, pins, token counts and token owners are
four views of one thing, kept in step under a mutex. `ExecutionServer` is the server object, changed
in place by one method per critical section; each method's contract says that the state, read as the
value `ExecutionView.View`, moves as a function of that value. `ExecutionSystem` interleaves the
critical sections of any number of requests, the janitor and shutdown, with a pin request split over
two of them and a call to the execution registry between; leases acquired are kept as history. The
theorems speak about all runs, and `ExecutionAccount` says what each event changes and answers
without those functions. The registry is an assumption written into `Legal`: a lease it hands out
was not handed out before, an admission's token is new, pinning a token gives a lease of that token,
and random identifiers are new and contain no colon.

**The invocation lifecycle** (`InvocationLifecycle`, `InvocationTheorems`, `InvocationHistory`,
`Invocation`). The JavaScript embedded in the loader counts calls and tracked promises and sends
start and complete requests, one pair per epoch. `InvocationState` is its object;
`InvocationLifecycle` is the transition system over calls, answers, settlements and microtasks, in
any order; `InvocationHistory` tells its state from the events alone.

**DNS record queries** (`DnsRecords`, `DnsOutcomes`, `DnsData`, `DnsExchange`, `ReverseNames`,
`TxtEncoding`, `Decimal`). The nested loops that follow aliases through packets and exchanges are
proved equal to a recursion over names for every server, and to agree with a recursive resolver on a
zone for every server that is faithful to one; the encoder of character strings is proved against
the parser that reads them.

**Upload translation** (`UploadBindings`, `NameOrder`, `Sequences`, `Upload`, `Translation`,
`UploadTheorems`, `UploadMeaning`, `UploadFaults`, `UploadFixpoint`, `Settings`, `Completion`,
`Utf8`). Retained, inherited, renamed and explicit bindings become one complete revision. `Upload`
says which revision without saying in what order anything is done; `Translation` performs the
program's loops and is proved to succeed exactly when `Upload.Acceptable` holds, with that revision,
and otherwise to name a fault that is there. `UploadMeaning` says the same from the entries, the
retained types and the prior bindings, name by name.

**Text and policy** (`CapnpText`, `SqlStatements`, `SocketPolicy`). Cap'n Proto quoting, the
counter of SQL statements, and the socket policy that keeps local addresses out.

**The revisioned tables** (`DatabaseState`, `DatabaseRuns`, `DatabaseAnswers`, `Postgres`).
Management state, asset upload sessions, dispatch namespaces with their policy history, and
publications, as atomic steps of many clients over one value, and as a class whose fields are the
tables.

## Where the code does less than it says

- The comment at internal/api/runtime_execution.go:314 makes a release a safe cancellation. A
  release that arrives before its admit with an empty session identifier cancels nothing:
  `ExecutionTheorems.ReleaseCancelsExactlyWhen` is the exact condition, and
  `ExecutionTheorems.EarlyReleaseCancelsNothing` the run from the empty server, for every session
  and sequence, in which the admit then succeeds.
- The default denials of the socket policy also cancel an allowed prefix that is wider than a local
  range, when its written base is a local address: `SocketPolicy.OthersKeepTheirDecision` is the
  exact condition and `SocketPolicy.AllowedButCancelled` a case of it.
- The TXT encoder refuses lists that some value stands for: those whose last string ends in a quote,
  when it is not the only one or begins with a quote too. `TxtEncoding.AcceptedIsRepresentable` says
  so for every nonempty list, `TxtEncoding.RefusedThoughRepresentable` writes down the value of every
  such list that holds no string boundary, and `TxtEncoding.RefusedExamples` are three of them.
- The counter of SQL statements counts none in a text that is nothing but a quoted literal or name:
  `SqlStatements.NoStatementExactlyWhen` is the exact condition and
  `SqlStatements.QuotedLiteralIsNothing` the family.

## Model

| member | source | states |
|---|---|---|
| ExecutionServer.RunnerSession.Hold | internal/api/runtime_execution.go:345-348 | the session gains the pin and one more count of its token |
| ExecutionServer.RunnerSession.Drop | internal/api/runtime_execution.go:368-373 | the session loses the pin and one count, the token with its last count, and the caller learns whether it was the last |
| ExecutionServer.RuntimeExecutionServer.constructor | internal/api/runtime_execution.go:48-69 | the server starts empty and consistent |
| ExecutionServer.RuntimeExecutionServer.StorePin | internal/api/runtime_execution.go:344-350 | all four structures gain the pin, and nothing else moves |
| ExecutionServer.RuntimeExecutionServer.ReleasePin | internal/api/runtime_execution.go:361-376 | the pin leaves all four structures, its lease is released once; an unknown pin changes nothing |
| ExecutionServer.RuntimeExecutionServer.ReleasePins | internal/api/runtime_execution.go:383-385 | the loop that deletes from the set it ranges over releases every pin of the session once |
| ExecutionServer.RuntimeExecutionServer.CloseSession | internal/api/runtime_execution.go:378-388 | a closed session takes its pins, tokens and owners with it and is revoked; the result is independent of the order of the loop |
| ExecutionServer.RuntimeExecutionServer.LiveSession | internal/api/runtime_execution.go:352-359 | an expired session is closed and not returned; a live one is returned unchanged |
| ExecutionServer.RuntimeExecutionServer.OpenSession | internal/api/runtime_execution.go:142-150 | refuses after shutdown, otherwise adds one empty session |
| ExecutionServer.RuntimeExecutionServer.Heartbeat | internal/api/runtime_execution.go:153-163 | extends exactly a session that is live at the time, closes an expired one |
| ExecutionServer.RuntimeExecutionServer.Admit | internal/api/runtime_execution.go:317-342 | retry, cancellation, watermark and grant, each with its whole new state and answer |
| ExecutionServer.RuntimeExecutionServer.CheckPin | internal/api/runtime_execution.go:231-238 | first half of a pin request: the owner of the token, if its session is live |
| ExecutionServer.RuntimeExecutionServer.KeepPin | internal/api/runtime_execution.go:299-312 | second half: the pin is kept only for a session still live, on a server not closed |
| ExecutionServer.RuntimeExecutionServer.Cancel | internal/api/runtime_execution.go:273-275 | the watermark rises to the sequence and never falls |
| ExecutionServer.RuntimeExecutionServer.CancelNamed | internal/api/runtime_execution.go:266-276 | raises the watermark exactly when what follows the owner's prefix is a nonzero decimal of 64 bits, to that number |
| ExecutionServer.RuntimeExecutionServer.Release | internal/api/runtime_execution.go:252-279 | refusals change nothing; otherwise the watermark is raised for a canonical identifier of a live owner and the pin released |
| ExecutionServer.RuntimeExecutionServer.CloseExpired | internal/api/runtime_execution.go:393-397 | exactly the expired sessions are closed |
| ExecutionServer.RuntimeExecutionServer.ExpireSessions | internal/api/runtime_execution.go:390-398 | the janitor's critical section keeps the server valid and closes exactly the expired |
| ExecutionServer.RuntimeExecutionServer.CloseAll | internal/api/runtime_execution.go:79-81 | every session is closed |
| ExecutionServer.RuntimeExecutionServer.Close | internal/api/runtime_execution.go:72-84 | after it the server is closed and empty |
| ExecutionView.StorePreserves | internal/api/runtime_execution.go:344-350 | storing a pin with a new lease keeps the four structures consistent |
| ExecutionView.ReleasePreserves | internal/api/runtime_execution.go:361-376 | so does releasing one |
| ExecutionView.CloseSessionsPreserves | internal/api/runtime_execution.go:378-388 | so does ending any set of sessions |
| ExecutionView.CloseOneMore | internal/api/runtime_execution.go:393-397 | ending sessions one after another is ending them together |
| ExecutionView.ClosingStep | internal/api/runtime_execution.go:383-385 | one turn of the closing loop keeps consistency and the account of leases still to release |
| ExecutionView.ClosingEnd | internal/api/runtime_execution.go:378-388 | when the loop has run out, removing the session gives the closed state |
| ExecutionView.AdmitPreserves | internal/api/runtime_execution.go:317-342 | an admission keeps the structures consistent |
| ExecutionView.KeepPinPreserves | internal/api/runtime_execution.go:299-312 | so does keeping a pin |
| ExecutionView.ReleaseRequestPreserves | internal/api/runtime_execution.go:251-279 | so does a release request |
| ExecutionView.ExpirePreserves | internal/api/runtime_execution.go:390-398 | so does expiry |
| ExecutionView.ShutdownPreserves | internal/api/runtime_execution.go:72-84 | so does shutdown |
| ExecutionSystem.StepKeepsInv | internal/api/runtime_execution.go:86-398 | every event of every request, the janitor or shutdown keeps the invariant of the whole system: consistent maps, balanced leases, tokens that belong to one session |
| ExecutionTheorems.RunKeepsInv | internal/api/runtime_execution.go:86-398 | every run keeps it |
| ExecutionTheorems.MapsAgreeAlways | internal/api/runtime_execution.go:344-398 | in every reachable state the session pin sets partition the pins, a token's count is the positive number of that session's pins holding it, and its owner is that session |
| ExecutionTheorems.LeasesAreConserved | internal/api/runtime_execution.go:230-250 | in every reachable state leases acquired are live pins plus leases in flight plus leases released, each released at most once |
| ExecutionTheorems.ShutdownIsFinal | internal/api/runtime_execution.go:72-84 | once closed the server stays closed and empty under every later or racing event, and when no pin request is in flight every lease ever acquired was released once |
| ExecutionTheorems.StepFacts | internal/api/runtime_execution.go:299-388 | sessions do not come back, watermarks do not fall, closing is not undone, and a new pin is of an event that stores one |
| ExecutionTheorems.AdmittedAtMostOnce | internal/api/runtime_execution.go:314-342 | over every run at most one lease is acquired for a session and a nonzero sequence |
| ExecutionTheorems.RetryReturnsTheSameToken | internal/api/runtime_execution.go:324-329 | a retry while the pin is live answers the same token and changes nothing but the clock |
| ExecutionTheorems.CanceledStays | internal/api/runtime_execution.go:330-335 | a canceled sequence stays canceled, and its admits fail |
| ExecutionTheorems.CanceledNeverSucceeds | internal/api/runtime_execution.go:251-279 | over every run after a cancellation no admit of the sequence succeeds or acquires a lease |
| ExecutionTheorems.ReleaseCancelsExactlyWhen | internal/api/runtime_execution.go:251-279 | a canonical release of a known session's sequence cancels it if and only if it is made in the session's name or finds its pin under an empty name, or the sequence was canceled already |
| ExecutionTheorems.EarlyReleaseCancelsNothing | internal/api/runtime_execution.go:252-279 | for every session and sequence a run from the empty server: open, release before the admit without naming the session, and the admit is legal and succeeds |
| ExecutionTheorems.EarlyReleaseExample | internal/api/runtime_execution.go:252-279 | that run for sequence 1 of a session s |
| ExecutionTheorems.UncanceledCanSucceed | internal/api/runtime_execution.go:317-342 | before its deadline a sequence that is not canceled can still be admitted |
| ExecutionTheorems.StepDeadline | internal/api/runtime_execution.go:152-159 | only a heartbeat that arrives before the deadline moves it |
| ExecutionTheorems.NothingAfterTheDeadline | internal/api/runtime_execution.go:299-323 | under a monotone clock, without a heartbeat, no admit or pin of the session succeeds at or after its deadline |
| ExecutionAccount.AdmissionIdExactly | internal/api/runtime_execution.go:197-218 | an admit request names the random identifier, or the session, a colon and its sequence as a canonical decimal of 64 bits above zero, of 256 bytes at the most |
| ExecutionAccount.ReleaseAnswersExactly | internal/api/runtime_execution.go:251-279 | each answer to a release has its own reason: the length of the identifier, the session that owns the pin, the number after the owner's name |
| ExecutionAccount.AdmitAnswersExactly | internal/api/runtime_execution.go:197-226 | each answer to an admit has its own reason, and a live pin answers its own session and execution with its token and nobody else |
| ExecutionAccount.EventAccounted | internal/api/runtime_execution.go:86-398 | every event ends exactly the sessions that it closes or finds lapsed, leaves each deadline 60 seconds after the opening or the heartbeat that set it, moves a watermark exactly to the sequence it names, and frees and stores exactly the pins that it is granted |
| ExecutionAccount.RequestsAccounted | internal/api/runtime_execution.go:230-250 | a pin request goes on while the session holding the token is live, and gives its lease back exactly when it cannot keep it |
| ExecutionAccount.DeadlineIsTheLastBeat | internal/api/runtime_execution.go:142-163 | over every run a session that is still there expires 60 seconds after its opening or latest heartbeat |
| ExecutionAccount.ReleasedForGood | internal/api/runtime_execution.go:251-279 | a granted release frees the pin, whatever its name, and over every later run its lease stays released, once |
| Invocation.InvocationState.constructor | internal/config/invocation_loader.go:390-404 | the initial state, which satisfies the invariant |
| Invocation.InvocationState.BeginEpoch | internal/config/invocation_loader.go:423-432 | a new epoch: flags cleared, its promise handed out, start sent and remembered |
| Invocation.InvocationState.Start | internal/config/invocation_loader.go:433-441 | which promise a caller waits for: the transition while completing, else the shared start, else a new epoch's |
| Invocation.InvocationState.MaybeComplete | internal/config/invocation_loader.go:442-445 | a check is queued exactly when there is nothing left and none is queued |
| Invocation.InvocationState.Complete | internal/config/invocation_loader.go:448-450 | complete is sent for the epoch and its answer is to settle the promise handed out last |
| Invocation.InvocationState.RunCheck | internal/config/invocation_loader.go:445-451 | the check clears its flag and completes the epoch only if nothing is left to do by then |
| Invocation.InvocationState.CompletionCheck | internal/config/invocation_loader.go:445-451 | the microtask, when it is due, is a step of the model and keeps the invariant |
| Invocation.InvocationState.WaitUntil | internal/config/invocation_loader.go:456-463 | a tracked promise counts as pending |
| Invocation.InvocationState.TaskSettles | internal/config/invocation_loader.go:458-461 | its settlement is the transition of the model, and keeps the invariant |
| Invocation.InvocationState.RunInvocation | internal/config/invocation_loader.go:472-486 | a call runs at once in an open epoch and otherwise waits for the promise that Start gives |
| Invocation.InvocationState.Done | internal/config/invocation_loader.go:474 | the end of a call |
| Invocation.InvocationState.ObserveStreams | internal/config/invocation_loader.go:297-300 | every streamed response within the returned value counts as pending, once each |
| Invocation.InvocationState.Returns | internal/config/invocation_loader.go:476-481 | a returning callback, with all streamed responses within its value tracked before the call ends |
| Invocation.InvocationState.Throws | internal/config/invocation_loader.go:476-482 | a throwing callback, with its report, and whatever streamed responses were met first, tracked before the call ends |
| Invocation.InvocationState.StartAnswered | internal/config/invocation_loader.go:430 | an accepted start opens the epoch, a rejected one settles its promise |
| Invocation.InvocationState.CompletionReaction | internal/config/invocation_loader.go:450 | the answer to complete settles the promise of its own epoch |
| Invocation.InvocationState.TransitionContinues | internal/config/invocation_loader.go:436 | after an accepted completion the transition begins the next epoch |
| Invocation.InvocationState.TransitionEnds | internal/config/invocation_loader.go:436 | the transition settles and is forgotten |
| Invocation.InvocationState.Resumes | internal/config/invocation_loader.go:486 | a waiting call runs or reports, as the promise it waited for settled |
| InvocationLifecycle.StepKeepsInv | internal/config/invocation_loader.go:423-487 | every event keeps the invariant: alternation, exact counters, the queued check, one settlement per epoch |
| InvocationTheorems.CallsAlternate | internal/config/invocation_loader.go:423-452 | in every reachable state the lifecycle calls are a prefix of start 1, complete 1, start 2, complete 2 and so on, all but the last accepted |
| InvocationTheorems.CompletionIsQuiet | internal/config/invocation_loader.go:445-451 | complete is sent only by the check, for an accepted epoch, with no call and no task unfinished |
| InvocationTheorems.BodiesBeginInOpenEpochs | internal/config/invocation_loader.go:475-486 | a callback body begins only while the latest lifecycle call is an accepted start |
| InvocationTheorems.OpensByStart | internal/config/invocation_loader.go:430 | only the acceptance of a pending start opens an epoch |
| InvocationTheorems.NoBodyBeforeTheNextStart | internal/config/invocation_loader.go:423-452 | between a completion and the next body some start was accepted |
| InvocationTheorems.NoLostCompletion | internal/config/invocation_loader.go:442-452 | in every reachable state with nothing left to do and completion not sent, a check is queued |
| InvocationTheorems.CountersCount | internal/config/invocation_loader.go:456-474 | in every reachable state running and pending are the numbers of unfinished calls and tasks |
| InvocationTheorems.EachEpochSettlesOnce | internal/config/invocation_loader.go:428-450 | in every reachable state each epoch's promise is settled at most once and by its own answers |
| InvocationTheorems.SettlingDecreases | internal/config/invocation_loader.go:423-487 | every event that brings no new work brings the calls nearer to their end, or leaves them and lowers the measure of what is left; the measure grows by no more than the streams a call leaves behind |
| InvocationTheorems.SettlingEnds | internal/config/invocation_loader.go:423-487 | a run in which nothing new arrives is no longer than its measure and the streams its calls leave behind allow |
| InvocationTheorems.SomethingCanSettle | internal/config/invocation_loader.go:423-487 | while anything is unsettled, some event without new work can happen |
| InvocationTheorems.EverythingSettles | internal/config/invocation_loader.go:423-487 | a run that cannot go on without new work has settled every promise |
| InvocationHistory.StepTouches | internal/config/invocation_loader.go:423-487 | an event moves the calls and tasks that it names and no others, answers the one lifecycle call that it answers as it answers it, and leaves ended transitions alone |
| InvocationHistory.WorkIsHistory | internal/config/invocation_loader.go:456-483 | over every run the unfinished calls are those that arrived and did not end, and the pending tasks those tracked and not settled |
| InvocationHistory.AcksAreAnswers | internal/config/invocation_loader.go:407-431 | over every run a lifecycle call counts as accepted or rejected exactly as the run answered it |
| InvocationHistory.CompletionEndsHistory | internal/config/invocation_loader.go:445-451 | when a completion is sent its start was accepted, every call that ever arrived has ended and everything ever tracked has settled |
| InvocationHistory.QueuedWhenIdle | internal/config/invocation_loader.go:442-445 | the check is queued only when nothing is running or pending |
| InvocationHistory.ArrivalRunsExactlyWhenOpen | internal/config/invocation_loader.go:486 | a call that arrives runs at once in an open epoch and sends nothing; otherwise it waits |
| InvocationHistory.WaiterRunsExactlyWhenOpen | internal/config/invocation_loader.go:486 | a call that waited runs its body if the epoch is open, and reports if it is not |
| InvocationHistory.WaitersFollowTheirPromise | internal/config/invocation_loader.go:486 | over every run, the body of a call whose promise has settled begins when it resumes exactly if the promise was fulfilled |
| InvocationHistory.BodiesFollowTheAnswers | internal/config/invocation_loader.go:430 | from the beginning, a waiting call runs when it resumes exactly if the latest lifecycle call is a start that the run accepted |
| DnsRecords.ScanPacket | internal/dnsresolver/records.go:140-156 | the answers are the encodings, in order, of the packet's IN records of that name and type, or the failure is the first one's; the alias is the last one |
| DnsRecords.Holds | internal/dnsresolver/records.go:168-174 | whether the packet mentions the name |
| DnsRecords.FollowPacket | internal/dnsresolver/records.go:139-183 | the inner loop never reaches its bound: it returns, or leaves with an unseen name that the packet does not mention; on every faithful zone it does what the recursive resolver does |
| DnsRecords.QueryRecords | internal/dnsresolver/records.go:123-187 | at most 16 distinct names, linked by aliases seen in responses, and at most as many exchanges, each for another of them, the queried one first; the answers are the IN records of the type of the last name; a failed exchange gives its error; for every server the nested loops are the recursion `Ask`, and on every zone to which the server is faithful the outcome is that of the recursive resolver allowed 16 names |
| DnsData.DataTellsRecordsApart | internal/dnsresolver/records.go:189-225 | the data tells records of one type apart, whatever their numbers, names and strings, except services whose targets differ by the closing dot only |
| DnsData.DataSpellsTheRecord | internal/dnsresolver/records.go:189-225 | the data reads back: the target, the preference and target, or priority, weight, port and target without its closing dot, numbers in decimal without leading zeros |
| DnsData.FoldExactly | internal/dnsresolver/records.go:129-172 | two names are one exactly when they differ at most in the case of ASCII letters |
| DnsRecords.ReadName | internal/dnsresolver/records.go:140-163 | what a packet that carries a name says of it is what the zone says |
| DnsRecords.RelevantExactly | internal/dnsresolver/records.go:143-151 | the answers come from exactly the records of class IN, of the type, whose owner has the letters of the name, each as often as it is there |
| DnsRecords.AliasExactly | internal/dnsresolver/records.go:152-155 | the alias followed is the last record of class IN that is a CNAME of the name, unless the query is for those |
| DnsOutcomes.AliasQueryReturnsTargets | internal/dnsresolver/records.go:138-163 | a query for aliases follows none: it asks for the queried name only and answers with exactly that name's CNAME records, each with its own target as data |
| DnsOutcomes.CutDoesNotMatter | internal/dnsresolver/records.go:123-187 | two servers faithful to one zone, whose last exchanges succeed, give the same data under the same name and type in some order, or the same failure: how each cuts the chain into packets does not matter |
| DnsOutcomes.HeldInAnyClass | internal/dnsresolver/records.go:169-175 | a target is looked up in the packet at hand exactly when some record there, of any class, bears its letters |
| DnsOutcomes.SpellingDoesNotMatter | internal/dnsresolver/records.go:123-187 | for all servers: another spelling of the queried name, of owners, or of alias targets on the way gives the same answers but for the spelling of their owner |
| DnsOutcomes.SixteenNames | internal/dnsresolver/records.go:127-134 | 16 names and 16 exchanges at the most, and the limit is reported only there |
| DnsOutcomes.FoundThroughAnAlias | internal/dnsresolver/records.go:138-163 | a query in capitals through an alias in capitals past a record of another class finds the one record |
| DnsExchange.Exchange | internal/dnsresolver/records.go:227-272 | TCP is used exactly after a truncated answer over UDP; records are read from nothing but a complete, successful answer to the question asked, and truncation over TCP and response codes are reported as such |
| DnsExchange.AnswersExactly | internal/dnsresolver/records.go:249-256 | a reply is to the query exactly when it is a response with its number and opcode 0 that repeats its one question, whatever the case of the letters |
| ReverseNames.ReverseName | internal/dnsresolver/records.go:106-121 | the loop over bytes gives the reverse name of the address |
| ReverseNames.ReverseNamesDiffer | internal/dnsresolver/records.go:106-121 | different addresses, of either family, have different reverse names |
| ReverseNames.NameSpellsTheNumber | internal/dnsresolver/records.go:106-121 | the name spells the address as one number, the least significant digit first: four decimal bytes or 32 lower-case hex digits |
| TxtEncoding.BuildTxt | internal/dnsresolver/records.go:191-208 | the loop returns the quoted concatenation, the raw single string, or nothing, as the encoder is defined |
| TxtEncoding.TxtRoundTrip | internal/dnsresolver/records.go:189-208 | whatever nonempty list the encoder accepts, the parser reads back |
| TxtEncoding.QuotedUnlessAwkward | internal/dnsresolver/records.go:194-207 | what is accepted is in quotes, unless it is a single string that the parser would misread among quoted ones |
| TxtEncoding.AcceptedIsRepresentable | internal/dnsresolver/records.go:189-208 | of nonempty lists it accepts exactly those that some value stands for, except those whose last string ends in a quote and is not the only one or begins with a quote too |
| TxtEncoding.RefusedThoughRepresentable | internal/dnsresolver/records.go:196-203 | every list that closes in a quote and has no string boundary within or between its strings is refused, with the value that stands for it |
| TxtEncoding.RefusedExamples | internal/dnsresolver/records.go:196-203 | a quoted string, a single quote, and two strings |
| UploadBindings.Validate | internal/cfcompat/upload.go:679-734 | accepts exactly a binding that is sufficient for its type and fills in no field that its type does not permit |
| UploadBindings.ValidShape | internal/cfcompat/upload.go:679-734 | each field of a valid, encodable binding is filled in only for its own type, and the required ones are |
| UploadBindings.ValidExactlyWhen | internal/cfcompat/upload.go:679-734 | valid exactly when it is sufficient for its type and, if it has an encoding at all, equals itself stripped of every field that is not its type's |
| UploadBindings.ValidExactlyByShape | internal/cfcompat/upload.go:679-734 | the shapes of the valid bindings, type by type |
| UploadBindings.StoredIsStable | internal/cfcompat/upload.go:595-611 | the stored form is a normal form that keeps validity, name and type |
| NameOrder.SortNames | internal/cfcompat/upload.go:577-581 | the ascending listing of the names, each once |
| NameOrder.AscendingUnique | internal/cfcompat/upload.go:577-581 | there is only one such listing |
| NameOrder.LessExactly | internal/cfcompat/upload.go:581 | names are in the order of their bytes: a prefix first, else the smaller byte where they first differ |
| Translation.ReadPrior | internal/cfcompat/upload.go:495-505 | the prior bindings by name, the later of two with one name |
| Translation.KeepBindings | internal/cfcompat/upload.go:510-533 | bindings and their sources by retained type, or a fault of some type |
| Translation.ApplyOne | internal/cfcompat/upload.go:536-572 | one entry decides its name against the prior revision only |
| Translation.ApplyGiven | internal/cfcompat/upload.go:534-573 | distinct acceptable entries merge with what is retained as the origins say, or some entry has the fault |
| Translation.FindPinned | internal/cfcompat/upload.go:622-629 | the identity the previous deployment pins, of two the later |
| Translation.PlaceValue | internal/cfcompat/upload.go:591-612 | variables, secrets, kept secrets and identified resources go where the revision lists them; a secret needs a value or an old secret |
| Translation.PlaceResource | internal/cfcompat/upload.go:613-654 | a resource is listed under the identity it resolves to; a retained namespace must keep its pinned identity |
| Translation.AssembleOne | internal/cfcompat/upload.go:582-657 | the first failing check, or the candidate with exactly this binding more |
| Translation.AssembleAll | internal/cfcompat/upload.go:577-658 | all names in order, or the fault of some binding |
| Translation.Merge | internal/cfcompat/upload.go:495-658 | everything but the assets: the candidate of the origins, or a fault of the upload |
| Translation.Translate | internal/cfcompat/upload.go:492-677 | succeeds exactly on an acceptable upload, with the revision it asks for; otherwise names a fault of the upload |
| Translation.ExplainedIsUnacceptable | internal/cfcompat/upload.go:492-677 | a fault that is there makes the upload unacceptable |
| UploadFaults.FaultsAreThere | internal/cfcompat/upload.go:492-677 | each fault that a translation can name, in the terms of the entries, the retained types and the prior revision |
| UploadTheorems.OrderDoesNotMatter | internal/cfcompat/upload.go:510-581 | any order of the bindings and of the retained types succeeds or fails alike and gives the same candidate |
| UploadTheorems.RevisionUnique | internal/cfcompat/upload.go:492-677 | an upload asks for one revision only |
| UploadTheorems.EntryDecidesItsName | internal/cfcompat/upload.go:534-573 | an explicit entry is stored; an inherit entry stores the prior binding of its source, whatever the other entries say, or unbinds its name |
| UploadTheorems.MutualRenamesSwap | internal/cfcompat/upload.go:541-568 | two entries that inherit from each other's names swap the two bindings |
| UploadTheorems.RetentionIsByType | internal/cfcompat/upload.go:512-533 | a prior binding that no entry names survives exactly when its type is retained |
| UploadTheorems.RevisionIsComplete | internal/cfcompat/upload.go:577-658 | strictly ascending names, at most 128; every stored binding is of a supported type, valid, without secret or legacy identifier, and every resource has its identity |
| UploadTheorems.EntriesMembers | internal/cfcompat/upload.go:605-654 | a collection of the deployment holds exactly the entries of the bindings of its type |
| UploadTheorems.VarsAreProjected | internal/cfcompat/upload.go:590-594 | the variables are exactly the stored plain-text and JSON bindings |
| UploadTheorems.SecretsAreAccountedFor | internal/cfcompat/upload.go:595-604 | new and kept secrets are disjoint and together the secret names; none is stored with its text; each kept one was a secret of the prior revision |
| UploadMeaning.OriginatesExactly | internal/cfcompat/upload.go:510-573 | which binding a name gets and from where: its own entry, the last prior binding its inherit entry names, or without an entry the prior binding of a retained type |
| UploadMeaning.AcceptableExactly | internal/cfcompat/upload.go:492-677 | acceptable exactly when the retained types are offered, the entries well formed, at most 128 names bound, every binding valid with its secret, resource and retained identity there, and assets kept where they are bound |
| UploadMeaning.RevisionIsDescribed | internal/cfcompat/upload.go:492-676 | every part of the revision, member by member: stored bindings, variables, new and kept secrets with their values and sources, entries with their identities in the order of names, assets, tags and settings |
| UploadMeaning.RetainedNamespaceKeepsItsIdentity | internal/cfcompat/upload.go:613-633 | a retained dispatch binding keeps, under whatever name, the identity that the previous deployment lists for it, which the resolver still gives, and is listed with it |
| UploadMeaning.ChangedIdentityIsRefused | internal/cfcompat/upload.go:622-632 | a namespace whose name has another identity by now, or that the deployment does not list, is refused when it is retained |
| UploadFixpoint.KeepingIsAcceptable | internal/cfcompat/upload.go:511-676 | keeping everything of a translated revision is always acceptable, with a stable resolver |
| UploadFixpoint.KeepEverything | internal/cfcompat/upload.go:511-676 | and gives the same bindings, deployment, tags and assets, with each secret kept under its own name |
| UploadFixpoint.TranslatedIsSound | internal/cfcompat/upload.go:577-676 | what a translated revision is, apart from the upload it came from |
| UploadFixpoint.PinnedEntry | internal/cfcompat/upload.go:613-632 | the identity a listed dispatch binding pins is the one it resolved to |
| Settings.ValidateTags | internal/cfcompat/settings.go:187-198 | at most eight distinct tags of 1 to 256 bytes of valid UTF-8 |
| Utf8.ValidExactlyEncodings | internal/cfcompat/settings.go:193 | the test for valid UTF-8, byte by byte, passes exactly the encodings of sequences of scalar values |
| Settings.CheckPatch | internal/cfcompat/settings.go:132-145 | accepts exactly a patch whose bindings are inherited or valid and whose tags are valid |
| Settings.ApplySettings | internal/cfcompat/settings.go:151-185 | succeeds exactly when the patch is acceptable, with its revision and the code and triggers of the old one; each refusal has its own exact reason |
| Settings.OmittedBindingsArePreserved | internal/cfcompat/settings.go:151-185 | on a translated revision a patch without bindings succeeds exactly when its tags are valid, there are no dispatch namespaces and assets are bound, and changes only what it mentions |
| Settings.SettingsAcceptableExactly | internal/cfcompat/settings.go:132-185 | a patch is acceptable exactly on modules without dispatch namespaces, when its bindings and its at most eight tags are well formed, when the upload that it stands for is acceptable, and when assets stay bound |
| Settings.PatchedIsDescribed | internal/cfcompat/settings.go:151-185 | code, DNS settings and triggers stay, and all else is what the upload that the patch stands for describes |
| Settings.ListedBindingsReplaceAll | internal/cfcompat/settings.go:166-171 | a patch that lists bindings leaves exactly the names that it lists |
| Settings.EmptyPatchIsIdentity | internal/cfcompat/settings.go:151-185 | the empty patch is the identity on configuration whenever it succeeds |
| Completion.CompleteUpload | internal/cfcompat/upload.go:426-468 | which loader is needed, when its absence or failure is the answer, and the revision against the loaded assets |
| Completion.LoadsExactly | internal/cfcompat/upload.go:429-460 | it can be translated exactly when the completed assets load, if it brings some, or else the retained ones do not fail, if it keeps some |
| Completion.LoadedAssetsChangeNothingElse | internal/cfcompat/upload.go:429-460 | loaded assets change the assets and their handling and nothing else of the revision |
| Completion.CompletionAcceptableExactly | internal/cfcompat/upload.go:426-468 | acceptable exactly when the upload's entries and bindings are, against the previous revision, with a revision to keep assets of and assets where they are bound |
| Completion.CompletedIsDescribed | internal/cfcompat/upload.go:429-468 | the completed upload's files without one leading slash, the retained ones as loaded, or the previous ones; the handling asked for; and the rest as the upload asks of the previous revision |
| CapnpText.CapnpQuote | internal/config/writer.go:942-961 | the loop over runs of ASCII is the escaper of single bytes, between quotes |
| CapnpText.QuoteRoundTrip | internal/config/writer.go:939-961 | a reader of literals gives back exactly the bytes and exactly the text that follows, whatever it is |
| CapnpText.EscapeIsPrintable | internal/config/writer.go:939-961 | only printable ASCII is emitted |
| CapnpText.EscapeForms | internal/config/writer.go:942-961 | which form each byte takes: itself, its own short escape, or lower-case hex |
| SqlStatements.HasOneStatement | internal/cli/cli.go:1710-1788 | the loop over six mode flags answers whether exactly one segment holds anything once comments and quoted regions are erased |
| SqlStatements.EraseAppend | internal/cli/cli.go:1715-1742 | texts that no token joins are read one after the other; a semicolon joins nothing, in any mode |
| SqlStatements.StatementsAddUp | internal/cli/cli.go:1710-1788 | joined by a semicolon, two texts count together when the first ends outside quotes, brackets and comments |
| SqlStatements.RegionsAreSpace | internal/cli/cli.go:1721-1768 | a comment of either kind, a quoted literal, a quoted or bracketed name or a stray closing bracket counts as a space, whatever it holds: semicolons in it separate nothing and it is no content |
| SqlStatements.UnclosedIsTheEnd | internal/cli/cli.go:1721-1768 | a comment or quote that is never closed hides the rest of the text |
| SqlStatements.PlainIsOne | internal/cli/cli.go:1770-1783 | text without marks is one statement if it holds anything but white space |
| SqlStatements.NoStatementExactlyWhen | internal/cli/cli.go:1710-1788 | a text has no statement exactly when nothing but semicolons and white space stays of it |
| SqlStatements.QuotedLiteralIsNothing | internal/cli/cli.go:1744-1752 | a text that is nothing but a comment, a literal in single or double quotes with quotes doubled inside, or a name in backticks or brackets, has no statement |
| SocketPolicy.BuildDeny | internal/config/wfp_sockets.go:101-121 | the written denials, the local ranges and every allowed prefix whose written base is local |
| SocketPolicy.LocalExactly | internal/config/wfp_sockets.go:104 | local are the IPv4 addresses that begin with 127 or with 169 and 254, the IPv6 address 1, and those that begin with the ten bits 1111111010 |
| SocketPolicy.WrittenCanonically | internal/config/wfp_sockets.go:104 | the local ranges are written without host bits |
| SocketPolicy.DeniedExactly | internal/config/wfp_sockets.go:101-121 | exactly the written denials, and without local access the local rule, the local ranges and the allowed prefixes with a local base |
| SocketPolicy.LocalIsNeverPermitted | internal/config/wfp_sockets.go:101-121 | unless local access is allowed, no list of allowed prefixes, with whatever host bits, permits a local address under longest-prefix matching with ties denied |
| SocketPolicy.OthersKeepTheirDecision | internal/config/wfp_sockets.go:108-118 | an address that is not local keeps the decision of the written rules, except exactly when a longest allowed prefix that matches it was written with a local base |
| SocketPolicy.AllowedButCancelled | internal/config/wfp_sockets.go:108-118 | such a case without host bits |
| PostgresTables.Postgres.CommitScriptManagementState | internal/database/postgres_management.go:36-59 | the whole new state and answer of one conditional upsert |
| PostgresTables.Postgres.SaveAssetUploadSession | internal/database/postgres_asset_upload.go:35-54 | the same for an upload session, with its owner |
| PostgresTables.SelectExpired | internal/database/postgres_asset_upload.go:65-67 | the earliest expired sessions that nobody holds, those of one time by identifier, up to the limit, and fewer only when there are no more |
| PostgresTables.SelectedExactly | internal/database/postgres_asset_upload.go:65-67 | no session left expires before one selected, or with it under a smaller name, and none expired is left under the limit |
| PostgresTables.Postgres.PruneAssetUploadSessions | internal/database/postgres_asset_upload.go:61-73 | refuses a limit outside 1 to 256; otherwise removes exactly the selected sessions and counts them |
| PostgresTables.Postgres.CreateDispatchNamespace | internal/database/postgres_platform.go:88-103 | a namespace with its first policy, or nothing |
| PostgresTables.Postgres.SetNamespaceGrants | internal/database/postgres_platform.go:156-177 | the next revision with its policy at the revision expected, or nothing |
| PostgresTables.Postgres.NamespacePolicies | internal/database/postgres_platform.go:178-197 | a live namespace's policies are revisions 1 to its own in order, the last with its current grants |
| PostgresTables.Postgres.DeleteDispatchNamespace | internal/database/postgres_platform.go:137-155 | an unused namespace goes with its policies and sessions |
| PostgresTables.Postgres.AdvancePublication | internal/database/postgres_publication.go:10-15 | the generation of the Worker rises by one, from nothing to one |
| PostgresTables.Postgres.AcknowledgePublication | internal/database/postgres_publication.go:38-48 | what is published rises to an acknowledged generation not ahead of the current one |
| DatabaseState.StepKeepsValid | internal/database/postgres_platform.go:88-177 | every step keeps a namespace's policies exactly 1 to its revision with its grants last, revisions positive, publication behind generation, references whole, names unique |
| DatabaseRuns.RunKeepsValid | internal/database/postgres_platform.go:88-177 | so does every run of any clients |
| DatabaseRuns.StepRevision | internal/database/postgres_management.go:36-59 | a write that succeeds found the revision it expected and leaves the next with all its content; a row goes exactly with its Worker, its namespace or its expiry; nothing else changes a row |
| DatabaseRuns.RevisionsCountUp | internal/database/postgres_asset_upload.go:35-54 | over every run the accepted revisions of a row since it was last absent are 1, 2, 3 and so on with one winner each, and the row holds the last winner's content |
| DatabaseRuns.WinsExactlyWhen | internal/database/postgres_management.go:36-59 | a write wins exactly when it expects the current revision, asks for the next, and what it refers to is there and its own |
| DatabaseRuns.PoliciesAreKept | internal/database/postgres_platform.go:156-177 | over every run that does not delete the namespace its policies are never rewritten and its revision never falls |
| DatabaseRuns.PublicationsMoveForward | internal/database/postgres_publication.go:38-48 | over every run that does not remove the Worker neither number falls, and published never exceeds generation |
| DatabaseAnswers.AnswersExactly | internal/database/postgres_platform.go:88-177 | every statement answers for its own reason, told by the rows that it finds |
| DatabaseAnswers.SurroundingsMove | internal/database/postgres_platform.go:88-155 | Workers and artifacts are those added and not removed, and a namespace keeps the organization and the name it was created with |
| DatabaseAnswers.PublicationIsItsHistory | internal/database/postgres_publication.go:10-48 | over every run the generation is the number of advances since the row was last absent, what is published is the highest generation acknowledged, and the traffic is that of the latest advance |

## Left out

- The execution registry, deployment service and token minting: assumed as said above; session time is a number of seconds, and a request whose random identifier cannot be drawn does nothing.
- The diagnostic, register, publish and retire operations of the execution server: of them only the expiry of a session they look up is an event.
- HTTP routing, JSON and multipart decoding, status codes and error texts, the command line, logs and metrics.
- The loader's proxies, streams, resource facades and log reporting: present only as calls and tracked tasks; retries of one lifecycle request are one request, and error reporting settles.
- DNS sockets, packet parsing, server racing and host lookups; names are ASCII. A server answers a name the same way within one query, which asks for no name twice.
- DnsOutcomes.CutDoesNotMatter: compares names without regard to case and leaves out the times to live, which caches may lower; DnsRecords.QueryRecords fixes both against the packet.
- Names of bindings are byte strings that are taken to be valid UTF-8, as the decoders ensure; the copying of assets and JSON is equality of values.
- UploadTheorems.EntriesMembers: several asset bindings leave only the last name in the asset configuration, so assets are not a collection.
- The named socket rules public, private and local, whose ranges belong to the runtime; IPv4-mapped addresses are addresses of 128 bits; parsing of rules.
- CapnpText.QuoteRoundTrip: the reader knows the short escapes and two-digit hex escapes, not octal ones, which the writer does not emit.
- The remaining statements of the database; each modelled statement or transaction is one atomic step.
