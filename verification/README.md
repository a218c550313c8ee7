# A verified model of the browser SDK's cores

This project models the parts of the Datadog browser SDK whose behaviour spans several functions or a whole state
machine, and proves properties of them for every input and every run.

| part | modules |
|---|---|
| Upload retry protocol | `RetryProtocol` (specification), `RetryProtocolProofs`, `RetryTheorems`, `RetryDecisions`, `RetryTransport` (classes) |
| Batch, flush controller, identity encoder | `BatchProtocol`, `BatchProofs`, `BatchAccounting`, `BatchDecisions`, `Batches` (classes) |
| Live debugger: registry, delivery API, activation stacks | `Debugger` (specification), `DebuggerRegistry`, `DebuggerDelivery`, `DebuggerStacks`, `DebuggerTheorems`, `DebuggerTeardown`, `DebuggerActivations`, `DebuggerRuntime` (class), `ProbeSampling` (class), `SnapshotRate` (class) |
| Live debugger: expression compiler | `Expression`, `JsSyntax` and `JsSyntaxProofs` (parser), `ExpressionSyntax`, `ExpressionTrees`, `JsSemantics`, `ExpressionMeaning`, `ExpressionCorrectness`, `ExpressionLaws` |
| Live debugger: capture | `Capture`, `CaptureProofs`, `CaptureLaws`, `CaptureWalker` (methods), `CaptureHooks` |
| CSS selectors | `Dom`, `Selector`, `SelectorProofs`, `SelectorChoice`, `ShadowSelector` |
| Buffered replay and the start of RUM | `BufferedReplay`, `BufferedReplayProofs`, `BufferedObservables` (class), `PreStart`, `PreStartStrategies` (class) |
| Page activity, write-back of modifications, sampling | `PageActivity`, `PageActivityWatch` (class), `LimitModification`, `Sampling` |
| Options and results | `Wrappers` |

A state machine is given by functions on a state (`Step`, `Run`); its classes have the fields of the source, and
each method is proved to take the abstract state where the function takes it. Lemmas about the functions, over all
runs, are the results. A state may record more than the source's fields (a log of what was sent, the calls that are
running): such a record only serves to state what is proved.

Modelling choices that apply throughout:

- Times, byte counts and counters are unbounded integers, sampling and snapshot rates are real numbers. A lifetime
  limit that is not a whole number is its ceiling, which the code cannot tell apart.
- What the network, the clock, conditions, captures and built-in operations answer is an input of the step or a
  function parameter, so that everything holds for all answers.
- A payload is identified by the rank of its submission, a callback by the rank of its call, an observer by its
  function and its subscription, a probe or a list of probes by the order of creation.
- The compiler's output is a sequence of tokens. Fixed helper code between two splice points is one token, with an
  abstract syntax of its own (`HelperCode`); what matters is where operands are spliced and which names are bound
  around them. Selectors are the parsed form of the text that is built: compounds joined by child combinators.

## Model

| member | source | states |
|---|---|---|
| `RetryTheorems.ControlInvariant` | packages/browser-core/src/transport/sendWithRetryStrategy.ts:44-118 | In every reachable state: down means a non-empty queue and either one timer with nothing in flight or only the retry of the queue head in flight; failure-detected means something in flight and no timer; up means no timer; only a down transport has a retry in flight; a non-empty queue always waits for a request or a timer; no timer ever fires on an empty queue |
| `RetryTheorems.TimersFindAPayload` | packages/browser-core/src/transport/sendWithRetryStrategy.ts:76-78 | A timer that fires re-sends the head of a non-empty queue and leaves no timer |
| `RetryTheorems.PayloadsAreConserved` | packages/browser-core/src/transport/sendWithRetryStrategy.ts:36-64 | Every submission is in exactly one place: delivered, dropped with a queue-full event, queued, or in flight for the first time |
| `RetryTheorems.SubmissionOrderIsKept` | packages/browser-core/src/transport/sendWithRetryStrategy.ts:120-137 | The payloads that were ever sent had their first transmissions in submission order, over any run |
| `RetryTheorems.TransportBounds` | packages/browser-core/src/transport/sendWithRetryStrategy.ts:76-89 | At most one request, or at most 32 with 80 KiB in all, is in flight; every proper prefix of the queue is under 20 MiB; the backoff time is min(60 s, 1 s doubled once per failed retry since the last recovery), and 1 s unless the transport is down; a full queue is reported at most once |
| `RetryTheorems.RetryInfoCountsFailures` | packages/browser-core/src/transport/sendWithRetryStrategy.ts:107-115 | A payload's retry count is the number of its failed transmissions |
| `RetryTheorems.DrainingSplitsTheQueue` | packages/browser-core/src/transport/sendWithRetryStrategy.ts:120-137 | After a success the drain drops nothing: it sends the longest prefix that bandwidth admits, in order, and keeps the rest in order |
| `RetryTheorems.HealthyStepDecreases` | packages/browser-core/src/transport/sendWithRetryStrategy.ts:120-137 | While the server accepts what it gets and nothing new arrives, every step brings the end nearer |
| `RetryTheorems.RecoveryDeliversEverything` | packages/browser-core/src/transport/sendWithRetryStrategy.ts:36-137 | From any reachable state, with a server that accepts, only boundedly many steps remain; when none does, the queue is empty and every submission was delivered or dropped with an event |
| `RetryDecisions.ResponsesAreJudged` | packages/browser-core/src/transport/sendWithRetryStrategy.ts:100-147 | In every reachable state a response delivers the payload it answers, and no other, exactly unless it is not opaque and has status 408, 429, 500 or more, or 0 while offline |
| `RetryDecisions.FailedPayloadsAreKept` | packages/browser-core/src/transport/sendWithRetryStrategy.ts:52-57 | After a failure the payload is queued once, unless it was a first transmission that found 20 MiB queued and is dropped with an event; it carries the status and the number of its failures |
| `RetryDecisions.SubmissionsAreRouted` | packages/browser-core/src/transport/sendWithRetryStrategy.ts:44-63 | A submission is sent at once exactly if the transport is up, nothing is queued and there is room (no request, or less than 32 and 80 KiB with it); otherwise it is queued, or dropped if 20 MiB are queued |
| `RetryDecisions.DropsNeedAFullQueue` | packages/browser-core/src/transport/sendWithRetryStrategy.ts:163-170 | Over every run, a payload is only dropped when it is submitted, or its first transmission fails, while 20 MiB are queued |
| `RetryDecisions.FullQueueIsReported` | packages/browser-core/src/transport/sendWithRetryStrategy.ts:128-131 | Over every run, a full queue is reported exactly by the first successful first transmission that finds 20 MiB queued |
| `RetryProtocolProofs.StepKeepsInv` | packages/browser-core/src/transport/sendWithRetryStrategy.ts:36-137 | The joint invariant over status, timers, requests in flight, queue, backoff and event log is kept by every submission, response and timer |
| `RetryProtocolProofs.RedistributeIsPump` | packages/browser-core/src/transport/sendWithRetryStrategy.ts:132-136 | Re-submitting every queued payload to a new queue equals sending from the front until bandwidth refuses |
| `RetryTransport.PayloadQueue.Enqueue` | packages/browser-core/src/transport/sendWithRetryStrategy.ts:163-170 | A full queue refuses and stays as it is, another one appends the payload and counts its bytes |
| `RetryTransport.PayloadQueue.Dequeue` | packages/browser-core/src/transport/sendWithRetryStrategy.ts:174-180 | Removes and returns the head, if any, and discounts its bytes |
| `RetryTransport.BandwidthMonitor.CanHandle` | packages/browser-core/src/transport/sendWithRetryStrategy.ts:194-200 | Whether a payload fits: nothing in flight, or under both limits with it |
| `RetryTransport.RetryTransport.SendWithRetryStrategy` | packages/browser-core/src/transport/sendWithRetryStrategy.ts:36-64 | Sends at once or queues, as the protocol step says |
| `RetryTransport.RetryTransport.Submit` | packages/browser-core/src/transport/sendWithRetryStrategy.ts:36-64 | A submission is the protocol step of submitting, and keeps the invariant |
| `RetryTransport.RetryTransport.OnResponse` | packages/browser-core/src/transport/sendWithRetryStrategy.ts:100-117 | A response in any order is the protocol step of that response, and keeps the invariant |
| `RetryTransport.RetryTransport.FireTimer` | packages/browser-core/src/transport/sendWithRetryStrategy.ts:76-89 | A firing timer is the protocol step of that timer, and keeps the invariant |
| `RetryTransport.RetryTransport.ScheduleRetry` | packages/browser-core/src/transport/sendWithRetryStrategy.ts:66-90 | A timer with the current backoff time is armed exactly when the transport is down |
| `RetryTransport.RetryTransport.RetryQueuedPayloads` | packages/browser-core/src/transport/sendWithRetryStrategy.ts:120-137 | The draining loop over the detached queue computes the drain of the specification |
| `SelectorProofs.SiblingTestSuffices` | packages/browser-rum-core/src/domain/getSelectorFromElement.ts:304-358 | If a child selector leads to the target alone among an element's children, and no sibling has a match, then the selector combined with it leads to the target alone among the parent's children: testing siblings replaces a query below the parent |
| `SelectorProofs.SubtreeSelectorPinpoints` | packages/browser-rum-core/src/domain/getSelectorFromElement.ts:103-140 | For every tree and target other than HTML there is a selector, and it matches the target alone: in the whole root when it stopped at a globally unique part, otherwise anchored at the children of the node where the walk stopped |
| `SelectorProofs.PositionIsUnique` | packages/browser-rum-core/src/domain/getSelectorFromElement.ts:204-225 | The position selector is always unique among siblings, so the fallback never fails |
| `SelectorProofs.SelectorMatches` | packages/browser-rum-core/src/domain/getSelectorFromElement.ts:153-198 | Every selector that a getter returns matches the element it was made for |
| `ShadowSelector.SelectorDesignatesElement` | packages/browser-rum-core/src/domain/getSelectorFromElement.ts:55-98 | For every connected element outside HTML elements, through any number of shadow roots, there is one part for each root, and the parts designate that element and no other |
| `ShadowSelector.NoSelectorBecauseHtml` | packages/browser-rum-core/src/domain/getSelectorFromElement.ts:68-74 | A connected element has no selector exactly if it, or a host on the way to it, is an HTML element |
| `ShadowSelector.UnanchoredReadingIsAmbiguous` | packages/browser-rum-core/src/domain/getSelectorFromElement.ts:318-358 | In a shadow root where the type occurs elsewhere, the generated chain, read without its anchor, can match a second element |
| `SelectorProofs.ConfinedTypeNeedsNoAnchor` | packages/browser-rum-core/src/domain/getSelectorFromElement.ts:103-140 | If the type of the target's ancestor below the node where the walk ends occurs among that node's children only, the selector, queried over the whole root without anchor, matches the target alone |
| `SelectorProofs.OrdinaryDocumentsNeedNoAnchor` | packages/browser-rum-core/src/domain/getSelectorFromElement.ts:103-140 | In a document whose HTML element holds HEAD and BODY elements, and that has these types nowhere else, every selector can be queried without anchor |
| `SelectorChoice.SelectorsAreStable` | packages/browser-rum-core/src/domain/getSelectorFromElement.ts:142-198 | No selector uses an id or a class with a digit, a class of the body, or an attribute that is not listed as stable |
| `SelectorChoice.UniqueAttributeIsTaken` | packages/browser-rum-core/src/domain/getSelectorFromElement.ts:103-122 | If the first stable attribute of the target, the action name attribute before the listed ones, singles it out in the root, it is the whole selector |
| `SelectorChoice.UniqueIdIsTaken` | packages/browser-rum-core/src/domain/getSelectorFromElement.ts:103-122 | Otherwise, a non-empty id without a digit that no other element of the root has is the whole selector |
| `SelectorChoice.PositionsAreLastResort` | packages/browser-rum-core/src/domain/getSelectorFromElement.ts:124-137 | On every level from the target upwards, a position is only used where a sibling has the same type |
| `SelectorChoice.TargetIsNamedBriefly` | packages/browser-rum-core/src/domain/getSelectorFromElement.ts:44-48 | Among its siblings, a target without stable attribute is named by its first class without a digit if no sibling of its type has it, else by its type if no sibling has it, else by its position |
| `Dom.QueryAllIff` | packages/browser-rum-core/src/domain/getSelectorFromElement.ts:254-261 | The list that a query over a root returns holds exactly the elements that match |
| `Selector.GetNthOfTypeSelector` | packages/browser-rum-core/src/domain/getSelectorFromElement.ts:210-225 | The loop counts the element's rank among the siblings of its type |
| `Selector.IsSelectorUniqueAmongSiblings` | packages/browser-rum-core/src/domain/getSelectorFromElement.ts:318-358 | The two loops answer whether no other sibling matches the selector, or has a scoped match below it |
| `Selector.FindSelector` | packages/browser-rum-core/src/domain/getSelectorFromElement.ts:227-249 | Returns the first getter's selector that passes the uniqueness test |
| `Selector.GetSelectorFromElementWithinSubtree` | packages/browser-rum-core/src/domain/getSelectorFromElement.ts:103-140 | The upward loop computes the selector of the specification |
| `ShadowSelector.GetAllSubtreeTargets` | packages/browser-rum-core/src/domain/getSelectorFromElement.ts:82-98 | The loop lists the root and target of every subtree from the document down to the element |
| `ShadowSelector.GetSelectorFromElement` | packages/browser-rum-core/src/domain/getSelectorFromElement.ts:55-77 | Detached elements have no selector; others have the parts of the specification |
| `ExpressionTrees.CompiledTextParsesAsMeant` | packages/browser-debugger/src/domain/expression.ts:115-235 | Whatever compiles: parsing the emitted tokens by the precedences of ECMA-262 (sections 13.1, 13.5, 13.10, 13.11, 13.13) gives the intended tree if and only if every connective has an operand, the target of every primitive instanceof has no operator outside parentheses, no reference is super, and no other type name is super or starts with @ |
| `ExpressionTrees.SuperDoesNotParse` | packages/browser-debugger/src/domain/expression.ts:144-149 | An input where it fails: a reference to super is accepted and compiled to text that is no expression |
| `ExpressionTrees.AtTypeNameDoesNotParse` | packages/browser-debugger/src/domain/expression.ts:139-143 | Another one: a type name that starts with @ is accepted, spliced without being mangled, and compiled to text that is no expression |
| `ExpressionSyntax.LegalIffNoError` | packages/browser-debugger/src/domain/expression.ts:139-151 | The compiler throws exactly if the tree holds an illegal identifier or an unknown node |
| `ExpressionCorrectness.CompiledTextMeansTheExpression` | packages/browser-debugger/src/domain/expression.ts:115-243 | Evaluating the compiled text, as it parses, gives the value or the error that the expression means, for every environment and every behaviour of the built-in operations, if the text parses to the intended tree and no name is captured by helper code around it |
| `ExpressionLaws.ComparisonsOrder` | packages/browser-debugger/src/domain/expression.ts:153-164 | The compiled text of gt, ge, lt, le, eq and ne on operands that yield numbers yields whether the one is greater than, at least, less than, at most, equal to or different from the other |
| `ExpressionLaws.EqualityIsIdentity` | packages/browser-debugger/src/domain/expression.ts:153-156 | eq and ne yield whether two values are identical; an object made by the expression is identical to nothing |
| `ExpressionLaws.NotNegates` | packages/browser-debugger/src/domain/expression.ts:124-125 | not yields true exactly for undefined, null, false, zero and the empty text |
| `ExpressionLaws.ConnectiveStops` | packages/browser-debugger/src/domain/expression.ts:169-172 | and yields its first falsy operand, or its first truthy one, whatever comes after it; the last operand if there is none |
| `ExpressionLaws.ConnectiveFails` | packages/browser-debugger/src/domain/expression.ts:169-172 | An operand that fails makes a connective fail exactly if it is reached |
| `ExpressionLaws.QuantifiersQuantify` | packages/browser-debugger/src/domain/expression.ts:237-243 | any yields whether the predicate, with @it bound, is truthy for some item of an array, a typed array or a set, all whether it is for every one |
| `ExpressionLaws.QuantifiersReadEntries` | packages/browser-debugger/src/domain/expression.ts:237-243 | Over a plain object, the same for its entries, with @key and @value bound |
| `ExpressionLaws.FilterSelects` | packages/browser-debugger/src/domain/expression.ts:210-218 | filter yields a new array of the items for which the predicate is truthy, in order |
| `ExpressionLaws.MembersAreRead` | packages/browser-debugger/src/domain/expression.ts:288-311 | A member that is not behind a getter is read, one that is behind a getter is an error |
| `ExpressionLaws.TypeTestsTell` | packages/browser-debugger/src/domain/expression.ts:139-143 | instanceof with a primitive type name yields whether the value is of that type |
| `ExpressionLaws.ReferencesRead` | packages/browser-debugger/src/domain/expression.ts:144-149 | A reference reads the variable of its name, and @x the debugger variable $dd_x; a missing one is an error |
| `ExpressionLaws.IsDefinedCatches` | packages/browser-debugger/src/domain/expression.ts:130-138 | isDefined yields whether its operand does not fail |
| `ExpressionLaws.NamesAreChecked` | packages/browser-debugger/src/domain/expression.ts:344-349 | The name of a reference or a type is accepted exactly if it is @ and a word, or a word that begins with no digit, and is not reserved |
| `ExpressionCorrectness.Preserved` | packages/browser-debugger/src/domain/expression.ts:115-243 | The same below binders: with environments that differ on captured names only |
| `ExpressionCorrectness.ChainSame` | packages/browser-debugger/src/domain/expression.ts:169-172 | A left-nested chain of one connective stops at the operand at which the operands read from left to right are decided, with its value or error |
| `ExpressionCorrectness.KeptEntriesSame` | packages/browser-debugger/src/domain/expression.ts:210-218 | The reduce over an object's entries keeps exactly the entries whose predicate is truthy |
| `ExpressionCorrectness.ItemsSame` | packages/browser-debugger/src/domain/expression.ts:237-243 | some and every over a collection answer as the predicate, and stop at the same element |
| `ExpressionCorrectness.TypeofSame` | packages/browser-debugger/src/domain/expression.ts:139-143 | typeof of a reference without binding is undefined, and not an error |
| `ExpressionCorrectness.RunGetSize` | packages/browser-debugger/src/domain/expression.ts:272-286 | The size helper: length of texts and arrays, size of sets and maps, number of keys of other objects, an error otherwise, and an error for properties with a getter |
| `ExpressionCorrectness.RunContains` | packages/browser-debugger/src/domain/expression.ts:177-196 | The contains helper picks the built-in of the container's kind, or fails |
| `ExpressionCorrectness.RunMatches` | packages/browser-debugger/src/domain/expression.ts:197-209 | The matches helper tests texts against a text or a genuine regular expression, or fails |
| `ExpressionCorrectness.RunAccess` | packages/browser-debugger/src/domain/expression.ts:288-300 | Member access: maps by key only where allowed, never sets, other objects by property unless it has a getter |
| `ExpressionCorrectness.RunGuard` | packages/browser-debugger/src/domain/expression.ts:313-332 | A compared object that has its own conversions is an error, everything else is compared as it is |
| `ExpressionCorrectness.SubstringCapturesStr` | packages/browser-debugger/src/domain/expression.ts:219-226 | Why names must not be captured: a bound named str is evaluated to the subject |
| `ExpressionCorrectness.QuantifierCapturesVal` | packages/browser-debugger/src/domain/expression.ts:237-243 | Why names must not be captured: @val in a predicate is evaluated to the collection |
| `ExpressionCorrectness.FilterCapturesAcc` | packages/browser-debugger/src/domain/expression.ts:214-217 | Why names must not be captured: acc in a filter predicate is evaluated to the object being built |
| `ExpressionCorrectness.CapturedSubstringDiffers` | packages/browser-debugger/src/domain/expression.ts:219-226 | With null bound to str, the text of a substring with the bounds str gives another outcome than the expression |
| `ExpressionCorrectness.CapturedFilterDiffers` | packages/browser-debugger/src/domain/expression.ts:214-217 | With null bound to acc, the text of a filter of a plain object by acc gives another outcome than the expression |
| `ExpressionCorrectness.NothingHasTypeNull` | packages/browser-debugger/src/domain/expression.ts:81 | No value is an instance of null, although null is listed as a primitive type |
| `BufferedReplayProofs.SubscriberReceivesASlice` | packages/browser-core/src/tools/observable.ts:72-97 | In every run every subscription receives one contiguous slice of the notifications, in order and once each, and nothing before its microtask; the slice ends where the subscription was closed or silenced |
| `BufferedReplayProofs.SliceIsWholeIffHeard` | packages/browser-core/src/tools/observable.ts:34-39 | The slice extends to the last notification before the subscription was closed if and only if it was not silenced before, or nothing was notified in between |
| `BufferedReplayProofs.UnsubscribeSilencesExactly` | packages/browser-core/src/tools/observable.ts:75-80 | Closing a subscription silences exactly the others with the same observer function that have joined and still listen |
| `BufferedReplayProofs.SilencersShareTheFunction` | packages/browser-core/src/tools/observable.ts:34-39 | In every run a subscription is silenced only by another one that has its function and was closed |
| `BufferedReplayProofs.ReplayStartsAtTheBuffer` | packages/browser-core/src/tools/observable.ts:63-90 | The slice starts with the last maxBufferSize notifications, or at the next one when the buffer was dropped before |
| `BufferedReplayProofs.WindowsAreFinal` | packages/browser-core/src/tools/observable.ts:75-97 | No step changes where a slice starts, nor where it ends once it is closed |
| `BufferedReplayProofs.MicrotasksJoinInOrder` | packages/browser-core/src/tools/observable.ts:82-95 | Queued replays run oldest first, and every subscription has joined once no microtask is left |
| `BufferedReplayProofs.DropReportsTheLoss` | packages/browser-core/src/tools/observable.ts:104-111 | Dropping the buffer reports the drops counted so far, if any, and empties it; at the first time these are the notifications beyond the limit; at a later one all notifications, but for those that the first drop found in the buffer, are counted |
| `BufferedReplayProofs.NothingIsKeptAfterDrop` | packages/browser-core/src/tools/observable.ts:63-70 | From then on the buffer stays empty, and every notification counts as a drop, whoever receives it |
| `BufferedReplayProofs.SharedObserverGoesSilent` | packages/browser-core/src/tools/observable.ts:34-39 | An input where a slice is not whole: two subscriptions with one function, of which the first is closed, silence the second |
| `BufferedReplayProofs.ClosedReceivesNothing` | packages/browser-core/src/tools/observable.ts:72-97 | In every run, a subscription that is closed receives nothing in any later step, its replay included |
| `BufferedReplayProofs.ReplayStopsWhenClosed` | packages/browser-core/src/tools/observable.ts:82-95 | A replay delivers the buffer from its start up to the notification in reaction to which the subscription is closed, and all of it if there is none |
| `BufferedReplayProofs.NotificationsReachTheListening` | packages/browser-core/src/tools/observable.ts:63-70 | In every run a notification reaches every subscription that listens when it comes, once, and no other |
| `BufferedReplayProofs.UnbufferDropsTheBuffer` | packages/browser-core/src/tools/observable.ts:104-111 | Unbuffering drops the buffer for good, after everything that was queued before it |
| `BufferedReplayProofs.StepKeepsInv` | packages/browser-core/src/tools/observable.ts:52-111 | The joint invariant over buffer, observers, queued microtasks and what was received is kept by every action |
| `BufferedObservables.BufferedObservable.Notify` | packages/browser-core/src/tools/observable.ts:63-70 | Buffers, evicts beyond the limit, then calls the observers that were there |
| `BufferedObservables.BufferedObservable.Subscribe` | packages/browser-core/src/tools/observable.ts:72-98 | Queues the replay of a new subscription |
| `BufferedObservables.BufferedObservable.Unsubscribe` | packages/browser-core/src/tools/observable.ts:75-80 | Closes the subscription and removes every observer that is its function |
| `BufferedObservables.BufferedObservable.ReplayBuffer` | packages/browser-core/src/tools/observable.ts:82-95 | The replay loop stops as soon as the subscription is closed, and otherwise joins it to the observers |
| `BufferedObservables.BufferedObservable.RunNextMicrotask` | packages/browser-core/src/tools/observable.ts:82-110 | Runs the oldest microtask |
| `PreStart.RumStartsOnce` | packages/browser-rum-core/src/boot/preStartRum.ts:94-137 | RUM starts at most once, and has started exactly if it is configured with session manager and telemetry and, when views are tracked manually, a view was started |
| `PreStart.RumStartsWhenEverythingHappened` | packages/browser-rum-core/src/boot/preStartRum.ts:94-206 | RUM has started exactly if a valid configuration was given, telemetry was started after it, a session manager was found after that, and, if the first such configuration has views tracked manually, a view was started; it starts with that configuration, and with the first view if they are |
| `PreStart.BufferedCallsRunInOrder` | packages/browser-rum-core/src/boot/preStartRum.ts:116-136 | Nothing runs before the start and its microtask; then exactly the calls from some rank on have run, in call order and once each, but for the view that became the initial one |
| `PreStart.LastCallsAreReplayed` | packages/browser-rum-core/src/boot/preStartRum.ts:64-68 | The replay starts with the oldest of the last 500 calls, although RUM unbuffers at once |
| `PreStart.SkippingSkipsOne` | packages/browser-rum-core/src/boot/preStartRum.ts:131-135 | Skipping takes the one initial startView out of the replayed calls and keeps all others |
| `PreStartStrategies.PreStartStrategy.TryStart` | packages/browser-rum-core/src/boot/preStartRum.ts:96-137 | The start decision over the closure variables equals that of the specification and keeps the invariant |
| `PreStartStrategies.PreStartStrategy.StartView` | packages/browser-rum-core/src/boot/preStartRum.ts:289-299 | Buffers the call; the first one is remembered and may start RUM |
| `BatchProofs.RequestsAreFramed` | packages/browser-core/src/transport/batch.ts:44-116 | Every request's body, split at line breaks, is the messages added since the request before in order, then the latest upsert of each key, with no empty line; the controller counted exactly these lines and estimated no more bytes than are sent; it is sent on exit exactly for page-exit reasons |
| `BatchProofs.AddsAreConserved` | packages/browser-core/src/transport/batch.ts:44-61 | Every accepted add has left in exactly one request or is still buffered, in order |
| `BatchProofs.BufferHoldsLatestUpserts` | packages/browser-core/src/transport/batch.ts:45-54 | A key is buffered once, with its latest message, exactly if it was upserted since the last flush |
| `BatchProofs.CountersAreExact` | packages/browser-core/src/transport/flushController.ts:111-140 | Between calls the message count is that of buffered adds and keys and under its limit, the byte count is the encoder's output plus the estimated upserts and under 16 KiB, and the timer is armed exactly if there is something to flush |
| `BatchProofs.PageExitsAreUrgent` | packages/browser-core/src/transport/flushController.ts:42-52 | Every request that goes out while a page exit is prepared carries the page-exit reason, and the flush that follows does too |
| `BatchAccounting.AcceptedOnce` | packages/browser-core/src/transport/batch.ts:63-76 | A message of 256 KiB or more is discarded, every other one is added once, whatever telemetry the requests report that the call causes |
| `BatchAccounting.EveryMessageIsAddedOnce` | packages/browser-core/src/transport/batch.ts:44-116 | In every run, a message that is not too long has been added exactly as often as it was given to be added or reported by a request; a longer one never |
| `BatchAccounting.AddedTimesInOrder` | packages/browser-core/src/transport/batch.ts:55-60 | The sequence of adds, which AddsAreConserved finds in the requests and the buffer, holds it as often |
| `BatchDecisions.AddsFlushAtTheLimits` | packages/browser-core/src/transport/flushController.ts:111-140 | Between calls, adding a message discards it from 256 KiB on; it first sends what is pending if the estimate reaches 16 KiB with it, and otherwise sends everything with it exactly if the number of messages reaches its limit or the bytes reach 16 KiB; no other add causes a request |
| `BatchDecisions.ReplacementsFlushAtTheLimits` | packages/browser-core/src/transport/batch.ts:45-54 | Replacing a buffered upsert corrects the bytes and causes a request exactly if they reach 16 KiB |
| `BatchDecisions.NewKeysFlushAtTheLimits` | packages/browser-core/src/transport/batch.ts:45-54 | An upsert with a new key causes a request exactly where an added message would |
| `BatchDecisions.PendingIsFlushed` | packages/browser-core/src/transport/flushController.ts:61-87 | The timer and a forced flush send what was accepted since the last request, for their own reason, and nothing if nothing was |
| `BatchDecisions.LengthsCountUnits` | packages/browser-core/src/tools/utils/byteUtils.ts:13-21 | The two sizes of a text are the number of its bytes in UTF-8 and of its code units in UTF-16 |
| `BatchProofs.StepKeepsInv` | packages/browser-core/src/transport/flushController.ts:58-140 | The joint invariant over batch, encoder and controller is kept by every action, re-entrant telemetry included |
| `Batches.IdentityEncoder.Write` | packages/browser-core/src/tools/encoder.ts:74-81 | Appends the text and counts its UTF-8 bytes |
| `Batches.IdentityEncoder.FinishSync` | packages/browser-core/src/tools/encoder.ts:87-97 | Returns what was written and starts over |
| `Batches.Batch.FlushPool` | packages/browser-core/src/transport/flushController.ts:61-78 | Nothing if nothing is counted; otherwise the counters restart, the timer is cancelled and one request goes out |
| `Batches.Batch.SendPool` | packages/browser-core/src/transport/batch.ts:78-116 | The request holds the encoder's output followed by the upserts, and both buffers are empty afterwards |
| `Batches.Batch.NotifyBeforeAddMessage` | packages/browser-core/src/transport/flushController.ts:111-122 | Flushes first if the message would reach the limit, then counts it and arms the timer |
| `Batches.Batch.NotifyAfterAddMessage` | packages/browser-core/src/transport/flushController.ts:132-140 | Corrects the byte count, then flushes at either limit |
| `Batches.Batch.AddOne` | packages/browser-core/src/transport/batch.ts:55-60 | An add as the specification has it |
| `Batches.Batch.UpsertOne` | packages/browser-core/src/transport/batch.ts:44-54 | An upsert as the specification has it: a known key replaces its message and is not counted again |
| `Batches.Batch.OnPageMayExit` | packages/browser-core/src/transport/flushController.ts:44-52 | The loop over what subscribers add, with the reason forced, and the final flush |
| `DebuggerTheorems.RegistryIsConsistent` | packages/browser-debugger/src/domain/probes.ts:155-164 | Across polls, budget removals, replacements and trips: a mapped id names the function whose list holds the one probe with that id, listed probes are mapped and known, no stored list is empty; after a trip nothing is registered but possibly the mapping of an id spelled like the placeholder key |
| `DebuggerTheorems.PollActsOnTheMap` | packages/browser-debugger/src/domain/deliveryApi.ts:146-187 | A poll response changes the registry as its deletions and then its updates change a plain map from ids to probes |
| `DebuggerTheorems.RemovalByInstanceIsExact` | packages/browser-debugger/src/domain/probes.ts:199-244 | Removing an instance that is not registered, stale or replaced, changes nothing; removing a registered one takes out it alone |
| `DebuggerRegistry.RemoveByIdRemoves` | packages/browser-debugger/src/domain/probes.ts:199-235 | Removal by id fails exactly if the id is not mapped, and then nothing is registered under it; otherwise it removes that probe alone |
| `DebuggerRegistry.AddAdds` | packages/browser-debugger/src/domain/probes.ts:155-164 | Adding under a free id keeps the registry consistent and registers that probe alone, in place on the list that running calls may hold |
| `DebuggerTheorems.ExitPopsItsOwnEntry` | packages/browser-debugger/src/domain/api.ts:157-172 | When a call returns or throws, each probe on its list has on top the entry of that very call, or an empty stack; the former exactly if the call entered it and it was not torn down |
| `DebuggerTheorems.StacksMirrorRunningCalls` | packages/browser-debugger/src/domain/api.ts:55-145 | A probe's stack lists the running calls that entered it, outermost first, and is empty between calls |
| `DebuggerTheorems.LifetimeBudgetBounds` | packages/browser-debugger/src/domain/probes.ts:305-339 | A probe sends at most its lifetime limit plus the activations recorded when the limit was reached; none if the limit is zero; a registered one with a limit is below it |
| `DebuggerTheorems.CallsRemoveExactlyTheExhausted` | packages/browser-debugger/src/domain/probes.ts:321-335 | Calls remove a probe only when its budget is used up, and then always, unless it never had any |
| `DebuggerTheorems.BreakerTripsExactly` | packages/browser-debugger/src/domain/deliveryApi.ts:111-130 | Over any run, the breaker trips at once on a response that is not transient, and otherwise exactly on a failure that comes when the server has not been reached since a first failure long enough ago; it never resets |
| `DebuggerTheorems.WindowOpensAtFirstFailure` | packages/browser-debugger/src/domain/deliveryApi.ts:250-257 | The failure window opens with the first failure after the server was last reached |
| `DebuggerTeardown.TripClearsRegistered` | packages/browser-debugger/src/domain/probes.ts:249-272 | A trip empties the stacks of exactly the registered probes, and tears them down |
| `DebuggerTeardown.TrippedSendsExactly` | packages/browser-debugger/src/domain/api.ts:157-325 | After a trip an event is sent exactly by an exit that reports a recorded activation of its own call, for a probe that was not registered when the breaker tripped |
| `DebuggerTeardown.SendsAfterTrip` | packages/browser-debugger/src/domain/probes.ts:249-272 | In every run after a trip, a probe that was torn down sends nothing more, and another one no more events than it has recorded activations |
| `DebuggerTeardown.RemovedProbeStillSends` | packages/browser-debugger/src/domain/probes.ts:249-272 | A run that trips and then sends: a poll removes a probe during a call, the breaker trips, and the call's exit sends its event |
| `DebuggerTeardown.ExitSendsExactly` | packages/browser-debugger/src/domain/api.ts:333-385 | In every run an exit sends exactly one event for each listed probe that reports a recorded activation |
| `DebuggerActivations.EntryIsExact` | packages/browser-debugger/src/domain/api.ts:55-145 | In every run an entry leaves one entry of the new call on each probe that is registered for the function and has budget left, and on no other, and sends an event at once exactly if an error is to be reported |
| `DebuggerActivations.ActivationsSendExactly` | packages/browser-debugger/src/domain/api.ts:157-325 | Over every run: when a call is left, whatever polls, trips and calls came since its entry, an event is sent for a probe exactly if the call met the probe, its activation was recorded and is reported, and the probe was not torn down in between |
| `ProbeSampling.PassesWhenTheIntervalIsOver` | packages/browser-debugger/src/domain/api.ts:65-75 | An activation is not sampled out exactly if the global budget grants it and every earlier one that passed is at least the sampling interval ago |
| `ProbeSampling.RecordedExactly` | packages/browser-debugger/src/domain/api.ts:65-143 | It is recorded exactly if, besides, the condition holds where it is evaluated on entry, and the captures end in time; an error is reported on entry exactly if none of the probe was in the five minutes before |
| `ProbeSampling.ReportedExactly` | packages/browser-debugger/src/domain/api.ts:176-234 | At an exit an event is sent exactly if the captures end in time and the condition holds where it is evaluated there, or if its error is reported |
| `ProbeSampling.ErrorsAreSpaced` | packages/browser-debugger/src/domain/probes.ts:341-348 | Reported condition errors of a probe are at least five minutes apart, over both hooks, and one that comes later is reported |
| `ProbeSampling.ProbeSampler.DecideEntry` | packages/browser-debugger/src/domain/api.ts:65-103 | The guards in the order of the source; the global budget is only asked when the probe's own interval has passed |
| `ProbeSampling.ProbeSampler.DecideExit` | packages/browser-debugger/src/domain/api.ts:176-201 | The guards of both exit hooks |
| `ProbeSampling.ProbeSampler.CheckConditionErrorBudget` | packages/browser-debugger/src/domain/probes.ts:341-348 | Grants an error, and remembers its time, if none was granted for five minutes |
| `DebuggerTheorems.StepKeepsInv` | packages/browser-debugger/src/domain/api.ts:55-325 | The joint invariant over registry, known ids, stacks, running calls and budgets is kept by every poll, call and exit |
| `DebuggerRuntime.LiveDebugger.RemoveProbeById` | packages/browser-debugger/src/domain/probes.ts:199-244 | The searching loop removes what the specification removes |
| `DebuggerRuntime.LiveDebugger.RemoveProbeInstance` | packages/browser-debugger/src/domain/probes.ts:199-244 | The identity-checked loop removes what the specification removes |
| `DebuggerRuntime.LiveDebugger.Add` | packages/browser-debugger/src/domain/probes.ts:155-164 | Registers a new instance, in place on an existing list |
| `DebuggerRuntime.LiveDebugger.Clear` | packages/browser-debugger/src/domain/probes.ts:249-272 | Empties the stacks of all registered probes and both records, but for the placeholder key |
| `DebuggerRuntime.LiveDebugger.ProcessResponse` | packages/browser-debugger/src/domain/deliveryApi.ts:139-187 | The loops over deletions and updates are the poll step |
| `DebuggerRuntime.LiveDebugger.ProcessRejection` | packages/browser-debugger/src/domain/deliveryApi.ts:111-137 | Transient statuses count as failures, others trip the breaker |
| `DebuggerRuntime.LiveDebugger.ProcessFailure` | packages/browser-debugger/src/domain/deliveryApi.ts:188-199 | Whatever a poll throws, while waiting for the response or for its body, counts as a failure |
| `DebuggerRuntime.LiveDebugger.ReachServer` | packages/browser-debugger/src/domain/deliveryApi.ts:141-142 | A response that is not an error resets the failure window, before its body is read |
| `DebuggerRuntime.LiveDebugger.QueueDebuggerSnapshot` | packages/browser-debugger/src/domain/api.ts:333-385 | Counts the event and removes the probe once its budget is used up |
| `DebuggerRuntime.LiveDebugger.OnEntry` | packages/browser-debugger/src/domain/api.ts:55-145 | The loop over the list of probes is the entry step |
| `DebuggerRuntime.LiveDebugger.OnReturnOrThrow` | packages/browser-debugger/src/domain/api.ts:157-325 | The loop that pops each probe's entry is the exit step |
| `SnapshotRate.SnapshotRateIsBounded` | packages/browser-debugger/src/domain/probes.ts:281-303 | Whatever the requests, no closed second contains more than twice the rate, rounded up, although the counter is not a sliding window |
| `SnapshotRate.BoundIsAttained` | packages/browser-debugger/src/domain/probes.ts:285-291 | For every rate some requests attain that bound |
| `SnapshotRate.RefusalsAreJustified` | packages/browser-debugger/src/domain/probes.ts:281-303 | A snapshot is only refused when at least as many as the rate were granted in the second before it, and what is no snapshot never is |
| `SnapshotRate.SnapshotBudget.Check` | packages/browser-debugger/src/domain/probes.ts:281-303 | Grants and counts as the specification does; probes without snapshots are always granted and not counted |
| `CaptureProofs.CaptureIsBounded` | packages/browser-debugger/src/domain/capture.ts:104-152 | On every object graph, cyclic or infinite, and for every clock: nesting is at most the maximum depth plus one, and the number of captured values is under the geometric sum of the limits |
| `CaptureProofs.CaptureIsHonest` | packages/browser-debugger/src/domain/capture.ts:43-52 | If the context has not timed out in the end, the result is the one without a deadline, and nothing in it was cut by timeout |
| `CaptureProofs.InTimeIsPicture` | packages/browser-debugger/src/domain/capture.ts:104-152 | The same at every depth and from every context |
| `CaptureProofs.InTimeFieldsFrom` | packages/browser-debugger/src/domain/capture.ts:289-327 | The field loop, in time, captures the first fields up to the limit, later ones overwriting earlier ones of the same name |
| `CaptureLaws.LatenessIsNoticed` | packages/browser-debugger/src/domain/capture.ts:43-52 | A capture that ends in time has read the clock, and no reading was late; one that begins late shows the type only |
| `CaptureLaws.TextsAreCut` | packages/browser-debugger/src/domain/capture.ts:154-167 | A text is shown up to the maximum length, and marked and with its length exactly if it is longer |
| `CaptureLaws.CollectionsShowTheFirst` | packages/browser-debugger/src/domain/capture.ts:364-392 | In time, arrays and sets show their first items in order, one level deeper, and their size exactly if some are missing |
| `CaptureLaws.MapsShowTheFirst` | packages/browser-debugger/src/domain/capture.ts:394-427 | In time, maps show their first entries, key and value in turn, and their size exactly if some are missing |
| `CaptureLaws.ObjectsShowTheFirstFields` | packages/browser-debugger/src/domain/capture.ts:289-362 | In time, objects and functions show their first fields under their names, dots replaced, or that a field cannot be accessed, and the number of fields exactly if some are missing |
| `CaptureLaws.LastFieldOfANameIsShown` | packages/browser-debugger/src/domain/capture.ts:304-324 | Where names coincide, the last of the first fields is shown |
| `CaptureLaws.ErrorsShowTheirCause` | packages/browser-debugger/src/domain/capture.ts:461-514 | An error shows its message and name, and its stack and cause if it has them |
| `CaptureLaws.DeepObjectsAreOnlyNamed` | packages/browser-debugger/src/domain/capture.ts:188-216 | From the maximum depth on, objects are only named |
| `CaptureProofs.QueuedSnapshotsAreComplete` | packages/browser-debugger/src/domain/api.ts:218-235 | A snapshot that is queued holds the complete pictures of arguments, locals and return value, although they share one deadline |
| `CaptureProofs.ProbesGetCompletePictures` | packages/browser-debugger/src/domain/api.ts:119-129 | The arguments that the probes of one call capture on entry share one deadline: each probe gets the complete picture under its own limits, or nothing, and once one got nothing so do all after it |
| `CaptureHooks.QueuedActivationIsComplete` | packages/browser-debugger/src/domain/api.ts:157-238 | Over a whole activation that returns, for snapshots and capture expressions on either side: what is queued joins the complete picture of the entry and that of the exit, each in the heap of its hook, holds no value that was cut by timeout, and names the expressions that failed |
| `CaptureHooks.QueuedThrowIsComplete` | packages/browser-debugger/src/domain/api.ts:248-325 | The same for an activation that throws |
| `CaptureHooks.EntryInTime` | packages/browser-debugger/src/domain/api.ts:104-145 | An entry that is pushed holds the complete picture of the arguments or expressions, and what failed |
| `CaptureHooks.EvaluateCaptureExpressions` | packages/browser-debugger/src/domain/captureExpressions.ts:11-40 | The loop over the expressions, on the context that it shares with the other captures of the hook |
| `CaptureWalker.CaptureContext.IsTimedOut` | packages/browser-debugger/src/domain/capture.ts:43-52 | Sticky: once late, the clock is not read again |
| `CaptureWalker.WalkValue` | packages/browser-debugger/src/domain/capture.ts:104-152 | The recursive walk computes the specification, context included |
| `CaptureWalker.WalkElements` | packages/browser-debugger/src/domain/capture.ts:364-392 | The element loop, asking the context before every element |
| `CaptureWalker.WalkMap` | packages/browser-debugger/src/domain/capture.ts:394-427 | The entry loop, asking the context before every entry |
| `CaptureWalker.WalkFields` | packages/browser-debugger/src/domain/capture.ts:289-327 | The field loop |
| `CaptureWalker.WalkReturn` | packages/browser-debugger/src/domain/api.ts:218-235 | All parts share one context, and nothing is queued when it has timed out |
| `PageActivity.ReportsOnce` | packages/browser-rum-core/src/domain/waitPageActivityEnd.ts:97-112 | There is at most one report, and none after the end or a stop |
| `PageActivity.ReportsAreTrue` | packages/browser-rum-core/src/domain/waitPageActivityEnd.ts:70-112 | No activity is reported only if there was none for the validation delay; an end is the time of the last activity, with no request pending and silence for the end delay, or the moment at which the maximum duration has passed |
| `PageActivity.WaitsForSomething` | packages/browser-rum-core/src/domain/waitPageActivityEnd.ts:85-95 | While it waits, the validation delay runs and nothing has happened, or a request is pending, or the end delay runs since the last activity |
| `PageActivity.ActivitiesAreWhatHappened` | packages/browser-rum-core/src/domain/waitPageActivityEnd.ts:114-161 | In every run the activities are the page changes, the starts of requests, and the completions that are not older than the first start, at their times, up to the end |
| `PageActivity.TimersReportExactly` | packages/browser-rum-core/src/domain/waitPageActivityEnd.ts:70-112 | In every run: no activity is reported exactly if there was none for 100 ms and there is no shorter maximum; an end exactly if nothing is pending and the last activity is 100 ms ago, unless the maximum comes first; the maximum exactly if it has passed and neither came first |
| `PageActivity.StopIsFinal` | packages/browser-rum-core/src/domain/waitPageActivityEnd.ts:97-104 | After a stop nothing is recorded or reported any more, whatever comes |
| `PageActivity.PendingCountIsExact` | packages/browser-rum-core/src/domain/waitPageActivityEnd.ts:138-161 | In every run the counter is the number of pending requests all along, if and only if no pending request with an index below the first one completes, no request that is not pending completes with an index from the first one on, and no request starts while it is pending |
| `PageActivity.PendingCountLedger` | packages/browser-rum-core/src/domain/waitPageActivityEnd.ts:138-161 | In every run the counter is the number of tracked requests that have started and not completed, plus the overlooked completions and repeated starts, minus the completions of requests that are not pending |
| `PageActivity.IndexOrderAttributes` | packages/browser-rum-core/src/domain/waitPageActivityEnd.ts:138-161 | Requests that are numbered in the order in which they start, and complete once, meet that condition |
| `PageActivity.CounterSticksOutOfOrder` | packages/browser-rum-core/src/domain/waitPageActivityEnd.ts:148-157 | An input where it fails: a later start with a smaller index is never discounted |
| `PageActivity.MaxDurationEndsValidated` | packages/browser-rum-core/src/domain/waitPageActivityEnd.ts:51-52 | With a maximum duration of at least the validation delay, what it ends has had activity |
| `PageActivity.ShortMaxDurationReportsTooMuch` | packages/browser-rum-core/src/domain/waitPageActivityEnd.ts:51-52 | With a shorter one an activity is reported that was not there |
| `PageActivityWatch.PageActivityWatcher.NotifyPageActivity` | packages/browser-rum-core/src/domain/waitPageActivityEnd.ts:85-95 | Cancels both delays and restarts the end delay unless a request is pending |
| `PageActivityWatch.PageActivityWatcher.OnRequestStarted` | packages/browser-rum-core/src/domain/waitPageActivityEnd.ts:138-147 | Remembers the first index, counts the request and notifies |
| `PageActivityWatch.PageActivityWatcher.OnRequestCompleted` | packages/browser-rum-core/src/domain/waitPageActivityEnd.ts:148-160 | Ignores what started before the tracking, otherwise discounts and notifies |
| `PageActivityWatch.PageActivityWatcher.CompleteWith` | packages/browser-rum-core/src/domain/waitPageActivityEnd.ts:105-111 | Reports once, and stops |
| `LimitModification.OnlyListedPositionsChange` | packages/browser-rum-core/src/domain/limitModification.ts:16-78 | Whatever the modifier did, the event differs only at or below positions that a listed path designates: elsewhere nothing appears, disappears or changes, and no array changes its length |
| `LimitModification.ListedFieldIsWritten` | packages/browser-rum-core/src/domain/limitModification.ts:59-78 | For any set of paths, what is at a designated position in the end is written by the last listed path that concerns it: the sanitized value of the clone if it has the declared type, the empty default if it was removed, and otherwise what the paths before have left there |
| `LimitModification.FieldsAreWrittenByType` | packages/browser-rum-core/src/domain/limitModification.ts:59-78 | Type by type: a string field takes a changed string and nothing else; an object or array field takes an object or an array, and an empty one where the modifier has left nothing |
| `LimitModification.SoleListedFieldIsWritten` | packages/browser-rum-core/src/domain/limitModification.ts:59-78 | If no other listed path concerns the position, the last of these is what the event held |
| `LimitModification.UnrelatedPositionsStay` | packages/browser-rum-core/src/domain/limitModification.ts:32-57 | Paths that lead neither to a position nor above or below it leave the whole value there alone |
| `LimitModification.UntouchedFieldStays` | packages/browser-rum-core/src/domain/limitModification.ts:65-67 | A field that is no object or array and that the modifier left alone is left alone, whatever else it changed and whatever paths are listed, unless one designates something above the field |
| `LimitModification.Limit` | packages/browser-rum-core/src/domain/limitModification.ts:16-30 | The loop over the listed paths computes the write-back |
| `Sampling.HashPermutes` | packages/browser-core/src/domain/sampler.ts:60-64 | Multiplying by the odd factor modulo 2^64 permutes the 64-bit identifiers |
| `Sampling.ExactlyTheRateIsKept` | packages/browser-core/src/domain/sampler.ts:40-66 | For a rate strictly between 0 and 100, exactly floor(rate / 100 * 2^64) + 1 of the 2^64 identifiers are kept |
| `Sampling.SamplingIsMonotone` | packages/browser-core/src/domain/sampler.ts:7-27 | Who is sampled at a rate is sampled at every higher one, shortcuts included |
| `Sampling.ReplaySampledImpliesSessionSampled` | packages/browser-rum-core/src/domain/sessionReplayState.ts:24-31 | A session whose replay is sampled is itself sampled |
| `Sampling.NestedRatesMultiply` | packages/browser-core/src/domain/sampler.ts:1-3 | The corrected child rate keeps a subset of the parent's identifiers, of the product's share |
| `Sampling.SessionsAreSampledByHash` | packages/browser-core/src/domain/sampler.ts:7-26 | A session is sampled exactly if the hash of the number that the fifth group of its id spells in hexadecimal digits, as a share of 2^64, is at most the rate; always at 100 and never at 0 |
| `Sampling.LastGroupMustBeHex` | packages/browser-core/src/domain/sampler.ts:23 | A fifth group that is empty or holds another character is a syntax error |
| `Sampling.FiveGroupsAreNeeded` | packages/browser-core/src/domain/sampler.ts:23 | So is an id of less than five groups, unless the rate is 0 or 100 |
| `Sampling.ReplayIsForcedOrSampled` | packages/browser-rum-core/src/domain/sessionReplayState.ts:17-34 | Replay is sampled at the product of the rates; if it is not, it is forced or off as the session says |
| `Sampling.Sampler.IsSampled` | packages/browser-core/src/domain/sampler.ts:5-27 | Whatever was asked before, the answer is the uncached one |

## Left out

- Several endpoints sharing one retry state: queued payloads do not record their endpoint, so there is one channel.
- Request observers that submit to the transport while they are notified of one of its events.
- Asynchronous encoders (deflate in a worker): the batch is modelled with the identity encoder, which is never
  asynchronous, so `finishSync` on page exit and pending data do not occur.
- Upserts made by telemetry while a request is sent: re-entrant messages of the batch are adds, as telemetry's are.
- Upsert keys that look like array indices, which JavaScript enumerates first, and the key `__proto__`.
- JSON text, `sanitize`, `CSS.escape`, stack traces and message templates: messages are given as their text, which is
  assumed to be non-empty and free of line breaks; attribute values and names are compared unescaped.
- SelectorDesignatesElement: assumes that HTML elements only occur at the top of a root; without it
  `SubtreeSelectorPinpoints` still says where the anchor is.
- Case folding and namespaces in selectors: the type of an element is its tag name, compared exactly.
- CompiledTextMeansTheExpression: for text that parses to the intended tree, and where no reference or type name is
  spliced where helper code binds the same name. One direction only: a captured name may stay without effect, for
  instance behind a short circuit.
- Missing operands of operators are compiled to the text `undefined`, which is written here as a reference to
  `undefined`; operands beyond the second of binary operators are dropped by the code and not represented.
- Helper code is assumed to see the built-in `Array`, `Object`, `Map` and so on, not local variables of these names.
- Numbers of the expression language are real numbers; NaN, infinities and negative zero are left out.
- SubscriberReceivesASlice: observers that notify the observable they observe, or that throw, are left out.
- RUM calls made through the public facade after the start bypass the buffer; remote configuration and the
  validation of the configuration are the input of `InitCalled`.
- Probe ids that are names of `Object.prototype` members, and `clearDeliveryApiState`, which only resets known ids.
- Polls in flight when the breaker trips are aborted and process no response. A poll is two steps, the reset of the
  failure window and the reading of its body, and the steps of overlapping polls come in any order.
- Instrumented functions are entered and left in properly nested order (no generators), and hooks do not call
  instrumented functions themselves.
- What `ProbeSampling` decides is an input of the hooks of `Debugger`, where the clock does not occur; the captures
  of a probe whose condition fails are not made, and the text of messages is left out.
- SnapshotRateIsBounded: for runs without `clearProbes`, which resets the counter.
- Capture of proxies and of array items whose access throws; names of captured fields that collide with `__proto__`.
- Limit: works on trees by value, so an event that shares an object between two positions, where a write
  shows at both, is not captured, nor is the in-place update of the event.
- Session identifiers with white space in their fifth part, which `BigInt` would trim; floating-point rounding in
  the comparison of hash and threshold; the event bridge in the replay state.
- The timers of page activity fire in the order of their due times; mutation filters and excluded URLs are applied
  before the events that are modelled.
- Configuration, public facades, event types, telemetry contents, transport of requests, and the developer extension.
