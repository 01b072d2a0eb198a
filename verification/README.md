# Verified model of five userver components

This project models five parts of userver in Dafny 4.11 and proves what they promise, for every input, every
run and every interleaving. `dafny verify dfyconfig.toml` checks all of it.

* **Component lifecycle** (`Digraph`, `ComponentContext`, `Lifecycle*`). `ComponentContextImpl` keeps the
  dependency graph: edge insertion with cycle detection and the two dependency walks are a class proved against
  reachability. The whole life of a service is a transition system: one step is one critical section, one
  atomic operation or one callback boundary of a constructor task, a stage task or the manager's task, and any
  enabled step may come next. The results hold in every reachable state: load, failed or cancelled load, the
  stage passes, graceful shutdown and destruction; and the passes of every whole life are determined by its events.
* **PostgreSQL input loop** (`PqInput`, `PqTheorems`, `PqSplit`, `PqWire`, `PqSeen`, `PqResponse`, `PqMessages`,
  `PqQuery`, `PqFormats`, `PqCases`). `pqxParseInput3` is a class over the input buffer. Framing and gating are
  proved for arbitrary body readers; independence from how the bytes arrive is proved for any readers that do not
  depend on what follows a message, and for the real ones the streams that see how they are cut are characterised exactly.
  How far one call gets is stated exactly, the loop over bytes is proved to refine one over messages, and over
  whole sessions of simple, extended, Prepare, Describe, Bind and Close queries, executions that omit Describe and
  portal fetches included, the application is proved to collect one result per statement, in order, whatever
  acknowledgements, notices, notifications and parameter changes come in between. `PqFormats` proves that
  messages, answers and exchanges built from names, values, tags and error fields meet those theorems' conditions.
* **Baggage header** (`UrlCodec`, `TextList`, `BaggageFormat`, `BaggageValue`, `BaggageRuns`, `BaggageClass`). The
  tolerant parser, the printer, copying and `AddEntry`, down to the percent-encoding they use, over any sequence of
  calls. `TextList` holds the splitting and collecting that entries and properties share.
* **Cache updates** (`CacheUpdate`, `CacheRuns`, `CacheHistory`, `CacheHandshake`). The update methods as a class,
  runs from the start on with invalidations arriving at any time, and the lock-free handshake of the first update.
* **Schema ordering** (`NameOrder`, `SchemaOrder`, `RefResolver`). `sort_dfs` and `sort_schemas`.

What is taken as given:

* `engine::ConditionVariable::Wait` returns once its predicate holds. Then `WaitStage` can never throw: it
  throws only when `Wait` returned false. A waiter released by the cancellation flag goes on to call its
  handler, so a failing `OnAllComponentsLoaded` can break the order of the loaded pass. `OrderExactlyForFunnels`
  says for which dependency graphs it cannot.
* A constructor that gets the load-cancelled exception fails, and `OnLoadingCancelled` does not throw out of
  `SetComponent`.
* The clock, the random jitter, the outcome of a cache update and the growth of the input buffer are inputs.
* libpq functions that are not part of the repository: `pqGetErrorNotice3` reads the fields of section 55.8
  (Error and Notice Message Fields) of the PostgreSQL 16 manual and waits at the end of data; that it also marks
  a pipeline as aborted and drops the previous result before it reads is not modelled. `pqSaveErrorResult` is an
  arbitrary function on results, memory does not run out. The branches are those for server headers from
  14.5 on and before 18.
* Characters are classified as in the C locale.

Where the code does less than one might expect, the model follows the code, shows it on a family of inputs and
states the exact condition: `OrderExactlyForFunnels` with `SmallestDisorder`, `SeenIff` with
`OverrunSeesTheSplit`, `ConsistentRuns` and `AddAppendsIff` with `StaleResultHeader`, `LimitKeptIff` with
`LimitExceeded`, `ForcedIffInvalidatedSince` with `InvalidationLost`, and `SortSchemas` with `SortExternalChain`.

## Model

| member | source | states |
|---|---|---|
| ComponentContext.ComponentContextImpl.constructor | core/src/components/component_context_impl.cpp:80-98 | all given components, no edges, and the graph invariant holds |
| ComponentContext.ComponentContextImpl.FindDependencyPathDfs | core/src/components/component_context_impl.cpp:586-607 | with the shared handled set and the early exit: found means reachable, not found means the newly handled nodes avoid the target and are closed under dependents; the path received is a real chain of recorded dependencies from target to current |
| ComponentContext.ComponentContextImpl.CheckForDependencyCycle | core/src/components/component_context_impl.cpp:623-637 | throws iff the new target already depends on the source, self-edges included; the printed chain is a path of recorded edges closed by the rejected one |
| ComponentContext.ComponentContextImpl.AddDependency | core/src/components/component_context_impl.cpp:564-584 | refuses iff the graph with the edge would have a cycle and then changes nothing; otherwise both edge sets get exactly that edge and stay inverse and acyclic |
| ComponentContext.ComponentContextImpl.HasDependencyOn | core/src/components/component_context_impl.cpp:339-374 | the walk over dependents decides the transitive dependency relation without self |
| ComponentContext.ComponentContextImpl.FindAllDependenciesImpl | core/src/components/component_context_impl.cpp:609-621 | everything newly handled is reachable and closed under dependencies |
| ComponentContext.ComponentContextImpl.GetAllDependencies | core/src/components/component_context_impl.cpp:376-404 | the walk over dependencies returns exactly the relation HasDependencyOn decides; the error for an unknown component |
| LifecycleInvariant.StepKeepsInv | core/src/components/component_context_impl.cpp:441-562 | every step of every task keeps the invariant: graph, pointers held, stages, flags, callbacks and task order |
| LifecycleInvariant.ReachableInv | core/src/components/manager.cpp:369-471 | the invariant holds in every state any interleaving of load, cancel, join, passes and clearing can reach |
| LifecycleInvariant.ClearingIsLast | core/src/components/component_context_impl.cpp:241-247 | a component is taken out only when every holder of its pointer has finished its own clearing |
| LifecycleTheorems.DependenciesOutliveDependents | core/src/components/component_context_impl.cpp:229-251 | over every run, while any part of an object exists all components it obtained exist; a published component has all recorded dependencies published |
| LifecycleTheorems.ClearedMeansDestroyed | core/src/components/component_context_component_info.cpp:72-86 | a finished shutdown, after a good or failed load, leaves no object |
| LifecycleTheorems.EdgesMirrorAndAcyclic | core/src/components/component_context_component_info.cpp:108-126 | in every interleaving of FindComponent calls the two edge sets are inverse and acyclic |
| LifecycleTheorems.EdgeRefusedIffCycle | core/src/components/component_context_impl.cpp:539-584 | in every reachable state FindComponent records its edge iff the graph stays acyclic, and otherwise changes nothing |
| LifecycleTheorems.FindComponentOnlyWhileLoading | core/src/components/component_context_component_info.cpp:108-126 | the stage assertions of both edge insertions hold in every reachable state |
| LifecycleTheorems.CancellationDeliveredOnce | core/src/components/component_context_component_info.cpp:42-60 | once constructors are joined, every created component got OnLoadingCancelled exactly once if the load was cancelled and never otherwise, whichever way SetComponent raced |
| LifecycleTheorems.NeverCalledTwice | core/src/components/component_context_component_info.cpp:154-162 | at no point of any run has the callback run twice |
| LifecycleTheorems.StagesDuringPass | core/src/components/component_context_impl.cpp:500-537 | in a pass a stage is the next one iff its task finished, and no component starts the pass there |
| LifecycleStages.StagesOverPass | core/src/components/component_context_impl.cpp:500-537 | between any two points of a pass, so also from its start, every stage keeps its value or becomes the next stage |
| LifecycleStages.PhasesNeverRise | core/src/components/manager.cpp:369-471 | after the load no phase of the service comes back |
| LifecycleTheorems.CancelledPassHasAFailure | core/src/components/component_context_impl.cpp:532-536 | a cancelled pass always holds a task that threw, so the logic_error is never raised |
| LifecycleTheorems.PassOrder | core/src/components/component_context_impl.cpp:441-498 | a handler starts only after the handlers of all transitive dependencies (loaded) or dependents (stopping, clearing) are over; for the loaded pass if no handler failed or the graph is a funnel |
| LifecycleOrder.LoadedPassOrderExact | core/src/components/component_context_component_info.cpp:214-220 | the loaded pass is ordered over all runs, failures included, iff every component that is depended on is a dependency, direct or not, of all others |
| LifecycleOrder.DisorderReachable | core/src/components/component_context_impl.cpp:486-495 | from the start of a loaded pass with any other graph there is a run in which a handler starts before one it depends on is over |
| LifecycleWitness.GraphReachable | core/src/components/manager.cpp:369-426 | every acyclic graph over the components is the graph of some service at the start of its loaded pass |
| LifecycleWitness.OrderExactlyForFunnels | core/src/components/component_context_component_info.cpp:214-220 | for every acyclic graph: all loaded passes of all services with it are ordered iff it is a funnel |
| LifecycleWitness.SmallestDisorder | core/src/components/component_context_impl.cpp:486-495 | with a depending on b and a third component w, a run from the first constructor on starts the handler of a before that of b is over |
| LifecycleProgress.NoDeadlock | core/src/components/component_context_impl.cpp:539-562 | in every reachable state before the end some step other than one more FindComponent is enabled |
| LifecycleProgress.ConstructorProgress | core/src/components/component_context_component_info.cpp:93-100 | while a constructor is unfinished, a constructor can run or the failure and cancel steps are enabled, because waits follow acyclic edges |
| LifecycleProgress.PassProgress | core/src/components/component_context_impl.cpp:441-498 | in a pass some task can move exactly until all are done, and then the pass can end |
| LifecycleProgress.LateStepDecreases | core/src/components/component_context_impl.cpp:500-537 | after the load every step lowers the work left |
| LifecycleProgress.ShutdownEnds | core/src/components/manager.cpp:458-471 | from any state after the load a run is bounded, and it can only stop cleared with every object destroyed |
| LifecycleLoad.LoadRunBounded | core/src/components/manager.cpp:369-418 | a run that stays in the load is bounded by the number of its FindComponent calls |
| LifecycleLoad.ServiceEnds | core/src/components/manager.cpp:369-471 | every run of a service is bounded by its number of components and of FindComponent calls, and can only stop cleared with every object destroyed |
| LifecyclePhases.PassSequence | core/src/components/manager.cpp:369-430 | over every whole life: a load given up leads to the stopping and clearing passes only; otherwise the loaded pass comes first, a failed OnAllComponentsLoaded leads from it to those two, and else the graceful pass comes in front of them iff asked for |
| LifecyclePhases.ServingMeansNoFailure | core/src/components/manager.cpp:425-430 | a service that serves has every component built and running and none whose OnAllComponentsLoaded threw |
| LifecyclePhases.FailedNeverServes | core/src/components/manager.cpp:425-430 | from a loaded pass with a failed handler, and from any later phase, no run reaches service |
| LifecyclePhases.CleanPassServes | core/src/components/manager.cpp:425-433 | a loaded pass that ends without a failed handler is followed by service |
| LifecyclePhases.CancelledIffConstructorFailed | core/src/components/manager.cpp:398-418 | after the load it was cancelled iff some constructor failed |
| LifecyclePhases.CallbacksMayThrow | core/src/components/component_context_impl.cpp:481-497 | a constructor may throw between its lookups, and the handler of any pass but clearing may |
| LifecyclePhases.DestructorHasObject | core/src/components/component_context_component_info.cpp:72-86 | a destructor runs only on a built object that still exists, and only in the clearing pass |
| LifecycleCancel.NoThrowNoFailure | core/src/components/component_context_component_info.cpp:93-100 | in a run in which no constructor throws none fails, whatever it waited for, and the load is not given up |
| LifecycleCancel.OneTaskSpreads | core/src/components/component_context_impl.cpp:486-495 | at most one task spreads the cancellation of a pass, and a component whose handler failed has released its own waiters |
| LifecycleCancel.EndsWithSetStage | core/src/components/component_context_impl.cpp:481-497 | a task ends only with SetStage, after its handler, and only that moves the stage |
| PqInput.PGconn.GetBytes | postgresql/pq-extra/pq_workaround.c:145-147 | end of data iff the buffer ends first; otherwise the bytes read and the new cursor |
| PqInput.PGconn.HandleSyncLoss | postgresql/pq-extra/pq_workaround.c:825-836 | error result, READY, input flushed, connection bad |
| PqInput.PGconn.ReadFrame | postgresql/pq-extra/pq_workaround.c:145-187 | the frame at inStart: incomplete, broken, partial or complete with its body inside the buffer, as FrameExactly spells out |
| PqInput.PGconn.ParseMessage | postgresql/pq-extra/pq_workaround.c:140-541 | one round of the loop is one Iterate, and a round that goes on consumes bytes |
| PqInput.PGconn.ParseInput | postgresql/pq-extra/pq_workaround.c:132-543 | the loop terminates with the state ParseAll gives |
| PqTheorems.OneRound | postgresql/pq-extra/pq_workaround.c:522-540 | whatever the readers do, a round leaves inStart, drops the connection, or advances it by exactly 5 plus the body length, never past the end |
| PqTheorems.ParseKeepsBoundaries | postgresql/pq-extra/pq_workaround.c:140-187 | inStart ends on a message boundary of the unchanged buffer, or the connection is dropped |
| PqTheorems.ClosedGate | postgresql/pq-extra/pq_workaround.c:205-212 | outside BUSY and IDLE only A and N messages are consumed and nothing is changed |
| PqTheorems.TraceGated | postgresql/pq-extra/pq_workaround.c:205-521 | every message a call consumes is A or N or came in BUSY or IDLE, over the whole trace |
| PqTheorems.OneResultPerCall | postgresql/pq-extra/pq_workaround.c:205-521 | for any readers: after a message leaves BUSY and IDLE only A and N follow in that call, and while they agree with their lengths the result stays |
| PqTheorems.ParseIdempotent | postgresql/pq-extra/pq_workaround.c:132-543 | a call consumes all it can: a second call without new bytes changes nothing |
| PqSplit.HandlePrefix | postgresql/pq-extra/pq_workaround.c:205-521 | if the one reader the message is given to does not depend on what follows it, the message is handled on a prefix of the buffer as on all of it, and a held one resumes as if just met |
| PqSplit.SplitOnce | postgresql/pq-extra/pq_workaround.c:132-543 | where every reader one call reaches is such, parsing what is there and then the rest equals parsing everything at once, sync loss included |
| PqSplit.SplitInvariance | postgresql/pq-extra/pq_workaround.c:132-543 | there, for any cutting of a stream into chunks the calls end with the same status, result, queue and consumed prefix as one call |
| PqWire.ScanLocal | postgresql/pq-extra/pq_workaround.c:946-1377 | a body scan given only k bytes ends where it would end given all, or reports end of data iff that is behind k |
| PqWire.SteadyIff | postgresql/pq-extra/pq_workaround.c:999-1343 | a reader is independent of what follows its message iff it is not a T, t or D reader whose scan ends behind the message, for D with the expected field count |
| PqWire.WireSplitInvariance | postgresql/pq-extra/pq_workaround.c:132-543 | split invariance with the real readers for every stream on which one call reaches no overrunning T, t or expected D message |
| PqWire.OverrunSeesTheSplit | postgresql/pq-extra/pq_workaround.c:1153-1222 | a ParameterDescription one byte short leaves BUSY when parsed alone and READY when one more byte is there |
| PqSeen.TraceFed | postgresql/pq-extra/pq_workaround.c:132-543 | on steady streams the messages consumed before and after more bytes arrive, with their effects, are those consumed with all bytes there |
| PqSeen.SeenIff | postgresql/pq-extra/pq_workaround.c:999-1343 | a stream is consumed the same wherever it is cut iff one call does not reach, in BUSY, a T, t or expected D message whose reader runs past its end |
| PqResponse.FrameOf | postgresql/pq-extra/pq_workaround.c:145-187 | an encoded message is framed as itself whatever follows it |
| PqResponse.FrameExactly | postgresql/pq-extra/pq_workaround.c:51-187 | for every input: incomplete iff under 5 bytes; broken iff the length is under 4, negative, or over 30000 for a type other than T, t, D, d, V, E, N and A; otherwise the type and length of the first bytes |
| PqResponse.Int32Signed | postgresql/pq-extra/pq_workaround.c:147 | lengths are read as signed, in two's complement |
| PqResponse.WellFormedSplit | postgresql/pq-extra/pq_workaround.c:132-543 | any stream of well-formed messages, cut anywhere, ends with the same status, result and consumed prefix as in one piece |
| PqResponse.ExactlyToTheGate | postgresql/pq-extra/pq_workaround.c:205-521 | one call on any stream of well-formed messages consumes exactly those up to the first that leaves BUSY and IDLE, then the A and N messages behind it, which change nothing, and stops at the first other message or at the end |
| PqResponse.IdleDrops | postgresql/pq-extra/pq_workaround.c:226-253 | in IDLE any unexpected messages are all dropped and change nothing |
| PqMessages.ParseRefines | postgresql/pq-extra/pq_workaround.c:132-543 | on any stream of well-formed messages a call ends in the state, and in front of the message, where taking the messages one by one ends |
| PqMessages.NoiseIgnored | postgresql/pq-extra/pq_workaround.c:205-498 | whatever kinds of queries are under way, notifications, notices, parameter changes, key data, left-over copy data and the acknowledgements of Parse, Bind, Close and Describe none of them waits for change nothing: the call ends in the same state in front of the same message |
| PqQuery.CollectsRows | postgresql/pq-extra/pq_workaround.c:428-433 | any number of rows as wide as the result are all consumed and added to it in order, whatever follows |
| PqQuery.TakesTuples | postgresql/pq-extra/pq_workaround.c:382-453 | rows become one TUPLES_OK result: with the announced columns and their bytes first, or without an announcement with the columns of the given description |
| PqQuery.CollectsAnswer | postgresql/pq-extra/pq_workaround.c:256-507 | one call on an answer, with messages of no consequence anywhere, ends with exactly one READY result and leaves what follows: rows announced by T or bare under the given description, ended by C, by s, by I or by an error that replaces them; a command; the reply to Prepare; parameters and columns, or none, for Describe |
| PqQuery.CollectsQuery | postgresql/pq-extra/pq_workaround.c:280-298 | for simple, extended, Prepare, Describe, Bind and Close queries, parsing and collecting in turn under the description of the query gives one result per answer, in order, then IDLE with everything consumed and the query off the queue |
| PqQuery.CollectsSession | postgresql/pq-extra/pq_workaround.c:714-749 | over any sequence of such queries, each with its own description, every result belongs to its query and statement and the connection is at rest after each |
| PqFormats.ContentWellFormed | postgresql/pq-extra/pq_workaround.c:946-1377 | every sendable message built from a status, a zero-free tag, parameter, notification, key data, error or notice fields, column names, nullable values, parameter types, copy formats, or of a type without a reader, is well-formed |
| PqFormats.ReplyAnswered | postgresql/pq-extra/pq_workaround.c:382-507 | any table of nullable values with its columns, or without them as wide as the description, however it ends, and any reply to Prepare or Describe, make a good answer |
| PqFormats.PlainIsGood | postgresql/pq-extra/pq_workaround.c:714-749 | any replies to a query of any kind make an exchange the session theorem applies to |
| PqFormats.NoiseAnywhere | postgresql/pq-extra/pq_workaround.c:205-498 | so does that exchange with a message of no consequence at any place |
| PqFormats.SampleSession | postgresql/pq-extra/pq_workaround.c:1590-1632 | a session of a simple query with rows, a command and a failure, a statement prepared, described and executed under its description without T, and a portal bound and fetched up to its limit |
| PqQuery.CopyBegins | postgresql/pq-extra/pq_workaround.c:466-480 | a COPY start becomes a result with its formats and the state of its direction: G in, H out, W both |
| PqCases.BadFrameDrops | postgresql/pq-extra/pq_workaround.c:154-187 | a frame that cannot be believed or held ends the connection: flushed, bad, READY, the error in front of what was collected |
| PqCases.IncompleteWaits | postgresql/pq-extra/pq_workaround.c:145-187 | an incomplete message is waited for and nothing changes |
| PqCases.UnknownIsError | postgresql/pq-extra/pq_workaround.c:508-520 | in BUSY a message of any other type is skipped and leaves an error to collect |
| PqCases.ChokedDropsRows | postgresql/pq-extra/pq_workaround.c:376-436 | after an error T and D messages are dropped |
| PqCases.UndescribedRow | postgresql/pq-extra/pq_workaround.c:454-464 | a row nothing describes is dropped and leaves an error, without ending the query |
| PqCases.MisplacedRow | postgresql/pq-extra/pq_workaround.c:441-453 | a row on top of another kind of result is left unread, which makes it an error |
| PqCases.WrongWidth | postgresql/pq-extra/pq_workaround.c:1238-1252 | a row with another number of fields than the result has columns is skipped and replaces the result by an error |
| PqCases.SecondDescriptionWaits | postgresql/pq-extra/pq_workaround.c:387-397 | a second row description waits until the result so far is collected |
| PqCases.EmptyOnly | postgresql/pq-extra/pq_workaround.c:522-540 | an acknowledgement with a body is an error |
| PqCases.DisagreementIsError | postgresql/pq-extra/pq_workaround.c:522-540 | whatever the reader did, a message it did not end with is skipped by its length and leaves an error to collect |
| PqCases.OnlyHeadLeaves | postgresql/pq-extra/pq_pipeline_funcs.i:219-262 | only the head leaves the command queue: a simple query with ReadyForQuery, a sync with its own result, the others at once |
| PqCases.ReadyOutsidePipeline | postgresql/pq-extra/pq_workaround.c:280-298 | outside pipelines ReadyForQuery makes the connection IDLE and takes the head off, but never a sync |
| PqCases.ReadyInPipeline | postgresql/pq-extra/pq_workaround.c:280-293 | in a pipeline it is the sync result, ends an aborted stretch and leaves the queue |
| PqCases.BindAcknowledged | postgresql/pq-extra/pq_workaround.c:325-340 | BindComplete takes a lone Bind off the queue, and a pipeline then waits for its next command |
| PqCases.CollectingAdvances | postgresql/pq-extra/pq_workaround.c:714-749 | collecting a result outside pipelines takes the query off the queue unless it is a simple one or a sync |
| PqCases.NoDataAlone | postgresql/pq-extra/pq_workaround.c:400-420 | NoData first in a Describe is a result without columns |
| UrlCodec.UrlEncodeTo | universal/src/http/url.cpp:47-79 | the loop appends the encoding of the input |
| UrlCodec.Decode | universal/src/http/parser/http_request_parse_args.cpp:21-54 | the loop decodes escapes and plus, and fails iff an escape is broken |
| UrlCodec.DecodeUndoesEncode | universal/src/http/url.cpp:93-99 | decoding an encoded text gives it back, for all byte strings |
| UrlCodec.EncodedIsPlain | universal/src/http/url.cpp:56-79 | encoded text has only kept symbols and percent signs, and is empty only for the empty text |
| UrlCodec.EncodeInjective | universal/src/http/url.cpp:93-99 | different texts have different encodings |
| UrlCodec.EncodesExactly | universal/src/http/url.cpp:47-79 | letters, digits and the nine marks stay; any other byte becomes a percent sign and its two capital hex digits |
| UrlCodec.DecodesSymbol | universal/src/http/parser/http_request_parse_args.cpp:30-52 | an escape is the byte of its two hex digits in either case, plus is a space, anything else is itself |
| UrlCodec.DecodeFailsIff | universal/src/http/parser/http_request_parse_args.cpp:30-52 | decoding throws iff some percent sign is not followed by two hex digits |
| TextList.SplitJoin | core/src/baggage/baggage.cpp:213-221 | splitting joined members that hold no separator gives them back |
| TextList.CollectExtended | core/src/baggage/baggage.cpp:165-169 | one more member behind a valid list, with a separator only if it has items, adds exactly what that member gives |
| BaggageFormat.ParsedHeaderGood | core/src/baggage/baggage.cpp:223-313 | whatever the header, the entries kept are well-formed, at most the limit, and print no longer than the header |
| BaggageFormat.PropertyAccepted | core/src/baggage/baggage.cpp:315-348 | a text is accepted as a property iff it is the printed form of a well-formed one |
| BaggageFormat.ReparseEntry | core/src/baggage/baggage.cpp:246-313 | a printed well-formed entry is read back as itself and as clean |
| BaggageFormat.ReparsePrinted | core/src/baggage/baggage.cpp:213-244 | any well-formed entries, printed, reparse as valid to the same entries |
| BaggageFormat.PrintParseRoundTrip | core/src/baggage/baggage.cpp:112-153 | for any header, valid or not, what was kept from it prints to a header that reparses as valid to the same entries |
| BaggageValue.ConstructedIsConsistent | core/src/baggage/baggage.cpp:112-125 | a constructed baggage prints a valid header for exactly its entries, no longer than the one given |
| BaggageValue.BlanksDoNotMatter | core/src/baggage/baggage.cpp:116-117 | blanks anywhere in a header make no difference to the baggage, and a header without them is read as it is |
| BaggageValue.CopyPreserves | core/src/baggage/baggage.cpp:127-153 | copying and moving never throw and keep entries, allowed keys and the printed header |
| BaggageValue.AddExact | core/src/baggage/baggage.cpp:155-207 | for all arguments: refused iff key not allowed, 64 entries or too long; otherwise earlier entries stay, what the call leaves is added, valid iff the call is clean, consistent iff clean or no result header was left over, and then shorter than 8192 |
| BaggageValue.AddAppendsIff | core/src/baggage/baggage.cpp:155-207 | a successful call appends exactly one entry decoding to its arguments iff key, value, property keys and present property values are not empty |
| BaggageValue.RunAppends | core/src/baggage/baggage.cpp:155-207 | any calls without empty arguments append one encoded entry per accepted call and keep the limits |
| BaggageValue.WholeRun | core/src/baggage/baggage.cpp:350-357 | from TryMakeBaggage over any such calls: parsed entries unchanged, one entry per accepted call decoding to it, at most 64, at most 8192 bytes, and a copy is the same |
| BaggageValue.StaleResultHeader | core/src/baggage/baggage.cpp:191-205 | for any key and values that fit: after a bad member, a good addition and one with an empty value the sent header starts with the stale result header and a copy has lost an entry |
| BaggageRuns.AddLoose | core/src/baggage/baggage.cpp:155-207 | for all arguments on any baggage in use, inconsistent ones included: no decoding exception, refused iff key not allowed, 64 entries or too long, entries well-formed and limited; on a valid header exactly what the call leaves is appended |
| BaggageRuns.LooseCopies | core/src/baggage/baggage.cpp:127-153 | any baggage in use can be copied, and the copy is consistent |
| BaggageRuns.AnyRun | core/src/baggage/baggage.cpp:350-357 | from TryMakeBaggage over any calls at all: at most 64 entries, all well-formed and allowed, a printed header of at most twice 8192 bytes, and neither the next call nor a copy throws a decoding exception |
| BaggageRuns.LimitExceeded | core/src/baggage/baggage.cpp:179-190 | the printed header can be longer than 8192: a run that makes one of 9007 |
| BaggageRuns.LimitKeptIff | core/src/baggage/baggage.cpp:155-207 | an accepted call on a consistent baggage prints at most 8192 bytes iff it is clean or the left-over result header and the new entries fit together |
| BaggageRuns.ConsistentRuns | core/src/baggage/baggage.cpp:191-205 | a run is consistent throughout iff no accepted call drops something while there is a result header |
| BaggageRuns.RunLeaves | core/src/baggage/baggage.cpp:155-207 | and then the entries are the first ones followed by what each accepted call leaves, in order |
| BaggageClass.TryMakeProperty | core/src/baggage/baggage.cpp:315-348 | the well-formed property that prints as the text, or a rejection iff there is none |
| BaggageClass.Baggage.MakeProperties | core/src/baggage/baggage.cpp:290-311 | the property loop keeps what the format keeps and makes the header invalid iff one was dropped |
| BaggageClass.Baggage.TryMakeBaggageEntry | core/src/baggage/baggage.cpp:246-313 | the entry, the rejection or the decoding exception the format gives |
| BaggageClass.Baggage.FillEntries | core/src/baggage/baggage.cpp:223-244 | the position loop with its limit of 64 reads exactly what ParseHeader reads |
| BaggageClass.Baggage.CreateResultHeader | core/src/baggage/baggage.cpp:213-221 | appends the printed entries to what the result header holds |
| BaggageClass.Baggage.CopyOf | core/src/baggage/baggage.cpp:127-139 | a fresh consistent baggage; of a consistent one the same entries, allowed keys and printed header |
| BaggageClass.AppendProperties | core/src/baggage/baggage.cpp:171-178 | the loop appends the encoded properties |
| BaggageClass.Baggage.AddEntry | core/src/baggage/baggage.cpp:155-207 | on any baggage in use the new state is Add of the old one, unchanged when refused; on a consistent one what the call leaves is appended, and it stays consistent iff the call is clean or there was no result header |
| BaggageClass.TryMakeBaggage | core/src/baggage/baggage.cpp:350-357 | no baggage iff the header is over 8192, exception iff a key holds a broken escape, otherwise a consistent one within the limit |
| CacheUpdate.Impl.constructor | core/src/cache/cache_update_trait_impl.hpp:107-125 | the initial field values |
| CacheUpdate.Impl.InvalidateAsync | core/src/cache/cache_update_trait_impl.cpp:42-62 | raises the force flag iff the request amounts to full, marks the handshake, and goes on to invalidate iff the start has finished |
| CacheUpdate.Impl.NextUpdateType | core/src/cache/cache_update_trait_impl.cpp:279-314 | changes at most the jitter, never a drawn one; without a dump, full only first, forced, the only allowed type or from the window start on, incremental only before the window end |
| CacheUpdate.Impl.OnUpdateSkipped | core/src/cache/cache_update_trait_impl.cpp:355-365 | one more failure, expiry exactly at the limit |
| CacheUpdate.Impl.OnUpdateFailure | core/src/cache/cache_update_trait_impl.cpp:344-353 | a skip, and the alert from its own limit on |
| CacheUpdate.Impl.DoUpdate | core/src/cache/cache_update_trait_impl.cpp:379-416 | success or failure applied to the state with all invalidations that arrived meanwhile |
| CacheUpdate.Impl.DoPeriodicUpdate | core/src/cache/cache_update_trait_impl.cpp:316-342 | a whole round: skipped iff updates are disabled and it is not the first or a first failure is allowed, and then one more failure; otherwise choice, update and outcome |
| CacheRuns.FullUpdateWindow | core/src/cache/cache_update_trait_impl.cpp:279-314 | over any run, unforced full updates never come before last full + interval - J and always from last full + interval + J on |
| CacheRuns.LastFullIs | core/src/cache/cache_update_trait_impl.cpp:379-404 | over any run the window is counted from the start of the last full update that succeeded |
| CacheRuns.SkippedIffDisabled | core/src/cache/cache_update_trait_impl.cpp:316-330 | over any run a round is skipped, and counted as a failure, iff updates are disabled and an earlier round began or a first failure is allowed |
| CacheHistory.DrawDecides | core/src/cache/cache_update_trait_impl.cpp:296-310 | where the clock decides any draw within both bounds is made, from the window start on, and the round is full iff its time is past the draw |
| CacheHistory.DrawnDecides | core/src/cache/cache_update_trait_impl.cpp:296-310 | a drawn jitter stays and decides |
| CacheHistory.OtherwiseDecided | core/src/cache/cache_update_trait_impl.cpp:286-294 | where the flag or the allowed types decide nothing is drawn |
| CacheHistory.FirstDrawsNothing | core/src/cache/cache_update_trait_impl.cpp:280-285 | before the first success nothing is drawn: the type is the dump's, or full without one |
| CacheHistory.RequestRunsIff | core/src/cache/cache_update_trait_impl.cpp:86-106 | UpdateSyncDebug updates iff updates are enabled, with the type asked for or full where only that is allowed |
| CacheHistory.OneUpdateAtATime | core/src/cache/cache_update_trait_impl.cpp:86-87 | while an update runs no other begins and the start is not over |
| CacheHistory.SuccessSettles | core/src/cache/cache_update_trait_impl.cpp:398-409 | once started the first success settles the cache for good: the dump no longer decides |
| CacheHistory.FullSuccessForgetsDraw | core/src/cache/cache_update_trait_impl.cpp:399-404 | after a full success neither the draw nor the flag is left |
| CacheHistory.LastUpdateIs | core/src/cache/cache_update_trait_impl.cpp:405-409 | the last update time is that of the last success, or of the dump |
| CacheHistory.AlertIff | core/src/cache/cache_update_trait_impl.cpp:344-353 | the alert is up iff an update since the last success failed as at least the limit-th in a row |
| CacheRuns.DueStaysDue | core/src/cache/cache_update_trait_impl.cpp:279-314 | once a round chose full, every later round does until a full update succeeds |
| CacheRuns.JitterDrawnOnce | core/src/cache/cache_update_trait_impl.cpp:297-303 | between full successes the jitter is drawn at most once and then fixed |
| CacheRuns.TypeBeforeFirstSuccess | core/src/cache/cache_update_trait_impl.cpp:280-285 | once started, until an update succeeds every round takes the type the dump asked for even if full was forced, and full where there is neither dump nor data |
| CacheRuns.AsyncFullFollows | core/src/cache/cache_update_trait_impl.cpp:213-216 | where a full update is to follow an incremental first one, every round after the start is full until one succeeds, whatever came of the first |
| CacheRuns.FirstUpdateType | core/src/cache/cache_update_trait_impl.cpp:175-216 | over any run from the creation on without a success, a round is incremental iff there is a dump and the first type is incremental, or is incremental during the start only and the start is not over |
| CacheRuns.FailureCounter | core/src/cache/cache_update_trait_impl.cpp:355-365 | over any run the counter is the number of updates failed or skipped since the last success and MarkAsExpired was called once per moment it reached the limit |
| CacheRuns.ExpiresOncePerStreak | core/src/cache/cache_update_trait_impl.cpp:355-365 | since the last success the cache expired once iff at least N >= 1 updates failed, else not at all |
| CacheRuns.ForcedIffInvalidatedSince | core/src/cache/cache_update_trait_impl.cpp:398-404 | the force flag is up iff a full invalidation came after the last completed full update |
| CacheRuns.ForcedRoundIsFull | core/src/cache/cache_update_trait_impl.cpp:286-288 | a full invalidation makes the next round full as long as no full update completes in between |
| CacheRuns.InvalidationLost | core/src/cache/cache_update_trait_impl.cpp:400-402 | a full invalidation during a running full update is forgotten when that succeeds: a round before the next window is incremental |
| CacheRuns.RoundIsRun | core/src/cache/cache_update_trait_impl.cpp:316-342 | what DoPeriodicUpdate computes, skipped rounds included, is what its events do in a run |
| CacheHandshake.NoInvalidationLost | core/src/cache/cache_update_trait_impl.cpp:42-62 | in every interleaving, restarts and failed starts included, when nothing is in progress every call was followed by its own DoInvalidateAsync, by the exchange and the DoInvalidateAsync of a start, or by a reset, or the flag is still up for the next start |
| CacheHandshake.FirstStart | core/src/cache/cache_update_trait_impl.cpp:189-227 | calls before the reset cause nothing, calls between reset and exchange share exactly one DoInvalidateAsync, each call after the exchange adds exactly one |
| CacheHandshake.OwnCallFollowed | core/src/cache/cache_update_trait_impl.cpp:54-61 | a call that saw the start finished is followed by its own DoInvalidateAsync |
| CacheHandshake.CallSeesFlag | core/src/cache/cache_update_trait_impl.cpp:54-61 | a call makes its own DoInvalidateAsync iff a start has finished, and otherwise leaves the flag up |
| CacheHandshake.StartsMayRepeat | core/src/cache/cache_update_trait_impl.cpp:189-240 | a start may have no first update, or one that fails, be made again, and ends with the flag finished |
| SchemaOrder.Sorter.DoNode | chaotic/chaotic/front/ref_resolver.py:17-29 | sorts a node and what it reaches, or raises only on a cycle it can reach, reporting a path whose last node leads back into it |
| SchemaOrder.SortDfs | chaotic/chaotic/front/ref_resolver.py:12-34 | raises iff a cycle is reachable from the nodes; otherwise exactly the reachable nodes, once each, every target before its source; alphabetically sorted nodes that are in such an order are returned as they are |
| NameOrder.Sorted | chaotic/chaotic/front/ref_resolver.py:31-32 | the names in ascending order of strings, each once |
| NameOrder.AscendingUnique | chaotic/chaotic/front/ref_resolver.py:31-32 | there is only one such sequence |
| RefResolver.VisitsExactlyRefs | chaotic/chaotic/front/types.py:266-317 | the visitor is called on exactly the refs that end a path of children (items, additional properties, properties, parts, variants), marked as in an array iff their parent is one |
| RefResolver.WalkChain | chaotic/chaotic/front/ref_resolver.py:59-85 | ends on cyclic refs too; error iff a name on the chain is unknown, external iff one is not local, indirect iff one is marked so |
| RefResolver.TargetsOf | chaotic/chaotic/front/ref_resolver.py:52-114 | raises iff a ref inside the schema is rejected; otherwise the edges are exactly the targets of the forcing refs inside it |
| RefResolver.CollectEdges | chaotic/chaotic/front/ref_resolver.py:116-120 | the edges of all schemas form the graph of the forced order |
| RefResolver.SortSchemas | chaotic/chaotic/front/ref_resolver.py:38-127 | raises iff a ref anywhere inside a schema is rejected or the forced order is cyclic; otherwise exactly the input keys, once each, and the target of every local ref that is not marked indirect, wherever it is inside its holder and unless an array of the holder itself, comes before the holder; alphabetical where nothing is forced |
| RefResolver.EdgeIff | chaotic/chaotic/front/ref_resolver.py:100-113 | an edge is recorded iff such a ref is inside the schema |
| RefResolver.HopIff | chaotic/chaotic/front/ref_resolver.py:59-85 | a name leads on iff it stands for a ref, and then to its target |
| RefResolver.LocalShadowsExternal | chaotic/chaotic/front/ref_resolver.py:63-79 | a local schema decides where its name leads, an external one only where there is no local one |
| RefResolver.ExternalChainForcesNothing | chaotic/chaotic/front/ref_resolver.py:67-71 | where a local chain leaves the local schemas no edge is recorded |
| RefResolver.SortExternalChain | chaotic/chaotic/front/ref_resolver.py:109-111 | so a schema is returned before the local one it refers to if it comes first in the alphabet |

## Left out

- Logging, tracing, boot events, load-time printing and metrics: no effect on the properties.
- Task processors, signals, CPU limits and the phdr cache of `manager.cpp`: engine and operating system plumbing.
- Lifecycle: on values, as a state machine, because its claims are about interleavings; `ComponentInfo` objects and their locks appear as atomic steps. Cancelling the manager's own task, `AfterConstruction` and `BeforeDestruction` resource scopes and the graceful shutdown sleeps are not modelled.
- LifecycleTheorems.PassOrder: for the loaded pass with a failed handler it asks for a funnel graph, because the order is false otherwise; OrderExactlyForFunnels is the exact statement.
- PqInput: buffer compaction and growth, memory failures, the truncation of the command tag, error message texts and branches for other server header versions.
- PqWire.SteadyIff: result contents are the bytes read and the column count, not decoded columns.
- PqQuery.CollectsSession: no pipelines and no COPY, whose results do not come from READY; a PortalSuspended without a row before it, which a server does not send.
- PQXgetResult beyond handing out a READY result outside pipelines, the portal senders and the command queue helpers beyond advancing the queue: mostly calls into libpq.
- Baggage: entries hold their text, while the source keeps string views into the header; the moved-from object, HasEntry, GetEntry and the property lookups would only add easy members.
- CacheUpdate: reading and writing dumps beyond the time read and the type it asks for, a second start, the settings of periodic tasks, statistics and the choice whether a start runs a first update; 64-bit overflow of the failure counter.
- CacheRuns.FullUpdateWindow: for a configuration that stays the same during the run, as the jitter is drawn from the configuration of its moment.
- RefResolver: the resolved schema, indirect and self_ref marks written back into refs.
- Static configuration, YAML, JSON and OpenAPI models, code generation, samples and scripts: mapping code with easy claims.
