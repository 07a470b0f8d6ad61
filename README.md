# Event-sourcing micro-engine, modelled in Dafny

This project models the core of a small TypeScript event-sourcing library.
The core has three parts.

- **The Aggregate engine** (`EventSourcing` module, `event_sourcing.dfy`). An
  aggregate type is a registry of validators, executors and handlers. Each is
  kept as an ordered list of function values per type tag. `BuildState` folds
  events into a projection. `Execute` runs a batch of commands against a cached
  projection or an event history. The batch stops as a whole at the first
  command a validator rejects. Each event an executor produces gets the
  command's id and the next version of a shared counter, and is folded into the
  state straight away.
- **The ephemeral stores** (`EphemeralStorage` module, `ephemeral_storage.dfy`).
  `EventStore` is a map from aggregate id to an append-only log. Each event is
  appended only if its version is one more than the last stored version; a
  mismatch is a concurrency error. The check is made per event, so events
  appended earlier in the same call stay appended. `ReadModelStore` is a map
  from id to projection. It replaces an entry only when there is none yet or
  the stored version is smaller.
- **The sample Users domain** (`Users` module, `samples.dfy`). It registers two
  `CreateUser` validators (duplicate user; display name required), one
  executor that emits `UserCreated`, and one handler that builds a `User`.

Each imperative operation is a method proved against a pure function.
`BuildState` is proved against `Replay`, `Execute` against `ExecutionResult`,
`EventStore.AddEvents` against `Append`, and `ReadModelStore.Store` against
`Merge`. The lemmas then prove the engine's promises about those functions:
contiguous versions, fold composition, replay equivalence, short-circuit,
append-only logs and the monotonic merge.

The registry maps type tags to sequences of total functions. An unregistered
tag has the empty sequence, so it is a no-op. The context is the datatype
`Context`: either a `Projection` or a `History`. A null context faults at
src/EventSourcing.ts:70 in the source; the model has no null context, and
`History([])` is the empty history. The state is `Option<ReadModel<S>>`, because folding a
history with no handled event leaves it null. Commands, events and projections
are generic over the domain's own fields (`C`, `E`, `S`).

Two points where the intended contract and the code part ways:

- An atomic append would check the whole batch before writing any of it. The
  code of `addEventsAsync` is not atomic, and `StopsAtFirstMismatch` proves the
  partial append it performs.
- An empty log is evidently meant to count as version 0, but
  src/EphemeralStorage.ts:22 faults there (see Findings). The main model uses
  version 0, and `AppendAsWritten` models the code as written.

The sample aggregate `Users.UserAggregate` (src/Samples.ts:50-66) is a constant
registry: two validators for `CreateUser`, one executor for `CreateUser` and one
handler for `UserCreated`. The scenario lemmas below state what it does.

## Model

| member | source | states |
|---|---|---|
| `EventSourcing.BuildState` | src/EventSourcing.ts:111-120 | the returned state is `Replay` of the events from the given state: per event, every handler registered for its tag in order, each followed by overwriting the version with the event's |
| `EventSourcing.ReplayConcat` | src/EventSourcing.ts:111-120 | fold composition: folding `a + b` is folding `b` into the fold of `a`; folding no events returns the state unchanged |
| `EventSourcing.HandledEventSetsVersion` | src/EventSourcing.ts:113-116 | after folding an event whose tag has a handler, the state is present and its version is the event's version |
| `EventSourcing.DomainEvent` | src/EventSourcing.ts:129-135 | an event built from a tag and an id has that tag and id, version 0 and the given fields |
| `EventSourcing.UnhandledEventIsNoop` | src/EventSourcing.ts:113 | an event whose tag has no handlers (unregistered or registered with none) leaves the state unchanged |
| `EventSourcing.ReplayVersion` | src/EventSourcing.ts:112-117 | a folded projection's version is the version of the last event in the sequence that has a handler |
| `EventSourcing.UnhandledEventIgnoredInReplay` | src/EventSourcing.ts:112-113 | removing an event whose tag has no handlers (unregistered or registered with none) from anywhere in a history does not change the folded state |
| `EventSourcing.ValidateCommand` | src/EventSourcing.ts:79-85 | runs every validator of the command against the current state and returns exactly `Validate`: the non-null results in registration order |
| `EventSourcing.ValidateCollects` | src/EventSourcing.ts:79-85 | an error is among the collected failures if and only if some registered validator returned it (no validator is skipped) |
| `EventSourcing.ValidateEmptyIff` | src/EventSourcing.ts:79-85 | validation collects nothing if and only if every validator returns null |
| `EventSourcing.ValidateConcat` | src/EventSourcing.ts:79-85 | errors are reported in registration order: the validators of `a + b` report `a`'s errors followed by `b`'s |
| `EventSourcing.StampEvents` | src/EventSourcing.ts:94-98 | each produced event gets the command's id and the version counter pre-incremented once per event; the counter advances by the number of events |
| `EventSourcing.ExecuteCommand` | src/EventSourcing.ts:91-101 | runs every executor in order; after each, its stamped events are appended and folded into the state, as `RunExecutors` specifies |
| `EventSourcing.Execute` | src/EventSourcing.ts:67-109 | the result equals `ExecutionResult`: initial state from the projection or the folded history, version from that state or 0, commands in order with the whole-batch short-circuit, then `Failure` with the collected errors or `Success` with the events and final state |
| `EventSourcing.RunExecutorsEventIds` | src/EventSourcing.ts:91-101 | executors only append events (the earlier events are a prefix), every appended event carries the command's id, and the recorded failures are unchanged |
| `EventSourcing.RunExecutorsConsistent` | src/EventSourcing.ts:91-101 | executors keep a run consistent: counter = start + event count, event k has version start + k + 1, state = fold of the events into the start state |
| `EventSourcing.StepEventIds` | src/EventSourcing.ts:74-102 | processing one command only appends events, and those events carry that command's id |
| `EventSourcing.StepConsistent` | src/EventSourcing.ts:74-102 | processing one command (skipped, rejected or executed) keeps the run consistent |
| `EventSourcing.RunBatchConsistent` | src/EventSourcing.ts:73-102 | after any prefix of the batch, versions are contiguous from the start version and the state is the fold of the produced events |
| `EventSourcing.SuccessVersionsContiguous` | src/EventSourcing.ts:73-97 | on success the new events have versions v0+1, v0+2, ... in production order, where v0 is the initial state's version or 0 if there is none |
| `EventSourcing.ReplayEquivalence` | src/EventSourcing.ts:70-100 | on success the new state equals folding the new events into the initial state |
| `EventSourcing.HistoryReplayEquivalence` | src/EventSourcing.ts:70-108 | executing against a history: the new state equals folding the history followed by the new events from null |
| `EventSourcing.RunBatchEventIds` | src/EventSourcing.ts:74-102 | if every command of the batch has id X, every event the batch produces has id X |
| `EventSourcing.SingleAggregateEventIds` | src/EventSourcing.ts:95-97 | on success, a batch whose commands all have id X produces only events with id X |
| `EventSourcing.RunBatchConcat` | src/EventSourcing.ts:74-102 | running `a + b` is running `b` after `a` |
| `EventSourcing.FailedRunIsFinal` | src/EventSourcing.ts:75-77 | once a failure is recorded, the remaining commands are neither validated nor executed |
| `EventSourcing.FirstRejectionDecides` | src/EventSourcing.ts:74-105 | if the first rejected command is c, the result is `Failure` holding exactly c's validator errors in registration order, whatever commands follow |
| `EventSourcing.RunBatchFailsIff` | src/EventSourcing.ts:74-89 | a failure is recorded if and only if some command is reached with no earlier failure and is rejected by a validator |
| `EventSourcing.FailureIffRejected` | src/EventSourcing.ts:104-108 | the result is `Failure` if and only if some command of the batch is reached and some validator rejects it; otherwise it is `Success` |
| `EventSourcing.UnregisteredCommandIgnored` | src/EventSourcing.ts:79-91 | a command whose tag has no validators and no executors (unregistered or registered with none) can be removed from anywhere in the batch without changing the run |
| `EphemeralStorage.EventStore.constructor` | src/EphemeralStorage.ts:9-13 | a new event store is empty |
| `EphemeralStorage.EventStore.GetById` | src/EphemeralStorage.ts:15-17 | returns the stored log for the id, or the empty sequence when there is none |
| `EphemeralStorage.EventStore.AddEvents` | src/EphemeralStorage.ts:19-29 | the new store and the outcome are those of `Append`: events are checked and appended one at a time, stopping at the first mismatch; logs that were contiguous from version 1 stay so |
| `EphemeralStorage.AppendOne` | src/EphemeralStorage.ts:21-27 | an event is appended to its id's log if and only if its version is the last stored version + 1; otherwise the outcome is a concurrency error and the store is unchanged |
| `EphemeralStorage.AppendConcat` | src/EphemeralStorage.ts:20-28 | appending `a + b` is appending `a` and then, only if that succeeded, appending `b` to the result |
| `EphemeralStorage.AppendOnly` | src/EphemeralStorage.ts:21-27 | after any call, each id's old log is a prefix of its new log, and no id disappears |
| `EphemeralStorage.AppendUntouched` | src/EphemeralStorage.ts:21-27 | the log of an id that no event in the batch names is unchanged |
| `EphemeralStorage.AppendContiguousBatch` | src/EphemeralStorage.ts:20-28 | a batch for one id carrying versions last+1, last+2, ... is appended whole and in order, each check seeing the events already appended by this call |
| `EphemeralStorage.StopsAtFirstMismatch` | src/EphemeralStorage.ts:20-23 | non-atomic: when event k mismatches after events 0..k-1 were appended, those stay appended and events after k are not attempted |
| `EphemeralStorage.AppendKeepsContiguous` | src/EphemeralStorage.ts:20-28 | if every log holds its own id's events with versions 1, 2, ..., it still does after any call |
| `EphemeralStorage.SecondWriterConflicts` | src/EphemeralStorage.ts:21-27 | of two writers appending the same next version for one id, the second gets a concurrency error, and the log keeps only the first writer's event |
| `EphemeralStorage.AsWrittenFirstAppendFaults` | src/EphemeralStorage.ts:21-22 | in any store, as written, appending the first event (version 1) for an id with no log faults and leaves the store unchanged; with an empty log read as version 0 it is appended as that id's whole log |
| `EphemeralStorage.AsWrittenAgreesOnNonEmptyLogs` | src/EphemeralStorage.ts:20-28 | when every log the batch names is non-empty, the code as written and the corrected append behave identically |
| `EphemeralStorage.ReadModelStore.constructor` | src/EphemeralStorage.ts:34-38 | a new read model store is empty |
| `EphemeralStorage.ReadModelStore.GetById` | src/EphemeralStorage.ts:40-42 | returns the stored projection for the id, or none |
| `EphemeralStorage.ReadModelStore.Store` | src/EphemeralStorage.ts:44-53 | the new store is `Merge` of the old store and the item |
| `EphemeralStorage.MergeNoneIsNoop` | src/EphemeralStorage.ts:45-47 | storing an absent item changes nothing |
| `EphemeralStorage.MergeReplacesIff` | src/EphemeralStorage.ts:49-52 | the item ends up stored at its id if and only if there was none, the stored version was smaller, or the stored item was already this one; storing a version less than or equal to the stored one changes nothing |
| `EphemeralStorage.MergeMonotonic` | src/EphemeralStorage.ts:49-52 | no id is dropped and the stored version of each id never decreases |
| `EphemeralStorage.MergeIdempotent` | src/EphemeralStorage.ts:49-52 | storing the same item a second time changes nothing |
| `EphemeralStorage.MergeOtherIds` | src/EphemeralStorage.ts:49-52 | entries of other ids are untouched |
| `EphemeralStorage.MergeCommutes` | src/EphemeralStorage.ts:49-52 | two projections that differ in id or version leave the same store whichever is stored first |
| `Users.UserAlreadyExists` | src/Samples.ts:7-13 | the rejection has tag "UserAlreadyExists", carries the command, and has the default message "This cannot be created as it already exists" |
| `Users.DisplayNameRequired` | src/Samples.ts:15-21 | the rejection has tag "DisplayNameRequired", carries the command, and has the default message "Please provide a display name for this user" |
| `Users.CreateUser` | src/Samples.ts:23-27 | the command has tag "CreateUser", the given id, password and display name, and no expected version |
| `Users.User` | src/Samples.ts:39-48 | the projection has tag "User" and the id and version of the event it is built from |
| `Users.UserCreated` | src/Samples.ts:29-37 | a UserCreated event has tag "UserCreated", the command's id, version 0, password hash = password + salt, and the salt |
| `Users.TrimStart` | src/Samples.ts:54 | the result is a suffix of the input, everything dropped is white space, and it does not start with white space |
| `Users.TrimEnd` | src/Samples.ts:54 | the result is a prefix of the input, everything dropped is white space, and it does not end with white space |
| `Users.TrimBlankIff` | src/Samples.ts:54 | a string trims to length 0 if and only if all of its characters are white space |
| `Users.RejectDuplicate` | src/Samples.ts:53 | returns `UserAlreadyExists` for the command if and only if the current state is non-null |
| `Users.RequireDisplayName` | src/Samples.ts:54 | returns `DisplayNameRequired` for the command if and only if the display name is absent or all white space |
| `Users.EmitUserCreated` | src/Samples.ts:59 | emits exactly one `UserCreated` event for the command, whose password hash is the password followed by "somesalt" |
| `Users.ApplyUserCreated` | src/Samples.ts:39-47 | builds a projection with tag "User" and the event's id and version |
| `Users.ValidateCreateUser` | src/Samples.ts:52-55 | a CreateUser collects `UserAlreadyExists` when the state is non-null and then `DisplayNameRequired` when the name is blank, in that order |
| `Users.ExecuteCreateUser` | src/Samples.ts:57-66 | executing an accepted CreateUser appends one UserCreated with the next version and the command's id, and the state becomes the User for it |
| `Users.CreateScenario` | src/Samples.ts:50-66 | a CreateUser with a non-blank name, executed against an empty history, gives `Success` with one version-1 event and the state `User{id, version 1}` |
| `Users.DuplicateScenario` | src/Samples.ts:53 | re-executing the same CreateUser against that User projection gives `Failure` with exactly one `UserAlreadyExists` |
| `Users.DuplicateFromHistoryScenario` | src/Samples.ts:50-66 | re-executing it against the stored history of that one event gives the same `Failure` |
| `Users.BothValidatorsFire` | src/Samples.ts:52-55 | on an existing user with an absent or blank display name, `Failure.invalid` is `[UserAlreadyExists, DisplayNameRequired]`, in that order |

## Left out

- Asynchrony: `getByIdAsync`, `addEventsAsync` and `storeAsync` have no real suspension points. They are synchronous methods here (`GetById`, `AddEvents`, `Store`).
- Interleavings of concurrent callers: they are not modelled. `SecondWriterConflicts` states the two-writer race as two calls, one after the other.
- Shared stores: the global `allStores` table and its environment/domain/revision keys (src/EphemeralStorage.ts:3-4, 9-13, 34-38) are not modelled. Each store object owns its map, and the constructors take no namespace arguments.
- Exceptions: the thrown "Concurrency error!" is the `ConcurrencyError` outcome returned by `AddEvents`.
- Copying fields by reflection: `DomainEvent.mapCommonProperties` (src/EventSourcing.ts:141-147) is replaced by explicit constructors (`DomainEvent`, `Users.UserCreated`) with the version-0 default. The copy only writes properties the event object already owns when it runs; a declared but unassigned field such as `id` or `displayName` is not yet one, so the copy writes nothing. `Users.UserCreated` setting the command's id is the explicit mapping that stands in for it, not what the copy yields; in the engine the id comes from the stamp at src/EventSourcing.ts:95 either way.
- `UserCreated`'s display name: it is modelled as absent, since the copy above never writes it.
- Mutation and aliasing: the source overwrites `id` and `$version` on the event objects an executor returns, and `$version` on the object a handler returns. The model builds new values. Aliasing is not captured: for example, a handler that returned the context's own projection object would have it changed under the caller. `GetById` returning the store's own array is not captured either.
- Runtime shape checks: the `typeof context["$type"]` check is replaced by the `Context` datatype. A null context, which faults at src/EventSourcing.ts:70 in the source, has no counterpart.
- Inherited keys: the source looks tags and ids up on plain objects (`this.validators[command.$type]`, `this.executors[...]` and `this.handlers[...]` at src/EventSourcing.ts:79, 91 and 113; `this.store[ev.id]` at src/EphemeralStorage.ts:21; `this.store[item.id]` at src/EphemeralStorage.ts:49), and such objects inherit keys like "constructor" or "toString". With such a key the source faults at `.forEach` or at `evts[evts.length-1].$version`, or `storeAsync` never stores the item. The model's maps have no inherited keys: such a tag or id is simply unregistered or absent.
- Handler and executor results: handlers must return a projection, and executors a sequence of events. In the source a null handler result faults at src/EventSourcing.ts:115, and an executor that returns null or undefined, or an array with a null entry, faults at `newEvents.forEach` or `newEvent.id = …` (src/EventSourcing.ts:94-95). The model's `Handler` and `Executor` types cannot produce those values.
- Falsy values: only an absent item is skipped by `storeAsync`'s `!item` check. For the display name, only absent and the empty string are treated as ''.
- Numbers: versions are unbounded integers, not JavaScript floating-point numbers.
- Commands' optional `$version`: it is carried as `expectedVersion` and, as in the source, never read.
- Unused code: `pushAll` and the `Aggregator` type are not modelled. The optional `message` argument of the `UserAlreadyExists` and `DisplayNameRequired` constructors (src/Samples.ts:11, 19) is not modelled either: the sample never passes one, so `Users.UserAlreadyExists` and `Users.DisplayNameRequired` always carry the default message.
- The test harness: `TestCreaate` and its console output (src/Samples.ts:70-90) are not modelled. The create-then-duplicate scenarios cover its logic.
- `Lookup`, `ValidatorsFor`, `ExecutorsFor`, `HandlersFor`, `ApplyEvent`, `InitialState`, `StartVersion`, `Start`, `LogOf`, `LastVersion`, `Users.IsWhitespace`, `Users.Trim`, `Users.DisplayNameOrEmpty`, `ApplyHandlers`, `Replay`, `Validate`, `Stamp`, `ExecStep`, `RunExecutors`, `Step`, `RunBatch`, `ExecutionResult`, `Append`, `AppendAsWritten` and `Merge` are specification functions. Their meaning is stated by the lemmas and methods listed above. `ValidatorsFor`, `ExecutorsFor` and `HandlersFor` are the `|| []` lookups at src/EventSourcing.ts:79, 91 and 113; `ApplyEvent` is the handler loop of lines 113-116 for one event; `Start` is the context dispatch of lines 68-73; `Users.Trim` and `Users.DisplayNameOrEmpty` are `(create.displayName || '').trim()` at src/Samples.ts:54. "White space" in the trimming rows means `Users.IsWhitespace`: the full ECMAScript WhiteSpace and LineTerminator set that `String.prototype.trim` strips.

## Findings

| source | as written | input that shows it | evidently intended | confidence | as-written member | corrected member |
|---|---|---|---|---|---|---|
| src/EphemeralStorage.ts:21-22 | the version check reads `evts[evts.length - 1].$version` even when the id has no stored events, which dereferences `undefined` and throws a TypeError | an empty store and one event with version 1 (the first `addEventsAsync` of the sample harness) | an empty log counts as version 0, so the first event, with version 1, is appended | high; not executed | `EphemeralStorage.AsWrittenFirstAppendFaults` (about `AppendAsWritten`) | `EphemeralStorage.AppendContiguousBatch` (about `Append`, which `EventStore.AddEvents` uses) |
