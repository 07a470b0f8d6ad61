/**
 * The event-sourcing engine: the data shapes shared by every domain, the
 * Aggregate registry of validators, executors and handlers keyed by type tag,
 * and the two operations of an Aggregate, BuildState (the fold of events into
 * a projection) and Execute (validate and run a batch of commands).
 *
 * Each imperative operation is proved against a pure specification function
 * (BuildState against Replay, Execute against ExecutionResult), and the
 * properties the engine promises are proved as lemmas about those functions.
 */
module EventSourcing {

  datatype Option<T> = None | Some(value: T)

  /** A projection: type tag, aggregate id, version, and the domain's own fields. */
  datatype ReadModel<S> = ReadModel(tag: string, id: string, version: int, fields: S)

  /** An event: type tag, aggregate id, version, and the domain's own fields. */
  datatype Event<E> = Event(tag: string, id: string, version: int, fields: E)

  /** A command: type tag, aggregate id, an optional expected version, and its fields. */
  datatype Command<C> = Command(tag: string, id: string, expectedVersion: Option<int>, fields: C)

  /** A business-rule rejection of a command. */
  datatype InvalidCommand<C> = InvalidCommand(tag: string, command: Command<C>, message: string)

  datatype SuccessOrFailure<C, E, S> =
    | Success(newEvents: seq<Event<E>>, newState: Option<ReadModel<S>>)
    | Failure(invalid: seq<InvalidCommand<C>>)

  /** What a command is executed against: a cached projection or an event history. */
  datatype Context<E, S> = Projection(model: ReadModel<S>) | History(events: seq<Event<E>>)

  /** A validator answers None when it accepts the command. */
  type Validator<!C, !S> = (Option<ReadModel<S>>, Command<C>) -> Option<InvalidCommand<C>>
  type Executor<!C, E, !S> = (Option<ReadModel<S>>, Command<C>) -> seq<Event<E>>
  type Handler<!E, !S> = (Option<ReadModel<S>>, Event<E>) -> ReadModel<S>

  /** The registry of one aggregate type: ordered lists of functions per type tag. */
  datatype Aggregate<!C, !E, !S> = Aggregate(
    validators: map<string, seq<Validator<C, S>>>,
    executors: map<string, seq<Executor<C, E, S>>>,
    handlers: map<string, seq<Handler<E, S>>>)

  /** A type tag that is not registered has the empty list. */
  function Lookup<T>(m: map<string, seq<T>>, tag: string): seq<T>
  {
    if tag in m then m[tag] else []
  }

  function ValidatorsFor<C, E, S>(agg: Aggregate<C, E, S>, tag: string): seq<Validator<C, S>>
  {
    Lookup(agg.validators, tag)
  }

  function ExecutorsFor<C, E, S>(agg: Aggregate<C, E, S>, tag: string): seq<Executor<C, E, S>>
  {
    Lookup(agg.executors, tag)
  }

  function HandlersFor<C, E, S>(agg: Aggregate<C, E, S>, tag: string): seq<Handler<E, S>>
  {
    Lookup(agg.handlers, tag)
  }

  /** A new event before the engine stamps it: version 0. */
  function DomainEvent<E>(tag: string, id: string, fields: E): (e: Event<E>)
    ensures e.tag == tag && e.id == id && e.version == 0 && e.fields == fields
  {
    Event(tag, id, 0, fields)
  }

  // ---------------------------------------------------------------------------
  // Folding events into a projection

  /** Applies the handlers in registration order, overwriting the version after each. */
  function ApplyHandlers<E, S>(hs: seq<Handler<E, S>>, s: Option<ReadModel<S>>, e: Event<E>): Option<ReadModel<S>>
  {
    if |hs| == 0 then s
    else
      var prev := ApplyHandlers(hs[..|hs| - 1], s, e);
      Some(hs[|hs| - 1](prev, e).(version := e.version))
  }

  function ApplyEvent<C, E, S>(agg: Aggregate<C, E, S>, s: Option<ReadModel<S>>, e: Event<E>): Option<ReadModel<S>>
  {
    ApplyHandlers(HandlersFor(agg, e.tag), s, e)
  }

  /** The left fold of a sequence of events into a state. */
  function Replay<C, E, S>(agg: Aggregate<C, E, S>, s: Option<ReadModel<S>>, es: seq<Event<E>>): Option<ReadModel<S>>
  {
    if |es| == 0 then s else ApplyEvent(agg, Replay(agg, s, es[..|es| - 1]), es[|es| - 1])
  }

  method BuildState<C, E, S>(agg: Aggregate<C, E, S>, state: Option<ReadModel<S>>, events: seq<Event<E>>)
    returns (current: Option<ReadModel<S>>)
    ensures current == Replay(agg, state, events)
  {
    current := state;
    for i := 0 to |events|
      invariant current == Replay(agg, state, events[..i])
    {
      var event := events[i];
      var handlers := HandlersFor(agg, event.tag);
      ghost var before := current;
      for j := 0 to |handlers|
        invariant current == ApplyHandlers(handlers[..j], before, event)
      {
        var next := handlers[j](current, event);
        current := Some(next.(version := event.version));
        assert handlers[..j + 1][..j] == handlers[..j];
      }
      assert handlers[..|handlers|] == handlers;
      assert events[..i + 1][..i] == events[..i];
    }
    assert events[..|events|] == events;
  }

  lemma {:induction false} ReplayConcat<C, E, S>(agg: Aggregate<C, E, S>, s: Option<ReadModel<S>>, a: seq<Event<E>>, b: seq<Event<E>>)
    ensures Replay(agg, s, a + b) == Replay(agg, Replay(agg, s, a), b)
    ensures Replay(agg, s, []) == s
    decreases |b|
  {
    if |b| == 0 {
      assert a + b == a;
    } else {
      var b' := b[..|b| - 1];
      assert (a + b)[..|a + b| - 1] == a + b';
      ReplayConcat(agg, s, a, b');
    }
  }

  lemma HandledEventSetsVersion<C, E, S>(agg: Aggregate<C, E, S>, s: Option<ReadModel<S>>, e: Event<E>)
    requires HandlersFor(agg, e.tag) != []
    ensures ApplyEvent(agg, s, e).Some? && ApplyEvent(agg, s, e).value.version == e.version
  {
  }

  lemma UnhandledEventIsNoop<C, E, S>(agg: Aggregate<C, E, S>, s: Option<ReadModel<S>>, e: Event<E>)
    requires HandlersFor(agg, e.tag) == []
    ensures ApplyEvent(agg, s, e) == s
  {
  }

  /**
   * A projection's version is the version of the last event folded into it
   * that has a handler.
   */
  lemma {:induction false} ReplayVersion<C, E, S>(agg: Aggregate<C, E, S>, s: Option<ReadModel<S>>, es: seq<Event<E>>, k: int)
    requires 0 <= k < |es|
    requires HandlersFor(agg, es[k].tag) != []
    requires forall j :: k < j < |es| ==> HandlersFor(agg, es[j].tag) == []
    ensures Replay(agg, s, es).Some? && Replay(agg, s, es).value.version == es[k].version
    decreases |es|
  {
    var es' := es[..|es| - 1];
    if k == |es| - 1 {
      HandledEventSetsVersion(agg, Replay(agg, s, es'), es[k]);
    } else {
      ReplayVersion(agg, s, es', k);
    }
  }

  /** Folding an event with no handler anywhere in a history changes nothing. */
  lemma UnhandledEventIgnoredInReplay<C, E, S>(agg: Aggregate<C, E, S>, s: Option<ReadModel<S>>, a: seq<Event<E>>, e: Event<E>, b: seq<Event<E>>)
    requires HandlersFor(agg, e.tag) == []
    ensures Replay(agg, s, a + [e] + b) == Replay(agg, s, a + b)
  {
    ReplayConcat(agg, s, a + [e], b);
    ReplayConcat(agg, s, a, [e]);
    assert [e][..0] == [];
    ReplayConcat(agg, s, a, b);
  }

  // ---------------------------------------------------------------------------
  // Validation

  /** The results of all validators that reject, in registration order. */
  function Validate<C, S>(vs: seq<Validator<C, S>>, s: Option<ReadModel<S>>, c: Command<C>): seq<InvalidCommand<C>>
  {
    if |vs| == 0 then []
    else
      Validate(vs[..|vs| - 1], s, c) +
        match vs[|vs| - 1](s, c)
        case Some(x) => [x]
        case None => []
  }

  /** Every validator runs: an error is reported exactly when some validator returns it. */
  lemma {:induction false} ValidateCollects<C, S>(vs: seq<Validator<C, S>>, s: Option<ReadModel<S>>, c: Command<C>, x: InvalidCommand<C>)
    ensures x in Validate(vs, s, c) <==> exists i :: 0 <= i < |vs| && vs[i](s, c) == Some(x)
    decreases |vs|
  {
    if |vs| > 0 {
      var vs' := vs[..|vs| - 1];
      ValidateCollects(vs', s, c, x);
      assert forall i :: 0 <= i < |vs'| ==> vs'[i] == vs[i];
      if vs[|vs| - 1](s, c) == Some(x) {
        assert x in Validate(vs, s, c);
      }
    }
  }

  /** The outcome of validation is empty exactly when no validator rejects. */
  lemma {:induction false} ValidateEmptyIff<C, S>(vs: seq<Validator<C, S>>, s: Option<ReadModel<S>>, c: Command<C>)
    ensures Validate(vs, s, c) == [] <==> forall i :: 0 <= i < |vs| ==> vs[i](s, c).None?
    decreases |vs|
  {
    if |vs| > 0 {
      var vs' := vs[..|vs| - 1];
      ValidateEmptyIff(vs', s, c);
      assert forall i :: 0 <= i < |vs'| ==> vs'[i] == vs[i];
    }
  }

  /** Results of validators registered later come after those registered earlier. */
  lemma {:induction false} ValidateConcat<C, S>(a: seq<Validator<C, S>>, b: seq<Validator<C, S>>, s: Option<ReadModel<S>>, c: Command<C>)
    ensures Validate(a + b, s, c) == Validate(a, s, c) + Validate(b, s, c)
    decreases |b|
  {
    if |b| == 0 {
      assert a + b == a;
    } else {
      var b' := b[..|b| - 1];
      assert (a + b)[..|a + b| - 1] == a + b';
      ValidateConcat(a, b', s, c);
    }
  }

  // ---------------------------------------------------------------------------
  // Executing a batch of commands

  /** The state of Execute between two steps. */
  datatype Run<C, E, S> = Run(
    events: seq<Event<E>>,
    failures: seq<InvalidCommand<C>>,
    state: Option<ReadModel<S>>,
    version: int)

  /** Stamps produced events with the command's id and the next versions after v. */
  function Stamp<E>(es: seq<Event<E>>, id: string, v: int): (r: seq<Event<E>>)
  {
    seq(|es|, k requires 0 <= k < |es| => es[k].(id := id, version := v + k + 1))
  }

  /** One executor: its events are stamped, recorded and folded into the state at once. */
  function ExecStep<C, E, S>(agg: Aggregate<C, E, S>, x: Executor<C, E, S>, r: Run<C, E, S>, c: Command<C>): Run<C, E, S>
  {
    var stamped := Stamp(x(r.state, c), c.id, r.version);
    Run(r.events + stamped, r.failures, Replay(agg, r.state, stamped), r.version + |stamped|)
  }

  function RunExecutors<C, E, S>(agg: Aggregate<C, E, S>, xs: seq<Executor<C, E, S>>, r: Run<C, E, S>, c: Command<C>): Run<C, E, S>
  {
    if |xs| == 0 then r else ExecStep(agg, xs[|xs| - 1], RunExecutors(agg, xs[..|xs| - 1], r, c), c)
  }

  /** One command: skipped after a failure, rejected by its validators, or executed. */
  function Step<C, E, S>(agg: Aggregate<C, E, S>, r: Run<C, E, S>, c: Command<C>): Run<C, E, S>
  {
    if r.failures != [] then r
    else
      var invalid := Validate(ValidatorsFor(agg, c.tag), r.state, c);
      if invalid != [] then r.(failures := invalid)
      else RunExecutors(agg, ExecutorsFor(agg, c.tag), r, c)
  }

  function RunBatch<C, E, S>(agg: Aggregate<C, E, S>, r: Run<C, E, S>, cs: seq<Command<C>>): Run<C, E, S>
  {
    if |cs| == 0 then r else Step(agg, RunBatch(agg, r, cs[..|cs| - 1]), cs[|cs| - 1])
  }

  function InitialState<C, E, S>(agg: Aggregate<C, E, S>, ctx: Context<E, S>): Option<ReadModel<S>>
  {
    match ctx
    case Projection(m) => Some(m)
    case History(es) => Replay(agg, None, es)
  }

  function StartVersion<S>(s: Option<ReadModel<S>>): int
  {
    if s.Some? then s.value.version else 0
  }

  function Start<C, E, S>(agg: Aggregate<C, E, S>, ctx: Context<E, S>): Run<C, E, S>
  {
    var s := InitialState(agg, ctx);
    Run([], [], s, StartVersion(s))
  }

  function ExecutionResult<C, E, S>(agg: Aggregate<C, E, S>, ctx: Context<E, S>, cs: seq<Command<C>>): SuccessOrFailure<C, E, S>
  {
    var r := RunBatch(agg, Start(agg, ctx), cs);
    if r.failures != [] then Failure(r.failures) else Success(r.events, r.state)
  }

  /** Runs every validator of a command; none is skipped after a rejection. */
  method ValidateCommand<C, S>(validators: seq<Validator<C, S>>, state: Option<ReadModel<S>>, command: Command<C>)
    returns (failure: seq<InvalidCommand<C>>)
    ensures failure == Validate(validators, state, command)
  {
    failure := [];
    for j := 0 to |validators|
      invariant failure == Validate(validators[..j], state, command)
    {
      var invalid := validators[j](state, command);
      if invalid.Some? {
        failure := failure + [invalid.value];
      }
      assert validators[..j + 1][..j] == validators[..j];
    }
    assert validators[..|validators|] == validators;
  }

  /** Gives each produced event the command's id and the next version of the shared counter. */
  method StampEvents<E>(newEvents: seq<Event<E>>, id: string, version: int)
    returns (stamped: seq<Event<E>>, next: int)
    ensures stamped == Stamp(newEvents, id, version)
    ensures next == version + |newEvents|
  {
    stamped := [];
    next := version;
    for k := 0 to |newEvents|
      invariant next == version + k
      invariant stamped == Stamp(newEvents[..k], id, version)
    {
      next := next + 1;
      stamped := stamped + [newEvents[k].(id := id, version := next)];
    }
    assert newEvents[..|newEvents|] == newEvents;
  }

  /** Runs every executor of an accepted command, folding its events in after each one. */
  method ExecuteCommand<C, E, S>(agg: Aggregate<C, E, S>, executors: seq<Executor<C, E, S>>, command: Command<C>,
                                 events: seq<Event<E>>, state: Option<ReadModel<S>>, version: int)
    returns (events': seq<Event<E>>, state': Option<ReadModel<S>>, version': int)
    ensures Run(events', [], state', version') == RunExecutors(agg, executors, Run(events, [], state, version), command)
  {
    events', state', version' := events, state, version;
    for j := 0 to |executors|
      invariant Run(events', [], state', version') == RunExecutors(agg, executors[..j], Run(events, [], state, version), command)
    {
      var newEvents := executors[j](state', command);
      var stamped;
      stamped, version' := StampEvents(newEvents, command.id, version');
      events' := events' + stamped;
      state' := BuildState(agg, state', stamped);
      assert executors[..j + 1][..j] == executors[..j];
    }
    assert executors[..|executors|] == executors;
  }

  method Execute<C, E, S>(agg: Aggregate<C, E, S>, context: Context<E, S>, commands: seq<Command<C>>)
    returns (result: SuccessOrFailure<C, E, S>)
    ensures result == ExecutionResult(agg, context, commands)
  {
    var success: seq<Event<E>> := [];
    var failure: seq<InvalidCommand<C>> := [];
    var currentState: Option<ReadModel<S>>;
    match context {
      case Projection(m) =>
        currentState := Some(m);
      case History(es) =>
        currentState := BuildState(agg, None, es);
    }
    var version := if currentState.Some? then currentState.value.version else 0;
    ghost var r0 := Run(success, failure, currentState, version);
    assert r0 == Start(agg, context);
    for i := 0 to |commands|
      invariant Run(success, failure, currentState, version) == RunBatch(agg, r0, commands[..i])
    {
      var command := commands[i];
      assert commands[..i + 1][..i] == commands[..i];
      if |failure| == 0 {
        failure := ValidateCommand(ValidatorsFor(agg, command.tag), currentState, command);
        if |failure| == 0 {
          success, currentState, version :=
            ExecuteCommand(agg, ExecutorsFor(agg, command.tag), command, success, currentState, version);
        }
      }
    }
    assert commands[..|commands|] == commands;
    if |failure| != 0 {
      return Failure(failure);
    }
    return Success(success, currentState);
  }

  // ---------------------------------------------------------------------------
  // Properties of a batch

  /** A run consistent with a start state s0 and start version v0. */
  ghost predicate Consistent<C, E, S>(agg: Aggregate<C, E, S>, s0: Option<ReadModel<S>>, v0: int, r: Run<C, E, S>)
  {
    && r.version == v0 + |r.events|
    && (forall k :: 0 <= k < |r.events| ==> r.events[k].version == v0 + k + 1)
    && r.state == Replay(agg, s0, r.events)
  }

  /** Executors only append events, and every appended event carries the command's id. */
  lemma {:induction false} RunExecutorsEventIds<C, E, S>(agg: Aggregate<C, E, S>, xs: seq<Executor<C, E, S>>, r: Run<C, E, S>, c: Command<C>)
    ensures var r' := RunExecutors(agg, xs, r, c);
      && r'.failures == r.failures
      && |r.events| <= |r'.events| && r'.events[..|r.events|] == r.events
      && (forall k :: |r.events| <= k < |r'.events| ==> r'.events[k].id == c.id)
    decreases |xs|
  {
    if |xs| > 0 {
      var xs' := xs[..|xs| - 1];
      RunExecutorsEventIds(agg, xs', r, c);
      var p := RunExecutors(agg, xs', r, c);
      var stamped := Stamp(xs[|xs| - 1](p.state, c), c.id, p.version);
      var r' := RunExecutors(agg, xs, r, c);
      assert r'.events == p.events + stamped;
      assert r'.events[..|p.events|] == p.events;
      assert r'.events[..|r.events|] == p.events[..|r.events|];
      forall k | |r.events| <= k < |r'.events| ensures r'.events[k].id == c.id {
        if k >= |p.events| {
          assert r'.events[k] == stamped[k - |p.events|];
        } else {
          assert r'.events[k] == p.events[k];
        }
      }
    }
  }

  /** Executors keep a run consistent: contiguous versions, and the state is the fold of the events. */
  lemma {:induction false} RunExecutorsConsistent<C, E, S>(agg: Aggregate<C, E, S>, xs: seq<Executor<C, E, S>>, r: Run<C, E, S>, c: Command<C>, s0: Option<ReadModel<S>>, v0: int)
    requires Consistent(agg, s0, v0, r)
    ensures Consistent(agg, s0, v0, RunExecutors(agg, xs, r, c))
    decreases |xs|
  {
    if |xs| > 0 {
      var xs' := xs[..|xs| - 1];
      RunExecutorsConsistent(agg, xs', r, c, s0, v0);
      var p := RunExecutors(agg, xs', r, c);
      var stamped := Stamp(xs[|xs| - 1](p.state, c), c.id, p.version);
      var r' := RunExecutors(agg, xs, r, c);
      assert r'.events == p.events + stamped;
      ReplayConcat(agg, s0, p.events, stamped);
      forall k | 0 <= k < |r'.events| ensures r'.events[k].version == v0 + k + 1 {
        if k >= |p.events| {
          assert r'.events[k] == stamped[k - |p.events|];
        } else {
          assert r'.events[k] == p.events[k];
        }
      }
    }
  }

  /** Every new event carries the id of the command whose executor produced it. */
  lemma StepEventIds<C, E, S>(agg: Aggregate<C, E, S>, r: Run<C, E, S>, c: Command<C>)
    ensures var r' := Step(agg, r, c);
      && |r.events| <= |r'.events| && r'.events[..|r.events|] == r.events
      && forall k :: |r.events| <= k < |r'.events| ==> r'.events[k].id == c.id
  {
    if r.failures == [] && Validate(ValidatorsFor(agg, c.tag), r.state, c) == [] {
      RunExecutorsEventIds(agg, ExecutorsFor(agg, c.tag), r, c);
    }
  }

  lemma StepConsistent<C, E, S>(agg: Aggregate<C, E, S>, r: Run<C, E, S>, c: Command<C>, s0: Option<ReadModel<S>>, v0: int)
    requires Consistent(agg, s0, v0, r)
    ensures Consistent(agg, s0, v0, Step(agg, r, c))
  {
    if r.failures == [] && Validate(ValidatorsFor(agg, c.tag), r.state, c) == [] {
      RunExecutorsConsistent(agg, ExecutorsFor(agg, c.tag), r, c, s0, v0);
    }
  }

  lemma {:induction false} RunBatchConsistent<C, E, S>(agg: Aggregate<C, E, S>, s0: Option<ReadModel<S>>, v0: int, cs: seq<Command<C>>)
    ensures Consistent(agg, s0, v0, RunBatch(agg, Run([], [], s0, v0), cs))
    decreases |cs|
  {
    if |cs| > 0 {
      RunBatchConsistent(agg, s0, v0, cs[..|cs| - 1]);
      StepConsistent(agg, RunBatch(agg, Run([], [], s0, v0), cs[..|cs| - 1]), cs[|cs| - 1], s0, v0);
    }
  }

  /** On success the new events carry the versions v0+1, v0+2, ... in production order. */
  lemma SuccessVersionsContiguous<C, E, S>(agg: Aggregate<C, E, S>, ctx: Context<E, S>, cs: seq<Command<C>>)
    requires ExecutionResult(agg, ctx, cs).Success?
    ensures var evs := ExecutionResult(agg, ctx, cs).newEvents;
      forall k :: 0 <= k < |evs| ==> evs[k].version == StartVersion(InitialState(agg, ctx)) + k + 1
  {
    var s0 := InitialState(agg, ctx);
    RunBatchConsistent(agg, s0, StartVersion(s0), cs);
  }

  /** On success the new state is the fold of the new events into the initial state. */
  lemma ReplayEquivalence<C, E, S>(agg: Aggregate<C, E, S>, ctx: Context<E, S>, cs: seq<Command<C>>)
    requires ExecutionResult(agg, ctx, cs).Success?
    ensures var res := ExecutionResult(agg, ctx, cs);
      res.newState == Replay(agg, InitialState(agg, ctx), res.newEvents)
  {
    var s0 := InitialState(agg, ctx);
    RunBatchConsistent(agg, s0, StartVersion(s0), cs);
  }

  /** Executing against a history and replaying the whole stored log from nothing agree. */
  lemma HistoryReplayEquivalence<C, E, S>(agg: Aggregate<C, E, S>, h: seq<Event<E>>, cs: seq<Command<C>>)
    requires ExecutionResult(agg, History(h), cs).Success?
    ensures var res := ExecutionResult(agg, History(h), cs);
      res.newState == Replay(agg, None, h + res.newEvents)
  {
    ReplayEquivalence(agg, History(h), cs);
    ReplayConcat(agg, None, h, ExecutionResult(agg, History(h), cs).newEvents);
  }

  lemma {:induction false} RunBatchEventIds<C, E, S>(agg: Aggregate<C, E, S>, r: Run<C, E, S>, cs: seq<Command<C>>, id: string)
    requires forall j :: 0 <= j < |cs| ==> cs[j].id == id
    requires forall k :: 0 <= k < |r.events| ==> r.events[k].id == id
    ensures forall k :: 0 <= k < |RunBatch(agg, r, cs).events| ==> RunBatch(agg, r, cs).events[k].id == id
    decreases |cs|
  {
    if |cs| > 0 {
      var p := RunBatch(agg, r, cs[..|cs| - 1]);
      RunBatchEventIds(agg, r, cs[..|cs| - 1], id);
      StepEventIds(agg, p, cs[|cs| - 1]);
      var r' := Step(agg, p, cs[|cs| - 1]);
      forall k | 0 <= k < |r'.events| ensures r'.events[k].id == id {
        if k < |p.events| {
          assert r'.events[k] == r'.events[..|p.events|][k];
        }
      }
    }
  }

  /** A batch addressed to one aggregate id produces events for that id only. */
  lemma SingleAggregateEventIds<C, E, S>(agg: Aggregate<C, E, S>, ctx: Context<E, S>, cs: seq<Command<C>>, id: string)
    requires forall j :: 0 <= j < |cs| ==> cs[j].id == id
    requires ExecutionResult(agg, ctx, cs).Success?
    ensures forall e :: e in ExecutionResult(agg, ctx, cs).newEvents ==> e.id == id
  {
    RunBatchEventIds(agg, Start(agg, ctx), cs, id);
  }

  lemma {:induction false} RunBatchConcat<C, E, S>(agg: Aggregate<C, E, S>, r: Run<C, E, S>, a: seq<Command<C>>, b: seq<Command<C>>)
    ensures RunBatch(agg, r, a + b) == RunBatch(agg, RunBatch(agg, r, a), b)
    decreases |b|
  {
    if |b| == 0 {
      assert a + b == a;
    } else {
      var b' := b[..|b| - 1];
      assert (a + b)[..|a + b| - 1] == a + b';
      RunBatchConcat(agg, r, a, b');
    }
  }

  /** Once a failure is recorded, no later command is validated or executed. */
  lemma {:induction false} FailedRunIsFinal<C, E, S>(agg: Aggregate<C, E, S>, r: Run<C, E, S>, cs: seq<Command<C>>)
    requires r.failures != []
    ensures RunBatch(agg, r, cs) == r
    decreases |cs|
  {
    if |cs| > 0 {
      FailedRunIsFinal(agg, r, cs[..|cs| - 1]);
    }
  }

  /**
   * The first command some validator rejects decides the result: the failure
   * holds exactly its validators' errors, whatever the later commands are.
   */
  lemma FirstRejectionDecides<C, E, S>(agg: Aggregate<C, E, S>, ctx: Context<E, S>, pre: seq<Command<C>>, c: Command<C>, post: seq<Command<C>>)
    requires RunBatch(agg, Start(agg, ctx), pre).failures == []
    requires Validate(ValidatorsFor(agg, c.tag), RunBatch(agg, Start(agg, ctx), pre).state, c) != []
    ensures ExecutionResult(agg, ctx, pre + [c] + post)
      == Failure(Validate(ValidatorsFor(agg, c.tag), RunBatch(agg, Start(agg, ctx), pre).state, c))
  {
    var r0 := Start(agg, ctx);
    RunBatchConcat(agg, r0, pre + [c], post);
    RunBatchConcat(agg, r0, pre, [c]);
    assert [c][..0] == [];
    var p := RunBatch(agg, r0, pre);
    FailedRunIsFinal(agg, Step(agg, p, c), post);
  }

  /** Command k is rejected: no earlier failure, and one of its validators returns an error. */
  ghost predicate RejectedAt<C, E, S>(agg: Aggregate<C, E, S>, r: Run<C, E, S>, cs: seq<Command<C>>, k: int)
    requires 0 <= k < |cs|
  {
    var p := RunBatch(agg, r, cs[..k]);
    p.failures == [] && Validate(ValidatorsFor(agg, cs[k].tag), p.state, cs[k]) != []
  }

  lemma {:induction false} RunBatchFailsIff<C, E, S>(agg: Aggregate<C, E, S>, r: Run<C, E, S>, cs: seq<Command<C>>)
    requires r.failures == []
    ensures RunBatch(agg, r, cs).failures != [] <==> exists k :: 0 <= k < |cs| && RejectedAt(agg, r, cs, k)
    decreases |cs|
  {
    if |cs| > 0 {
      var cs' := cs[..|cs| - 1];
      var c := cs[|cs| - 1];
      RunBatchFailsIff(agg, r, cs');
      var p := RunBatch(agg, r, cs');
      forall k | 0 <= k < |cs'| ensures RejectedAt(agg, r, cs, k) == RejectedAt(agg, r, cs', k) {
        assert cs[..k] == cs'[..k];
      }
      assert cs[..|cs'|] == cs';
      if p.failures == [] {
        RunExecutorsEventIds(agg, ExecutorsFor(agg, c.tag), p, c);
        assert RunBatch(agg, r, cs).failures != [] <==> RejectedAt(agg, r, cs, |cs'|);
      } else {
        var k :| 0 <= k < |cs'| && RejectedAt(agg, r, cs', k);
        assert RejectedAt(agg, r, cs, k);
      }
    }
  }

  /** The result is a Failure exactly when some command is reached and rejected. */
  lemma FailureIffRejected<C, E, S>(agg: Aggregate<C, E, S>, ctx: Context<E, S>, cs: seq<Command<C>>)
    ensures ExecutionResult(agg, ctx, cs).Failure?
      <==> exists k :: 0 <= k < |cs| && RejectedAt(agg, Start(agg, ctx), cs, k)
  {
    RunBatchFailsIff(agg, Start(agg, ctx), cs);
  }

  /** A command whose tag has no validators and no executors changes nothing. */
  lemma UnregisteredCommandIgnored<C, E, S>(agg: Aggregate<C, E, S>, r: Run<C, E, S>, a: seq<Command<C>>, c: Command<C>, b: seq<Command<C>>)
    requires ValidatorsFor(agg, c.tag) == [] && ExecutorsFor(agg, c.tag) == []
    ensures RunBatch(agg, r, a + [c] + b) == RunBatch(agg, r, a + b)
  {
    RunBatchConcat(agg, r, a + [c], b);
    RunBatchConcat(agg, r, a, [c]);
    assert [c][..0] == [];
    RunBatchConcat(agg, r, a, b);
  }
}
