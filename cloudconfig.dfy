/**
 * The cloud-config user-data plugin: `CloudConfigPluginExecutor` orders the
 * directives of a parsed document and calls each one's handler, isolating
 * failures; `CloudConfigPlugin.process_non_multipart` builds the executor
 * from a document and runs it.
 *
 * A handler is a function of the session state it finds and the directive's
 * payload; it returns the state it leaves behind, and says whether it
 * returned normally or raised. The registry (`factory.load_plugins()`) maps
 * directive names to handlers.
 */
module CloudConfig {
  import opened Wrappers
  import opened CloudConfigOrder

  /** What a handler leaves behind: its effect on the state, and whether it raised. */
  datatype HandlerResult<S> = Returned(state: S) | Raised(state: S)

  type Handler<!S, -P> = (S, P) -> HandlerResult<S>

  type Registry<!S, -P> = map<string, Handler<S, P>>

  /** One step of the dispatch trace: exactly one per directive. */
  datatype Event<P> =
    | Invoked(name: string, payload: P)   // the handler ran and returned
    | Failed(name: string, payload: P)    // the handler ran and raised; logged with LOG.exception
    | Unsupported(name: string)           // no handler under this name; logged with LOG.error

  /** The state after a run of handlers and the events it produced. */
  datatype Run<S, P> = Run(state: S, events: seq<Event<P>>)

  /** A `CloudConfigPluginExecutor`: the directives, already in execution order. */
  datatype Executor<P> = Executor(expected: seq<Directive<P>>)

  /** Exceptions that reach this plugin. */
  datatype PyError = TypeError | ValueError | AttributeError | YamlError | CloudConfigError(message: string)

  /** The loader raises Python's and PyYAML's own exceptions, never this module's. */
  type LoaderError = e: PyError | !e.CloudConfigError? witness YamlError

  /** What the YAML loader makes of a stream. */
  datatype Loaded<P> =
    | Mapping(pairs: seq<Directive<P>>)   // a top-level mapping with string keys, in the order `items()` yields them
    | NotAMapping                         // loads, but not as a mapping whose keys are all strings
    | LoadRaised(error: LoaderError)      // `yaml.load` itself raised

  /** Log lines of `from_yaml` and `process_non_multipart`. */
  datatype LogEntry = InvalidYamlStream | CouldNotProcess

  const InvalidYamlMessage := "Invalid yaml stream provided."

  /** `CloudConfigPluginExecutor(**plugins)`: the directives stable-sorted by priority. */
  function NewExecutor<P>(order: seq<string>, plugins: seq<Directive<P>>): (ex: Executor<P>)
    ensures multiset(ex.expected) == multiset(plugins)
    ensures forall i, j :: 0 <= i < j < |ex.expected| ==>
              Priority(order, ex.expected[i].name) <= Priority(order, ex.expected[j].name)
    ensures forall p :: WithKey(PriorityKey(order), ex.expected, p) == WithKey(PriorityKey(order), plugins, p)
  {
    var ex := Executor(SortByPriority(order, plugins));
    forall p ensures WithKey(PriorityKey(order), ex.expected, p) == WithKey(PriorityKey(order), plugins, p) {
      SortByPriorityStable(order, plugins, p);
    }
    ex
  }

  /**
   * A key `self` collides with the `self` parameter of `__init__(self, **plugins)`,
   * so `cls(**content)` raises TypeError ("got multiple values for argument 'self'").
   */
  predicate NamesSelf<P>(pairs: seq<Directive<P>>)
  {
    exists i :: 0 <= i < |pairs| && pairs[i].name == "self"
  }

  /**
   * `from_yaml`: the loader's TypeError, ValueError and AttributeError become
   * a CloudConfigError; any other exception of the loader propagates as it
   * is, and so does the TypeError of `cls(**content)` on a document that is
   * not a mapping with string keys, or whose keys include `self`.
   */
  function FromYaml<P>(load: string -> Loaded<P>, order: seq<string>, stream: string): (r: Result<Executor<P>, PyError>)
    ensures r.Success? <==> load(stream).Mapping? && !NamesSelf(load(stream).pairs)
    ensures load(stream).Mapping? && NamesSelf(load(stream).pairs) ==> r == Failure(TypeError)
    ensures r.Success? ==> r.value == NewExecutor(order, load(stream).pairs)
    ensures r == Failure(CloudConfigError(InvalidYamlMessage)) <==>
              load(stream).LoadRaised? && load(stream).error in {TypeError, ValueError, AttributeError}
  {
    match load(stream)
    case LoadRaised(e) =>
      if e == TypeError || e == ValueError || e == AttributeError then Failure(CloudConfigError(InvalidYamlMessage))
      else Failure(e)
    case NotAMapping => Failure(TypeError)
    case Mapping(pairs) => if NamesSelf(pairs) then Failure(TypeError) else Success(NewExecutor(order, pairs))
  }

  /** One iteration of `execute`'s loop: look the handler up and call it inside the failure boundary. */
  function Step<S, P>(registry: Registry<S, P>, st: S, d: Directive<P>): Run<S, P>
  {
    if d.name !in registry then Run(st, [Unsupported(d.name)])
    else
      match registry[d.name](st, d.payload)
      case Returned(st') => Run(st', [Invoked(d.name, d.payload)])
      case Raised(st') => Run(st', [Failed(d.name, d.payload)])
  }

  /** The run of `execute` over `pairs`, one step per pair, each from the state the previous one left. */
  function Dispatch<S, P>(registry: Registry<S, P>, st: S, pairs: seq<Directive<P>>): (r: Run<S, P>)
    ensures |r.events| == |pairs|
  {
    if pairs == [] then Run(st, [])
    else
      var before := Dispatch(registry, st, pairs[..|pairs| - 1]);
      var step := Step(registry, before.state, pairs[|pairs| - 1]);
      Run(step.state, before.events + step.events)
  }

  /** The state the handler of `pairs[i]` finds: what the first i directives left. */
  function StateBefore<S, P>(registry: Registry<S, P>, st: S, pairs: seq<Directive<P>>, i: nat): S
    requires i <= |pairs|
  {
    Dispatch(registry, st, pairs[..i]).state
  }

  /**
   * The i-th event is the i-th directive's own step, taken from the state the
   * earlier directives left, whatever they did.
   */
  lemma {:induction false} DispatchAt<S, P>(registry: Registry<S, P>, st: S, pairs: seq<Directive<P>>, i: nat)
    requires i < |pairs|
    ensures Dispatch(registry, st, pairs).events[i] == Step(registry, StateBefore(registry, st, pairs, i), pairs[i]).events[0]
  {
    var init := pairs[..|pairs| - 1];
    if i < |pairs| - 1 {
      DispatchAt(registry, st, init, i);
      assert init[..i] == pairs[..i];
    } else {
      assert pairs[..i] == init;
    }
  }

  /** Running `a` and then `b` is running `a + b`: dispatch has no memory beyond the state. */
  lemma {:induction false} DispatchAppend<S, P>(registry: Registry<S, P>, st: S, a: seq<Directive<P>>, b: seq<Directive<P>>)
    ensures var first := Dispatch(registry, st, a);
            var second := Dispatch(registry, first.state, b);
            Dispatch(registry, st, a + b) == Run(second.state, first.events + second.events)
    decreases |b|
  {
    if b != [] {
      var b' := b[..|b| - 1];
      DispatchAppend(registry, st, a, b');
      assert (a + b)[..|a + b| - 1] == a + b';
      assert (a + b)[|a + b| - 1] == b[|b| - 1];
    } else {
      assert a + b == a;
    }
  }

  /**
   * Every directive is visited once, in order: its event carries its own name;
   * it is Unsupported exactly when no handler is registered; otherwise its
   * handler ran with its own payload, and the event is Failed exactly when
   * that handler raised on the state it found.
   */
  lemma DispatchEvents<S, P>(registry: Registry<S, P>, st: S, pairs: seq<Directive<P>>, i: nat)
    requires i < |pairs|
    ensures var e := Dispatch(registry, st, pairs).events[i];
            && e.name == pairs[i].name
            && (e.Unsupported? <==> pairs[i].name !in registry)
            && (!e.Unsupported? ==> e.payload == pairs[i].payload)
            && (e.Failed? <==> pairs[i].name in registry &&
                               registry[pairs[i].name](StateBefore(registry, st, pairs, i), pairs[i].payload).Raised?)
  {
    DispatchAt(registry, st, pairs, i);
  }

  /**
   * Fault isolation: a handler that raises does not stop a later directive
   * whose handler is registered from being called.
   */
  lemma FailureDoesNotStopLaterHandlers<S, P>(registry: Registry<S, P>, st: S, pairs: seq<Directive<P>>, i: nat, j: nat)
    requires i < j < |pairs|
    requires Dispatch(registry, st, pairs).events[i].Failed?
    requires pairs[j].name in registry
    ensures Dispatch(registry, st, pairs).events[j] == Invoked(pairs[j].name, pairs[j].payload)
         || Dispatch(registry, st, pairs).events[j] == Failed(pairs[j].name, pairs[j].payload)
  {
  }

  /**
   * `execute`: for each directive in order, an Unsupported event when no
   * handler is registered, otherwise the handler's call, whose exception is
   * caught and logged. No handler's exception escapes the loop.
   */
  method Execute<S, P>(ex: Executor<P>, registry: Registry<S, P>, st0: S) returns (st: S, events: seq<Event<P>>)
    ensures Run(st, events) == Dispatch(registry, st0, ex.expected)
    ensures |events| == |ex.expected|
    ensures forall i :: 0 <= i < |events| ==> events[i].name == ex.expected[i].name
    ensures forall i :: 0 <= i < |events| ==> (events[i].Unsupported? <==> ex.expected[i].name !in registry)
    ensures forall i :: 0 <= i < |events| && !events[i].Unsupported? ==> events[i].payload == ex.expected[i].payload
  {
    st, events := st0, [];
    for i := 0 to |ex.expected|
      invariant Run(st, events) == Dispatch(registry, st0, ex.expected[..i])
    {
      var d := ex.expected[i];
      assert ex.expected[..i + 1][..i] == ex.expected[..i];
      if d.name !in registry {
        events := events + [Unsupported(d.name)];
        continue;
      }
      var handler := registry[d.name];
      match handler(st, d.payload)
      case Returned(st') =>
        st, events := st', events + [Invoked(d.name, d.payload)];
      case Raised(st') =>
        st, events := st', events + [Failed(d.name, d.payload)];
    }
    assert ex.expected[..|ex.expected|] == ex.expected;
    forall i | 0 <= i < |events|
      ensures events[i].name == ex.expected[i].name
      ensures events[i].Unsupported? <==> ex.expected[i].name !in registry
      ensures !events[i].Unsupported? ==> events[i].payload == ex.expected[i].payload
    {
      DispatchEvents(registry, st0, ex.expected, i);
    }
  }

  /**
   * `process_non_multipart`: a stream the loader rejects is logged twice and
   * runs nothing; an exception `from_yaml` does not translate escapes before
   * any handler runs; otherwise the executor runs.
   */
  method ProcessNonMultipart<S, P>(load: string -> Loaded<P>, order: seq<string>, registry: Registry<S, P>,
                                   st0: S, part: string)
    returns (st: S, events: seq<Event<P>>, log: seq<LogEntry>, escaped: Option<PyError>)
    ensures FromYaml(load, order, part).Success? ==>
              && Run(st, events) == Dispatch(registry, st0, FromYaml(load, order, part).value.expected)
              && log == [] && escaped == None
    ensures FromYaml(load, order, part) == Failure(CloudConfigError(InvalidYamlMessage)) ==>
              st == st0 && events == [] && log == [InvalidYamlStream, CouldNotProcess] && escaped == None
    ensures FromYaml(load, order, part).Failure? && !FromYaml(load, order, part).error.CloudConfigError? ==>
              st == st0 && events == [] && log == [] && escaped == Some(FromYaml(load, order, part).error)
    ensures FromYaml(load, order, part).Failure? ==> events == [] && st == st0
    ensures !load(part).Mapping? ==> events == [] && st == st0
  {
    var executor := FromYaml(load, order, part);
    match executor
    case Failure(e) =>
      st, events := st0, [];
      if e.CloudConfigError? {
        log, escaped := [InvalidYamlStream, CouldNotProcess], None;
      } else {
        log, escaped := [], Some(e);
      }
    case Success(ex) =>
      st, events := Execute(ex, registry, st0);
      log, escaped := [], None;
  }
}
