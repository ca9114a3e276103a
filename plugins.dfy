/**
 * The plugin runtime: `PluginManager`, the name-keyed, insertion-ordered registry every
 * `Plugin` adds itself to once its options validate, and `initiate`, which runs the stored
 * plugins one after another. What the global event emitter sends out and what the logger
 * writes are kept, in order, as two append-only logs on the manager.
 */
module Plugins {
  import opened Wrappers
  import opened JsValues
  import OrderedMaps
  import Lists

  /** The events of the `HyprEvents` enum, and the one `register` also sends. */
  datatype HyprEvent = PluginLoaded | PluginFailed | PluginLoadFinished | PluginLoadStarted | PluginRegisterError

  /**
   * `HyprEvents.<e>` as the enum declares it: four members, each named after itself.
   * `PluginRegisterError` is not among them, so reading it gives `undefined`.
   */
  function DeclaredEventName(e: HyprEvent): (r: Value)
    ensures r.Str? <==> e != PluginRegisterError
  {
    match e
    case PluginLoaded => Str("PluginLoaded")
    case PluginFailed => Str("PluginFailed")
    case PluginLoadFinished => Str("PluginLoadFinished")
    case PluginLoadStarted => Str("PluginLoadStarted")
    case PluginRegisterError => Undefined
  }

  /** The name each event goes out under: the enum's value, and `'PluginRegisterError'` for the event the enum lacks. */
  function EventName(e: HyprEvent): (r: string)
    ensures e != PluginRegisterError ==> DeclaredEventName(e) == Str(r)
  {
    match e
    case PluginLoaded => "PluginLoaded"
    case PluginFailed => "PluginFailed"
    case PluginLoadFinished => "PluginLoadFinished"
    case PluginLoadStarted => "PluginLoadStarted"
    case PluginRegisterError => "PluginRegisterError"
  }

  /** As declared, a register error goes out under the name `undefined`, which no listener of `'PluginRegisterError'` hears. */
  lemma RegisterErrorUndeclared()
    ensures DeclaredEventName(PluginRegisterError) == Undefined
    ensures DeclaredEventName(PluginRegisterError) != Str(EventName(PluginRegisterError))
  {
  }

  /** With the name added, every event goes out under a name of its own. */
  lemma EventNamesDistinct(e1: HyprEvent, e2: HyprEvent)
    ensures EventName(e1) == EventName(e2) ==> e1 == e2
  {
    if e1 != e2 {
      assert EventName(e1)[7] != EventName(e2)[7] || |EventName(e1)| != |EventName(e2)|;
    }
  }

  /** `PluginErrorCodes.PluginConflict`. */
  const PluginConflict := "PluginConflict"

  /** The options a plugin's validation hands back: its `name` and `run`. */
  datatype PluginOptions = PluginOptions(name: string, run: Value)

  /** An argument passed to an event's listeners. */
  datatype Arg = PluginArg(plugin: Plugin) | ValueArg(value: Value)

  /** One `GlobalEvents.emit(name, ...args)`. */
  datatype Emission = Emission(name: string, args: seq<Arg>)

  function Loaded(p: Plugin): Emission {
    Emission(EventName(PluginLoaded), [PluginArg(p)])
  }

  function Failed(p: Plugin, error: Value): Emission {
    Emission(EventName(PluginFailed), [PluginArg(p), ValueArg(error)])
  }

  function Conflict(): Emission {
    Emission(EventName(PluginRegisterError), [ValueArg(Str(PluginConflict))])
  }

  datatype Level = Warn | Error | Trace

  /** One call of `Logger.warn`, `Logger.error` or `Logger.trace`, with its arguments. */
  datatype LogLine = Log(level: Level, args: seq<Value>)

  /**
   * What a catch handler logs for `error`: at `level`, its `code` (or `''` when that is
   * `undefined`) and its `message`, then its `stack` as a trace when that is truthy.
   * Reading `.code` of `null` or `undefined` throws instead.
   */
  function Report(level: Level, error: Value): (r: Result<seq<LogLine>, Thrown>)
    ensures r.Err? <==> Nullish(error)
    ensures r.Ok? ==> 1 <= |r.value| <= 2 && r.value[0].level == level && |r.value[0].args| == 2
    ensures r.Ok? ==> (|r.value| == 2 <==> Truthy(Get(error, "stack").value))
    ensures r.Ok? && !error.Obj? ==> r.value == [Log(level, [Str(""), Undefined])]
  {
    match Get(error, "code")
    case Err(e) => Err(e)
    case Ok(code) =>
      var message := Get(error, "message").value;
      var stack := Get(error, "stack").value;
      var first := Log(level, [if code != Undefined then code else Str(""), message]);
      Ok([first] + if Truthy(stack) then [Log(Trace, [stack])] else [])
  }

  /** What `register` is handed: a `Plugin` instance, or anything else. */
  datatype Registrand = Instance(plugin: Plugin) | Other(value: Value)

  /** `Logger.warn('Overwriting plugin', name)`, when `name` is already taken in `entries`. */
  function OverwriteWarning(entries: seq<(Value, Plugin)>, name: Value): seq<LogLine> {
    if OrderedMaps.Has(entries, name) then [Log(Warn, [Str("Overwriting plugin"), name])] else []
  }

  class PluginManager {
    /** The collection's entries, name to plugin, in insertion order. */
    var entries: seq<(Value, Plugin)>
    /** `this.client`: unset (`undefined`) until `initiate`. */
    var client: Value
    /** Everything sent through the global event emitter, in order. */
    var events: seq<Emission>
    /** Everything written through the logger, in order. */
    var logs: seq<LogLine>

    /** Every name stands for one plugin, as in any `Map`. */
    predicate Valid()
      reads this
    {
      OrderedMaps.DistinctKeys(entries)
    }

    /** `new PluginManager()`: empty, with no client yet. */
    constructor()
      ensures Valid()
      ensures entries == [] && client == Undefined && events == [] && logs == []
    {
      entries := [];
      client := Undefined;
      events := [];
      logs := [];
    }

    /**
     * `register(plugin)`: a `Plugin` is stored under its name (replacing, with a warning,
     * one already there) and announced with `PluginLoaded`; anything else is refused with a
     * `PluginConflict` register error. Returns the manager, for chaining.
     */
    method Register(plugin: Registrand) returns (self: PluginManager)
      requires Valid()
      modifies this
      ensures Valid() && self == this && client == old(client)
      ensures plugin.Instance? ==>
        && entries == OrderedMaps.Set(old(entries), plugin.plugin.name, plugin.plugin)
        && events == old(events) + [Loaded(plugin.plugin)]
        && logs == old(logs) + OverwriteWarning(old(entries), plugin.plugin.name)
      ensures plugin.Other? ==>
        entries == old(entries) && events == old(events) + [Conflict()] && logs == old(logs)
    {
      if plugin.Instance? {
        var p := plugin.plugin;
        logs := logs + OverwriteWarning(entries, p.name);
        OrderedMaps.SetKeepsDistinct(entries, p.name, p);
        entries := OrderedMaps.Set(entries, p.name, p);
        events := events + [Loaded(p)];
      } else {
        events := events + [Conflict()];
      }
      self := this;
    }

    /**
     * `initiate(client)`: sets the client, then runs the stored plugins one at a time in
     * insertion order; `outcome(i)` says how the `i`-th run settles. A rejection is
     * reported and the loop goes on; a synchronous throw, or a rejection whose reason is
     * `null` or `undefined`, ends `initiate` with that error.
     */
    method Initiate(client: Value, outcome: nat -> RunOutcome) returns (failure: Option<Thrown>)
      modifies this
      ensures this.client == client && entries == old(entries)
      ensures var r := RunAll(OrderedMaps.Values(old(entries)), outcome);
        && events == old(events) + r.emitted
        && logs == old(logs) + r.logged
        && failure == r.escaped
    {
      this.client := client;
      var plugins := OrderedMaps.Values(entries);
      ghost var events0, logs0 := events, logs;
      ghost var done := RunAll(plugins[..0], outcome);
      failure := None;
      var i := 0;
      while i < |plugins| && failure.None?
        invariant 0 <= i <= |plugins|
        invariant this.client == client && entries == old(entries)
        invariant done == RunAll(plugins[..i], outcome)
        invariant events == events0 + done.emitted && logs == logs0 + done.logged
        invariant failure == done.escaped
      {
        RunAllStep(plugins, outcome, i);
        var attempt := TryRun(plugins[i], outcome(i));
        failure := RunPlugin(plugins[i], outcome(i));
        Lists.AppendAssoc(events0, done.emitted, attempt.emitted);
        Lists.AppendAssoc(logs0, done.logged, attempt.logged);
        done := RunAll(plugins[..i + 1], outcome);
        i := i + 1;
      }
      if i < |plugins| {
        EscapeIsFinal(plugins, outcome, i);
      } else {
        assert plugins[..i] == plugins;
      }
    }

    /** One pass of `initiate`'s loop: runs `p`, whose run settles as `o`, and reports the result. */
    method RunPlugin(p: Plugin, o: RunOutcome) returns (escaped: Option<Thrown>)
      modifies this
      ensures client == old(client) && entries == old(entries)
      ensures events == old(events) + TryRun(p, o).emitted
      ensures logs == old(logs) + TryRun(p, o).logged
      ensures escaped == TryRun(p, o).escaped
    {
      var attempt := TryRun(p, o);
      events := events + attempt.emitted;
      logs := logs + attempt.logged;
      escaped := attempt.escaped;
    }
  }

  /** `plugin.run(client)` either returns (a promise that resolves or rejects) or throws. */
  datatype RunOutcome = Resolves | Rejects(reason: Value) | Throws(error: Value)

  /** What one pass of `initiate`'s loop sends, logs, and lets escape. */
  datatype Attempt = Attempt(emitted: seq<Emission>, logged: seq<LogLine>, escaped: Option<Thrown>)

  /**
   * One pass of the loop for `p`: a resolved run is announced with `PluginLoaded`; a
   * rejected one first with `PluginFailed` and a logged report, then with `PluginLoaded`;
   * a throw escapes before anything is sent.
   */
  function TryRun(p: Plugin, o: RunOutcome): (a: Attempt)
    ensures a.escaped.None? <==> !Escapes(o)
    ensures o.Throws? ==> a == Attempt([], [], Some(Raised(o.error)))
    ensures !Escapes(o) ==> a.emitted == AttemptEvents(p, o)
  {
    match o
    case Resolves => Attempt([Loaded(p)], [], None)
    case Throws(e) => Attempt([], [], Some(Raised(e)))
    case Rejects(reason) =>
      match Report(Error, reason)
      case Err(t) => Attempt([Failed(p, reason)], [], Some(t))
      case Ok(lines) => Attempt([Failed(p, reason), Loaded(p)], lines, None)
  }

  /** Whether an outcome ends `initiate`: a throw, or a rejection its handler cannot read. */
  predicate Escapes(o: RunOutcome) {
    o.Throws? || (o.Rejects? && Nullish(o.reason))
  }

  /** The events the source promises for one attempt that does not escape. */
  function AttemptEvents(p: Plugin, o: RunOutcome): seq<Emission> {
    if o.Rejects? then [Failed(p, o.reason), Loaded(p)] else [Loaded(p)]
  }

  /** The events of a run in which nothing escapes: each plugin's, in order. */
  function AllEvents(ps: seq<Plugin>, outcome: nat -> RunOutcome): seq<Emission> {
    if |ps| == 0 then [] else AllEvents(ps[..|ps| - 1], outcome) + AttemptEvents(ps[|ps| - 1], outcome(|ps| - 1))
  }

  /** What `initiate`'s loop has done after the plugins `ps`. */
  datatype Progress = Progress(ran: seq<Plugin>, emitted: seq<Emission>, logged: seq<LogLine>, escaped: Option<Thrown>)

  /**
   * The loop over `ps`, stopping after the first attempt that escapes. Each plugin is
   * run at most once and in order: the plugins run are a prefix of `ps`, all of it when
   * nothing escaped.
   */
  function RunAll(ps: seq<Plugin>, outcome: nat -> RunOutcome): (r: Progress)
    ensures |r.ran| <= |ps| && r.ran == ps[..|r.ran|]
    ensures r.escaped.None? ==> r.ran == ps
  {
    if |ps| == 0 then Progress([], [], [], None)
    else
      var before := RunAll(ps[..|ps| - 1], outcome);
      if before.escaped.Some? then before
      else
        var a := TryRun(ps[|ps| - 1], outcome(|ps| - 1));
        Progress(ps, before.emitted + a.emitted, before.logged + a.logged, a.escaped)
  }

  /** One more pass of the loop, when nothing has escaped yet. */
  lemma RunAllStep(ps: seq<Plugin>, outcome: nat -> RunOutcome, i: nat)
    requires i < |ps| && RunAll(ps[..i], outcome).escaped.None?
    ensures var before := RunAll(ps[..i], outcome);
      var a := TryRun(ps[i], outcome(i));
      RunAll(ps[..i + 1], outcome) == Progress(ps[..i + 1], before.emitted + a.emitted, before.logged + a.logged, a.escaped)
  {
    assert ps[..i + 1][..i] == ps[..i];
  }

  /** When something escaped, it was the last plugin run that escaped. */
  lemma {:induction false} LastRunEscaped(ps: seq<Plugin>, outcome: nat -> RunOutcome)
    requires RunAll(ps, outcome).escaped.Some?
    ensures |RunAll(ps, outcome).ran| > 0
    ensures Escapes(outcome(|RunAll(ps, outcome).ran| - 1))
  {
    var n := |ps| - 1;
    if RunAll(ps[..n], outcome).escaped.Some? {
      LastRunEscaped(ps[..n], outcome);
    }
  }

  /** Once an attempt escapes, the plugins after it are never run. */
  lemma {:induction false} EscapeIsFinal(ps: seq<Plugin>, outcome: nat -> RunOutcome, i: nat)
    requires i <= |ps| && RunAll(ps[..i], outcome).escaped.Some?
    ensures RunAll(ps, outcome) == RunAll(ps[..i], outcome)
    decreases |ps|
  {
    if i < |ps| {
      var n := |ps| - 1;
      assert ps[..n][..i] == ps[..i];
      EscapeIsFinal(ps[..n], outcome, i);
    } else {
      assert ps[..i] == ps;
    }
  }

  /**
   * A failing plugin does not stop the others: when no attempt escapes, every plugin
   * runs, each is announced with `PluginLoaded` (a rejected one after its `PluginFailed`),
   * and `initiate` settles without error.
   */
  lemma {:induction false} FailuresIsolated(ps: seq<Plugin>, outcome: nat -> RunOutcome)
    requires forall i :: 0 <= i < |ps| ==> !Escapes(outcome(i))
    ensures RunAll(ps, outcome).escaped.None?
    ensures RunAll(ps, outcome).emitted == AllEvents(ps, outcome)
  {
    if |ps| > 0 {
      FailuresIsolated(ps[..|ps| - 1], outcome);
    }
  }

  /**
   * The first attempt that escapes ends `initiate` with its error: the plugins before it
   * are announced as usual, nothing after it runs.
   */
  lemma {:induction false} FirstEscapeEnds(ps: seq<Plugin>, outcome: nat -> RunOutcome, j: nat)
    requires j < |ps| && Escapes(outcome(j))
    requires forall i :: 0 <= i < j ==> !Escapes(outcome(i))
    ensures RunAll(ps, outcome).ran == ps[..j + 1]
    ensures RunAll(ps, outcome).escaped == TryRun(ps[j], outcome(j)).escaped
    ensures RunAll(ps, outcome).emitted == AllEvents(ps[..j], outcome) + TryRun(ps[j], outcome(j)).emitted
  {
    var pre := ps[..j + 1];
    assert pre[..j] == ps[..j];
    FailuresIsolated(ps[..j], outcome);
    EscapeIsFinal(ps, outcome, j + 1);
  }

  /** `initiate` never sends `PluginLoadFinished` (nor `PluginLoadStarted`). */
  lemma {:induction false} NoLoadFinished(ps: seq<Plugin>, outcome: nat -> RunOutcome, k: nat)
    requires k < |RunAll(ps, outcome).emitted|
    ensures RunAll(ps, outcome).emitted[k].name in {EventName(PluginLoaded), EventName(PluginFailed)}
    ensures RunAll(ps, outcome).emitted[k].name != EventName(PluginLoadFinished)
  {
    var n := |ps| - 1;
    var before := RunAll(ps[..n], outcome);
    if before.escaped.None? && k >= |before.emitted| {
      assert RunAll(ps, outcome).emitted[k] == TryRun(ps[n], outcome(n)).emitted[k - |before.emitted|];
    } else {
      NoLoadFinished(ps[..n], outcome, k);
    }
  }

  /** Validation: `name` must be a string and `run` a function; other properties pass through. */
  predicate Validates(name: Value, run: Value) {
    name.Str? && run.Fn?
  }

  /** What the validation failure's handler logs: a warning and, when there is a stack, a trace. */
  function RejectionReport(error: Value): (r: seq<LogLine>)
    ensures !Nullish(error) ==> |r| >= 1 && r[0].level == Warn
  {
    match Report(Warn, error)
    case Ok(lines) => lines
    case Err(_) => []
  }

  class Plugin {
    var name: Value
    var run: Value
    /** Set from the validated object; unset until validation succeeds. */
    var options: Option<PluginOptions>

    /**
     * `new Plugin(name, run)`: stores `name` and `run`, then validates them. On success it
     * sets `options` and registers itself with `registry`; on failure it logs `rejection`,
     * the validation error, and is never registered. Validation sets no length bound, so an
     * empty name passes.
     */
    constructor(name: Value, run: Value, registry: PluginManager, rejection: Value)
      requires registry.Valid()
      modifies registry
      ensures this.name == name && this.run == run
      ensures registry.Valid() && registry.client == old(registry.client)
      ensures Validates(name, run) ==>
        && options == Some(PluginOptions(name.s, run))
        && registry.entries == OrderedMaps.Set(old(registry.entries), name, this)
        && registry.events == old(registry.events) + [Loaded(this)]
        && registry.logs == old(registry.logs) + OverwriteWarning(old(registry.entries), name)
      ensures !Validates(name, run) ==>
        && options == None
        && registry.entries == old(registry.entries)
        && registry.events == old(registry.events)
        && registry.logs == old(registry.logs) + RejectionReport(rejection)
    {
      this.name := name;
      this.run := run;
      options := None;
      new;
      if Validates(name, run) {
        options := Some(PluginOptions(name.s, run));
        var _ := registry.Register(Instance(this));
      } else {
        registry.logs := registry.logs + RejectionReport(rejection);
      }
    }
  }

  /** Registering a name already present keeps the plugin count and every name's position. */
  lemma OverwriteKeepsOrder(entries: seq<(Value, Plugin)>, p: Plugin, name: Value)
    requires OrderedMaps.Has(entries, name)
    ensures OrderedMaps.Keys(OrderedMaps.Set(entries, name, p)) == OrderedMaps.Keys(entries)
    ensures |OrderedMaps.Set(entries, name, p)| == |entries|
    ensures OrderedMaps.Get(OrderedMaps.Set(entries, name, p), name) == Some(p)
  {
    OrderedMaps.SetPresentKeepsKeys(entries, name, p);
    OrderedMaps.SetGet(entries, name, p, name);
  }

  /** Registering a new name appends its plugin after all the others. */
  lemma NewNameAppends(entries: seq<(Value, Plugin)>, p: Plugin, name: Value)
    requires !OrderedMaps.Has(entries, name)
    ensures OrderedMaps.Set(entries, name, p) == entries + [(name, p)]
    ensures OrderedMaps.Values(OrderedMaps.Set(entries, name, p)) == OrderedMaps.Values(entries) + [p]
  {
    OrderedMaps.SetAbsentAppends(entries, name, p);
  }
}
