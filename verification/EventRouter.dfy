/**
 * Event keys and the part of logger.cpp that decides which events of a running task reach
 * its queue: the handler table with its "__disabled" entry, and the log consumer.
 */
module EventRouter {
  import opened Wrappers
  import opened JsonValues
  import opened TaskEngine

  const KNOWN_EVENTS: set<string> := {
    "failure.asn_lookup", "failure.cc_lookup", "failure.ip_lookup", "failure.measurement",
    "failure.measurement_submission", "failure.report_create", "failure.report_close",
    "failure.resolver_lookup", "failure.startup", "log", "measurement", "status.end",
    "status.geoip_lookup", "status.progress", "status.queued", "status.measurement_start",
    "status.measurement_submission", "status.measurement_done", "status.report_close",
    "status.report_create", "status.resolver_lookup", "status.started",
    "status.update.performance", "status.update.websites", "task_terminated"
  }

  /** is_event_key_valid. */
  predicate IsEventKeyValid(key: string) {
    || key == "failure.asn_lookup" || key == "failure.cc_lookup" || key == "failure.ip_lookup"
    || key == "failure.measurement" || key == "failure.measurement_submission" || key == "failure.report_create"
    || key == "failure.report_close" || key == "failure.resolver_lookup" || key == "failure.startup"
    || key == "log" || key == "measurement" || key == "status.end"
    || key == "status.geoip_lookup" || key == "status.progress" || key == "status.queued"
    || key == "status.measurement_start" || key == "status.measurement_submission" || key == "status.measurement_done"
    || key == "status.report_close" || key == "status.report_create" || key == "status.resolver_lookup"
    || key == "status.started" || key == "status.update.performance" || key == "status.update.websites"
    || key == "task_terminated"
  }

  /** The two lists of event keys that the source keeps are the same. */
  lemma KnownEventsAreValid(key: string)
    ensures key in KNOWN_EVENTS <==> IsEventKeyValid(key)
  {
  }

  const LOG := "log"
  const DISABLED := "__disabled"

  const LOG_LEVELS: seq<string> := ["ERR", "WARNING", "INFO", "DEBUG", "DEBUG2"]
  const LOG_WARNING := 2
  const LOG_VERBOSITY_MASK := 31

  /** log_level_itoa; any other number has no name. */
  function LevelName(level: nat): string {
    if 1 <= level <= |LOG_LEVELS| then LOG_LEVELS[level - 1] else ""
  }

  /** log_level_atoi. */
  function LevelNumber(name: string): Option<nat> {
    if name == "ERR" then Some(1)
    else if name == "WARNING" then Some(2)
    else if name == "INFO" then Some(3)
    else if name == "DEBUG" then Some(4)
    else if name == "DEBUG2" then Some(5)
    else None
  }

  /** The two level tables are inverse to each other. */
  lemma LevelsRoundTrip(level: nat, name: string)
    ensures LevelNumber("ERR") == Some(1) && LevelNumber("WARNING") == Some(2) && LevelNumber("INFO") == Some(3)
    ensures LevelNumber("DEBUG") == Some(4) && LevelNumber("DEBUG2") == Some(5)
    ensures LevelNumber(name) == Some(level) <==> 1 <= level <= |LOG_LEVELS| && LevelName(level) == name
  {
    assert LevelName(1) == "ERR" && LevelName(2) == "WARNING" && LevelName(3) == "INFO";
    assert LevelName(4) == "DEBUG" && LevelName(5) == "DEBUG2";
    assert |LOG_LEVELS| == 5;
    assert |"ERR"| == 3 && |"WARNING"| == 7 && |"INFO"| == 4 && |"DEBUG"| == 5 && |"DEBUG2"| == 6;
  }

  function LogEvent(level: nat, message: string): Event {
    Event(LOG, Obj([Member("log_level", Str(LevelName(level))), Member("message", Str(message))]))
  }

  /** A queued log event names its level and carries its message. */
  lemma LogEventNamesLevel(level: nat, message: string)
    requires 1 <= level <= 5
    ensures var e := LogEvent(level, message);
      && e.key == "log" && e.value.Obj?
      && Find(e.value.members, "message") == Some(Str(message))
      && Find(e.value.members, "log_level") == Some(Str(LevelName(level)))
      && LevelNumber(LevelName(level)) == Some(level)
  {
    LevelsRoundTrip(level, LevelName(level));
    var m := LogEvent(level, message).value.members;
    assert m[0].key[0] == 'l' && "message"[0] == 'm';
    assert m[1..] == [Member("message", Str(message))];
  }

  // The levels a failure message advertises.
  const ADVERTISED_LEVELS: seq<string> := ["err", "warning", "info", "debug", "debug2"]

  /** None of them is accepted: the parser wants capitals. */
  lemma AdvertisedLevelsAreUnknown(name: string)
    requires name in ADVERTISED_LEVELS
    ensures LevelNumber(name) == None
  {
    assert name[0] in {'e', 'w', 'i', 'd'};
    assert "ERR"[0] == 'E' && "WARNING"[0] == 'W' && "INFO"[0] == 'I' && "DEBUG"[0] == 'D' && "DEBUG2"[0] == 'D';
  }

  // What task_run registers for a key.
  datatype Handler = ToQueue | ValidateOnly

  // What the code of a nettest does with its logger.
  datatype Action = EmitEx(key: string, value: Json) | LogLine(level: nat, line: string)

  /** The events that one action puts in the queue, for these disabled events. */
  function Routed(disabled: set<string>, action: Action): seq<Event> {
    match action
    case EmitEx(key, value) =>
      if key in KNOWN_EVENTS && key !in disabled && key != LOG then [Event(key, value)] else []
    case LogLine(level, line) =>
      if LOG !in disabled && level <= LOG_VERBOSITY_MASK then [LogEvent(level, line)] else []
  }

  function RoutedAll(disabled: set<string>, actions: seq<Action>): seq<Event> {
    if actions == [] then []
    else
      var n := |actions| - 1;
      RoutedAll(disabled, actions[..n]) + Routed(disabled, actions[n])
  }

  lemma {:induction false} RoutedAllAppends(disabled: set<string>, a: seq<Action>, b: seq<Action>)
    ensures RoutedAll(disabled, a + b) == RoutedAll(disabled, a) + RoutedAll(disabled, b)
    decreases |b|
  {
    hide Routed;
    if b == [] {
      assert a + b == a;
    } else {
      var n := |b| - 1;
      assert (a + b)[..|a + b| - 1] == a + b[..n];
      RoutedAllAppends(disabled, a, b[..n]);
    }
  }

  /** What `e` must be for the action to put it in the queue. */
  predicate Queues(action: Action, disabled: set<string>, e: Event) {
    match action
    case EmitEx(key, value) =>
      key == e.key && value == e.value && IsEventKeyValid(key) && key != "log" && key !in disabled
    case LogLine(level, line) =>
      e == Event("log", Obj([Member("log_level", Str(LevelName(level))), Member("message", Str(line))]))
      && level <= 31 && "log" !in disabled
  }

  /** An event is in the queue iff some action is there to put it in. */
  lemma {:induction false} RoutedAllMeaning(disabled: set<string>, actions: seq<Action>, e: Event)
    ensures e in RoutedAll(disabled, actions) <==> exists k :: 0 <= k < |actions| && Queues(actions[k], disabled, e)
    decreases |actions|
  {
    hide Routed, Queues;
    if actions != [] {
      var n := |actions| - 1;
      RoutedAllMeaning(disabled, actions[..n], e);
      RoutedMeaning(disabled, actions[n], e);
      assert forall k :: 0 <= k < n ==> actions[..n][k] == actions[k];
    }
  }

  lemma RoutedMeaning(disabled: set<string>, action: Action, e: Event)
    ensures |Routed(disabled, action)| <= 1 && (e in Routed(disabled, action) <==> Queues(action, disabled, e))
  {
    hide KNOWN_EVENTS, IsEventKeyValid, LevelName;
    KnownEventsAreValid(if action.EmitEx? then action.key else "");
  }

  /** Unless disabled, status.started comes first and status.end last. */
  lemma StartAndEnd(disabled: set<string>, actions: seq<Action>, summary: Json)
    ensures var all := RoutedAll(disabled, [EmitEx("status.started", Obj([]))] + actions + [EmitEx("status.end", summary)]);
      && ("status.started" !in disabled ==> all != [] && all[0] == Event("status.started", Obj([])))
      && ("status.end" !in disabled ==> all != [] && all[|all| - 1] == Event("status.end", summary))
  {
    var first, last := EmitEx("status.started", Obj([])), EmitEx("status.end", summary);
    RoutedOnce(disabled, first);
    RoutedOnce(disabled, last);
    RoutedAllAppends(disabled, [first], actions);
    RoutedAllAppends(disabled, [first] + actions, [last]);
    RoutedMeaning(disabled, first, Event("status.started", Obj([])));
    RoutedMeaning(disabled, last, Event("status.end", summary));
    assert "status.started"[0] == 's' && "status.end"[0] == 's' && "log"[0] == 'l';
    hide Routed, RoutedAll;
  }

  lemma RoutedOnce(disabled: set<string>, action: Action)
    ensures RoutedAll(disabled, [action]) == Routed(disabled, action)
  {
    hide Routed;
    assert [action][..0] == [] && RoutedAll(disabled, []) == [];
  }

  /** The events whose key is not among `keys`. */
  function Without(events: seq<Event>, keys: set<string>): seq<Event> {
    if events == [] then []
    else
      var n := |events| - 1;
      Without(events[..n], keys) + if events[n].key in keys then [] else [events[n]]
  }

  lemma {:induction false} WithoutAppends(a: seq<Event>, b: seq<Event>, keys: set<string>)
    ensures Without(a + b, keys) == Without(a, keys) + Without(b, keys)
    decreases |b|
  {
    if b == [] {
      assert a + b == a;
    } else {
      var n := |b| - 1;
      assert (a + b)[..|a + b| - 1] == a + b[..n];
      WithoutAppends(a, b[..n], keys);
    }
  }

  /** To disable more events is to drop those and nothing else: the rest keeps its order and values. */
  lemma {:induction false} DisablingFilters(disabled: set<string>, more: set<string>, actions: seq<Action>)
    ensures RoutedAll(disabled + more, actions) == Without(RoutedAll(disabled, actions), more)
    decreases |actions|
  {
    hide KNOWN_EVENTS, Without;
    if actions == [] {
      WithoutUpToOne([], more);
    } else {
      var n := |actions| - 1;
      DisablingFilters(disabled, more, actions[..n]);
      WithoutAppends(RoutedAll(disabled, actions[..n]), Routed(disabled, actions[n]), more);
      WithoutUpToOne(Routed(disabled, actions[n]), more);
    }
  }

  lemma WithoutUpToOne(events: seq<Event>, keys: set<string>)
    requires |events| <= 1
    ensures Without(events, keys) == if events == [] || events[0].key in keys then [] else events
  {
    if events != [] {
      assert events[..0] == [];
    }
  }

  /** The thread of the task is inside task_run. */
  ghost predicate Running(task: TaskImpl)
    reads task
  {
    task.Valid() && task.phase == InRun
  }

  // Where log lines go: the default consumer prints them.
  datatype Consumer = ToStderr | ToTask | Nobody

  /** The handler emit_event_ex uses for `key`, if any. */
  function Chosen(handlers: map<string, Handler>, key: string): Option<Handler> {
    if key in handlers then Some(handlers[key])
    else if DISABLED in handlers then Some(handlers[DISABLED])
    else None
  }

  /** These tables send to the queue exactly the known events that are not disabled. */
  ghost predicate Routes(handlers: map<string, Handler>, consumer: Consumer, disabled: set<string>) {
    && (consumer == ToTask <==> LOG !in disabled)
    && (forall key :: Chosen(handlers, key) == Some(ToQueue) <==>
          key in KNOWN_EVENTS && key !in disabled && key != LOG)
  }

  class Logger {
    var handlers: map<string, Handler>
    var consumer: Consumer

    constructor ()
      ensures handlers == map[] && consumer == ToStderr
    {
      handlers, consumer := map[], ToStderr;
    }

    method OnLog(consumer: Consumer)
      modifies this`consumer
      ensures this.consumer == consumer
    {
      this.consumer := consumer;
    }

    method OnEventEx(event: string, handler: Handler)
      modifies this`handlers
      ensures handlers == old(handlers)[event := handler]
    {
      handlers := handlers[event := handler];
    }

    method EmitEventEx(task: TaskImpl, key: string, value: Json)
      requires Running(task)
      modifies task
      ensures Running(task)
      ensures task.cell.log == old(task.cell.log) +
        if Chosen(handlers, key) == Some(ToQueue) then [Event(key, value)] else []
    {
      var event := Event(key, value);
      var chosen := key;
      assert task.cell.log + [] == task.cell.log;
      if chosen !in handlers {
        chosen := DISABLED;
        if chosen !in handlers {
          return;
        }
      }
      if handlers[chosen] == ToQueue {
        task.EmitEvent(event);
      }
    }

    /** A log line that passed the verbosity filter reaches the consumer. */
    method Consume(task: TaskImpl, level: nat, line: string)
      requires Running(task)
      modifies task
      ensures Running(task)
      ensures task.cell.log == old(task.cell.log) +
        if consumer == ToTask && level <= LOG_VERBOSITY_MASK then [LogEvent(level, line)] else []
    {
      assert task.cell.log + [] == task.cell.log;
      if consumer == ToTask {
        if level > LOG_VERBOSITY_MASK {
          return;
        }
        task.EmitEvent(LogEvent(level, line));
      }
    }

    /** The handler registration of task_run, after the disabled events were masked out. */
    method RegisterHandlers(enabled: set<string>)
      requires handlers == map[] && enabled <= KNOWN_EVENTS
      modifies this
      ensures Routes(handlers, consumer, KNOWN_EVENTS - enabled)
    {
      var others := enabled;
      if LOG in enabled {
        OnLog(ToTask);
        others := others - {LOG};
      } else {
        OnLog(Nobody);
      }
      ghost var all := others;
      while others != {}
        invariant others <= all
        invariant forall key :: key in handlers <==> key in all && key !in others
        invariant forall key :: key in handlers ==> handlers[key] == ToQueue
        invariant consumer == if LOG in enabled then ToTask else Nobody
        decreases others
      {
        var event :| event in others;
        OnEventEx(event, ToQueue);
        others := others - {event};
      }
      OnEventEx(DISABLED, ValidateOnly);
      DisabledIsUnknown();
    }

    method PerformOne(task: TaskImpl, action: Action, ghost disabled: set<string>)
      requires Running(task) && Routes(handlers, consumer, disabled)
      modifies task
      ensures Running(task) && task.cell.log == old(task.cell.log) + Routed(disabled, action)
    {
      match action {
        case EmitEx(key, value) => EmitEventEx(task, key, value);
        case LogLine(level, line) => Consume(task, level, line);
      }
    }

    /** Runs the actions of a nettest: what reaches the queue depends on the disabled events only. */
    method Perform(task: TaskImpl, actions: seq<Action>, ghost disabled: set<string>)
      requires Running(task) && Routes(handlers, consumer, disabled)
      modifies task
      ensures Running(task) && task.cell.log == old(task.cell.log) + RoutedAll(disabled, actions)
    {
      hide Routes, Routed, RoutedAll, Running;
      RoutedNothing(disabled);
      var k := 0;
      ghost var before := task.cell.log;
      assert before + [] == before;
      while k < |actions|
        invariant 0 <= k <= |actions| && Running(task)
        invariant task.cell.log == before + RoutedAll(disabled, actions[..k])
      {
        RoutedNext(disabled, actions, k);
        PerformOne(task, actions[k], disabled);
        k := k + 1;
      }
      assert actions[..k] == actions;
    }
  }

  lemma RoutedNothing(disabled: set<string>)
    ensures RoutedAll(disabled, []) == []
  {
  }

  lemma RoutedNext(disabled: set<string>, actions: seq<Action>, k: nat)
    requires k < |actions|
    ensures RoutedAll(disabled, actions[..k + 1]) == RoutedAll(disabled, actions[..k]) + Routed(disabled, actions[k])
  {
    assert actions[..k + 1][..k] == actions[..k];
  }

  lemma DisabledIsUnknown()
    ensures DISABLED !in KNOWN_EVENTS && DISABLED != LOG
  {
    assert forall key :: key in KNOWN_EVENTS ==> key[0] != '_';
  }
}
