/**
 * Event configuration of the Trash behaviour: `initialize()` replaces the
 * default event list by a non-empty configured one, and `implementedEvents()`
 * turns the `events` setting into the map the event manager subscribes,
 * one handler array per event name.
 */
module Events {
  import opened Wrappers
  import opened Php

  /** The two exceptions `implementedEvents()` can raise. */
  datatype EventError =
    | InvalidEventConfig  // an entry is neither a string nor an array
    | NameTypeError       // a list entry that is not a string reaches pluginSplit()

  /** A handler array such as `['callable' => 'beforeFind', 'priority' => 5]`. */
  type Handler = seq<(Key, Value)>

  /** The result of `implementedEvents()`: event name to handler array, in insertion order. */
  type EventMap = seq<(string, Handler)>

  const CallableKey: Key := StrKey("callable")
  const PriorityKey: Key := StrKey("priority")

  /** The default `events` setting. */
  const DefaultEvents: Value :=
    Arr([(IntKey(0), Str("Model.beforeDelete")), (IntKey(1), Str("Model.beforeFind"))])

  /**
   * `initialize()`: `current` is the `events` setting after the host merged
   * the caller's configuration into the defaults; a non-empty configured
   * value replaces it outright instead of being merged.
   */
  function Initialize(current: Value, configured: Value): (events: Value)
    ensures !IsEmpty(configured) ==> events == configured
    ensures IsEmpty(configured) ==> events == current
  {
    if !IsEmpty(configured) then configured else current
  }

  /**
   * The host's merge of a configured setting into the current one: arrays
   * are concatenated, any other value replaces the current one.
   */
  function HostMerge(current: Value, configured: Value): (merged: Value)
    ensures configured == Arr([]) ==> merged == Arr(ToArray(current))
    ensures !configured.Arr? ==> merged == configured
  {
    if configured.Arr? then
      assert configured == Arr([]) ==> ToArray(current) + configured.entries == ToArray(current);
      Arr(ToArray(current) + configured.entries)
    else configured
  }

  /**
   * The `events` setting once the behaviour is constructed: the host merges
   * the configured value (if any) into the defaults, then `initialize()`
   * runs. Only an absent setting or an empty array keeps the defaults; any
   * other configured value, even an empty one such as null or false,
   * becomes the setting.
   */
  function ConfiguredEvents(configured: Option<Value>): (events: Value)
    ensures configured.None? || configured == Some(Arr([])) ==> events == DefaultEvents
    ensures configured.Some? && configured.value != Arr([]) ==> events == configured.value
  {
    match configured
    case None => DefaultEvents
    case Some(v) => Initialize(HostMerge(DefaultEvents, v), v)
  }

  /**
   * Completes one handler array: a missing or null `callable` becomes the
   * part of the event name after its first dot, and the global priority is
   * added when it is truthy and the handler has no `priority` of its own.
   */
  function Complete(name: string, h: Handler, priority: Value): (r: Handler)
    ensures Lookup(h, CallableKey).Some? && Lookup(h, CallableKey) != Some(Null) ==>
              Lookup(r, CallableKey) == Lookup(h, CallableKey)
    ensures Lookup(h, CallableKey).None? || Lookup(h, CallableKey) == Some(Null) ==>
              Lookup(r, CallableKey) == Some(Str(AfterFirstDot(name)))
    ensures HasKey(r, PriorityKey) <==> HasKey(h, PriorityKey) || Truthy(priority)
    ensures HasKey(h, PriorityKey) ==> Lookup(r, PriorityKey) == Lookup(h, PriorityKey)
    ensures !HasKey(h, PriorityKey) && Truthy(priority) ==> Lookup(r, PriorityKey) == Some(priority)
    ensures forall k :: k != CallableKey && k != PriorityKey ==> Lookup(r, k) == Lookup(h, k)
  {
    var h1 :=
      if !HasKey(h, CallableKey) || Lookup(h, CallableKey) == Some(Null)
      then Put(h, CallableKey, Str(AfterFirstDot(name)))
      else h;
    if Truthy(priority) && !HasKey(h1, PriorityKey) then Put(h1, PriorityKey, priority) else h1
  }

  /**
   * One iteration of the loop in `implementedEvents()`: a numeric key means
   * the value is the event name; otherwise the key is the name and the value
   * is null, a method name or a handler array.
   */
  function Normalise(key: Key, event: Value, priority: Value): (r: Result<(string, Handler), EventError>)
    ensures IsNumericKey(key) ==> (r.Ok? <==> event.Str?)
    ensures IsNumericKey(key) && r.Err? ==> r.error == NameTypeError
    ensures IsNumericKey(key) && r.Ok? ==>
              r.value.0 == event.s && Lookup(r.value.1, CallableKey) == Some(Str(AfterFirstDot(event.s)))
    ensures !IsNumericKey(key) ==> (r.Ok? <==> event.Null? || event.Str? || event.Arr?)
    ensures !IsNumericKey(key) && r.Err? ==> r.error == InvalidEventConfig
    ensures !IsNumericKey(key) && r.Ok? ==> key.StrKey? && r.value.0 == key.s
    ensures !IsNumericKey(key) && event.Str? ==> r.Ok? && Lookup(r.value.1, CallableKey) == Some(event)
    ensures r.Ok? ==> Lookup(r.value.1, CallableKey).Some? && Lookup(r.value.1, CallableKey) != Some(Null)
  {
    if IsNumericKey(key) then
      if event.Str? then Ok((event.s, Complete(event.s, [(CallableKey, Null)], priority)))
      else Err(NameTypeError)
    else
      var name := key.s;
      match event
      case Null => Ok((name, Complete(name, [(CallableKey, Null)], priority)))
      case Str(_) => Ok((name, Complete(name, [(CallableKey, event)], priority)))
      case Arr(h) => Ok((name, Complete(name, h, priority)))
      case _ => Err(InvalidEventConfig)
  }

  /** The per-entry step of the loop, as `Collect` receives it. */
  type Step = ((Key, Value)) -> Result<(string, Handler), EventError>

  /** The step of `implementedEvents()` under the global `priority` setting. */
  function StepFor(priority: Value): Step {
    (entry: (Key, Value)) => Normalise(entry.0, entry.1, priority)
  }

  /** The `foreach` of `implementedEvents()` as a left fold over the configured entries. */
  function Collect(entries: seq<(Key, Value)>, step: Step, acc: EventMap): Result<EventMap, EventError>
    decreases |entries|
  {
    if entries == [] then Ok(acc)
    else
      match step(entries[0])
      case Err(e) => Err(e)
      case Ok(named) => Collect(entries[1..], step, Put(acc, named.0, named.1))
  }

  /** One step of the fold from position `i` on. */
  lemma CollectUnfold(entries: seq<(Key, Value)>, i: nat, step: Step, acc: EventMap)
    requires i < |entries|
    ensures var named := step(entries[i]);
            Collect(entries[i..], step, acc) ==
              if named.Err? then Err(named.error)
              else Collect(entries[i + 1..], step, Put(acc, named.value.0, named.value.1))
  {
    assert entries[i..][0] == entries[i] && entries[i..][1..] == entries[i + 1..];
  }

  /** `implementedEvents()` for the settings `events` and `priority`. */
  function EventsOf(events: Value, priority: Value): (r: Result<EventMap, EventError>)
    ensures events == Bool(false) ==> r == Ok([])
  {
    if events == Bool(false) then Ok([]) else Collect(ToArray(events), StepFor(priority), [])
  }

  /** The fold fails exactly when some entry is rejected. */
  lemma {:induction false} CollectOkIffAllEntriesOk(entries: seq<(Key, Value)>, step: Step, acc: EventMap)
    ensures Collect(entries, step, acc).Ok? <==> forall i :: 0 <= i < |entries| ==> step(entries[i]).Ok?
    decreases |entries|
  {
    if entries != [] {
      var r := step(entries[0]);
      if r.Ok? {
        CollectOkIffAllEntriesOk(entries[1..], step, Put(acc, r.value.0, r.value.1));
        assert forall i :: 1 <= i < |entries| ==> entries[1..][i - 1] == entries[i];
      }
    }
  }

  /** The first rejected entry decides which exception is raised. */
  lemma {:induction false} CollectFailsAtFirstBadEntry(entries: seq<(Key, Value)>, step: Step, acc: EventMap, i: int)
    requires 0 <= i < |entries|
    requires forall j :: 0 <= j < i ==> step(entries[j]).Ok?
    requires step(entries[i]).Err?
    ensures Collect(entries, step, acc) == Err(step(entries[i]).error)
    decreases i
  {
    if i > 0 {
      var r := step(entries[0]);
      assert forall j :: 1 <= j < |entries| ==> entries[1..][j - 1] == entries[j];
      CollectFailsAtFirstBadEntry(entries[1..], step, Put(acc, r.value.0, r.value.1), i - 1);
    }
  }

  /** A name that no entry registers keeps the handler it had before the loop. */
  lemma {:induction false} CollectKeepsUnnamed(entries: seq<(Key, Value)>, step: Step, acc: EventMap, name: string)
    requires forall i :: 0 <= i < |entries| ==> step(entries[i]).Ok? && step(entries[i]).value.0 != name
    ensures Collect(entries, step, acc).Ok?
    ensures Lookup(Collect(entries, step, acc).value, name) == Lookup(acc, name)
    decreases |entries|
  {
    if entries != [] {
      var r := step(entries[0]);
      assert forall j :: 1 <= j < |entries| ==> entries[1..][j - 1] == entries[j];
      CollectKeepsUnnamed(entries[1..], step, Put(acc, r.value.0, r.value.1), name);
    }
  }

  /**
   * `$events[$eventKey] = $event` overwrites: the handler registered for a
   * name is the one of the last entry that names it.
   */
  lemma {:induction false} CollectLastEntryWins(entries: seq<(Key, Value)>, step: Step, acc: EventMap, i: int)
    requires Collect(entries, step, acc).Ok?
    requires 0 <= i < |entries|
    ensures forall j :: 0 <= j < |entries| ==> step(entries[j]).Ok?
    ensures (forall j :: i < j < |entries| ==> step(entries[j]).value.0 != step(entries[i]).value.0) ==>
              Lookup(Collect(entries, step, acc).value, step(entries[i]).value.0) == Some(step(entries[i]).value.1)
    decreases |entries|
  {
    CollectOkIffAllEntriesOk(entries, step, acc);
    var r := step(entries[0]);
    var acc' := Put(acc, r.value.0, r.value.1);
    assert forall j :: 1 <= j < |entries| ==> entries[1..][j - 1] == entries[j];
    var name := step(entries[i]).value.0;
    if forall j :: i < j < |entries| ==> step(entries[j]).value.0 != name {
      if i == 0 {
        CollectKeepsUnnamed(entries[1..], step, acc', name);
      } else {
        CollectLastEntryWins(entries[1..], step, acc', i - 1);
      }
    }
  }

  /** Every registered name was already in the accumulator or comes from some entry. */
  lemma {:induction false} CollectNamesComeFromEntries(entries: seq<(Key, Value)>, step: Step, acc: EventMap, name: string)
    requires Collect(entries, step, acc).Ok?
    requires Lookup(Collect(entries, step, acc).value, name).Some?
    ensures Lookup(acc, name).Some? ||
            exists i :: 0 <= i < |entries| && step(entries[i]).Ok? && step(entries[i]).value.0 == name
    decreases |entries|
  {
    if entries != [] {
      var r := step(entries[0]);
      var acc' := Put(acc, r.value.0, r.value.1);
      assert forall j :: 1 <= j < |entries| ==> entries[1..][j - 1] == entries[j];
      CollectNamesComeFromEntries(entries[1..], step, acc', name);
    }
  }
}
