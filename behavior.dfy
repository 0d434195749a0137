/**
 * The behaviour object attached to one table. Its settings (`field`,
 * `priority`, `events`) live in fields that the methods read, and
 * `GetTrashField` writes the resolved field name back into `field` so that
 * later calls skip the resolution.
 */
module Behavior {
  import opened Wrappers
  import opened Php
  import opened Events
  import opened TrashField
  import opened QueryFilter

  class TrashBehavior {
    /** The alias of the table the behaviour is attached to. */
    const alias: string
    /** The column names of that table's schema. */
    const columns: seq<string>

    /** The `field` setting; "" stands for null. */
    var field: string
    /** The `priority` setting. */
    var priority: Value
    /** The `events` setting. */
    var events: Value

    /**
     * Construction with the caller's settings; `configuredEvents` is None
     * when the caller gives no `events` setting.
     */
    constructor(alias: string, columns: seq<string>, field: string, priority: Value, configuredEvents: Option<Value>)
      ensures this.alias == alias && this.columns == columns
      ensures this.field == field && this.priority == priority
      ensures events == ConfiguredEvents(configuredEvents)
      ensures configuredEvents.None? || configuredEvents == Some(Arr([])) ==> events == DefaultEvents
      ensures configuredEvents.Some? && configuredEvents.value != Arr([]) ==> events == configuredEvents.value
    {
      this.alias := alias;
      this.columns := columns;
      this.field := field;
      this.priority := priority;
      events := ConfiguredEvents(configuredEvents);
    }

    /** `implementedEvents()`: the foreach over the `events` setting. */
    method ImplementedEvents() returns (r: Result<EventMap, EventError>)
      ensures r == EventsOf(events, priority)
    {
      if events == Bool(false) {
        return Ok([]);
      }
      var step := StepFor(priority);
      var entries := ToArray(events);
      ghost var want := EventsOf(events, priority);
      var acc: EventMap := [];
      var i := 0;
      while i < |entries|
        invariant 0 <= i <= |entries|
        invariant Collect(entries[i..], step, acc) == want
      {
        CollectUnfold(entries, i, step, acc);
        var named := step(entries[i]);
        if named.Err? {
          return Err(named.error);
        }
        acc := Put(acc, named.value.0, named.value.1);
        i := i + 1;
      }
      return Ok(acc);
    }

    /**
     * `getTrashField()`: resolves the field when none is configured, writes
     * the name back into the setting, and aliases it on request.
     */
    method GetTrashField(aliased: bool, global: string) returns (r: Result<string, FieldError>)
      modifies this
      ensures var res := Resolve(old(field), columns, global);
              (res.Err? ==> r == Err(FieldNotConfigured) && field == old(field)) &&
              (res.Ok? ==> field == res.value &&
                           r == Ok(if aliased then AliasField(alias, res.value) else res.value))
      ensures priority == old(priority) && events == old(events)
    {
      var f := field;
      if EmptyName(f) {
        var i := 0;
        while i < |Candidates|
          invariant 0 <= i <= |Candidates|
          invariant EmptyName(f) ==> forall j :: 0 <= j < i ==> Candidates[j] !in columns
        {
          if Candidates[i] in columns {
            assert i == 1 ==> Candidates[0] !in columns;
            f := Candidates[i];
            break;
          }
          i := i + 1;
        }
        assert Candidates == [DeletedColumn, TrashedColumn];
        assert !EmptyName(f) ==> f in columns && (f == DeletedColumn || (DeletedColumn !in columns && f == TrashedColumn));
        if EmptyName(f) {
          assert Candidates[0] !in columns && Candidates[1] !in columns;
          f := global;
        }
        if EmptyName(f) {
          return Err(FieldNotConfigured);
        }
        field := f;
      }
      if aliased {
        return Ok(AliasField(alias, f));
      }
      return Ok(f);
    }

    /** `beforeFind()` on a query: the aliased field decides whether `field IS NULL` is added. */
    method BeforeFind(q: Query, global: string) returns (r: Result<Query, FieldError>)
      modifies this
      ensures var res := Resolve(old(field), columns, global);
              (res.Err? ==> r == Err(FieldNotConfigured) && field == old(field)) &&
              (res.Ok? ==> field == res.value && r == Ok(QueryFilter.BeforeFind(q, AliasField(alias, res.value))))
      ensures priority == old(priority) && events == old(events)
    {
      var f := GetTrashField(true, global);
      if f.Err? {
        return Err(f.error);
      }
      return Ok(QueryFilter.BeforeFind(q, f.value));
    }

    /** The `onlyTrashed` finder. */
    method FindOnlyTrashed(q: Query, global: string) returns (r: Result<Query, FieldError>)
      modifies this
      ensures var res := Resolve(old(field), columns, global);
              (res.Err? ==> r == Err(FieldNotConfigured) && field == old(field)) &&
              (res.Ok? ==> field == res.value && r == Ok(OnlyTrashed(q, AliasField(alias, res.value))))
      ensures priority == old(priority) && events == old(events)
    {
      var f := GetTrashField(true, global);
      if f.Err? {
        return Err(f.error);
      }
      return Ok(OnlyTrashed(q, f.value));
    }

    /** The `withTrashed` finder; it does not need the field. */
    method FindWithTrashed(q: Query) returns (r: Query)
      ensures r == WithTrashed(q)
    {
      return q.(skipAddTrashCondition := true);
    }
  }
}
