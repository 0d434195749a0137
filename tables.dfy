/**
 * The state-changing operations of the behaviour, step by step, on a
 * mutable store: each method changes `data` and returns what the source
 * returns, and its postcondition ties both to the function of the old
 * store that specifies it (module Store), about which the lemmas of
 * modules TrashFacts and RestoreFacts are proved.
 */
module Tables {
  import opened Wrappers
  import Php
  import opened Store

  /** The event passed to the `Model.beforeDelete` listeners. */
  class DeleteEvent {
    var stopped: bool
    var result: Option<bool>
    /** Whether `Model.afterDelete` was dispatched with this deletion's entity and options. */
    var afterDeleteDispatched: bool

    constructor()
      ensures !stopped && result == None && !afterDeleteDispatched
    {
      stopped := false;
      result := None;
      afterDeleteDispatched := false;
    }
  }

  /** The options of a deletion, as far as the behaviour reads and writes them. */
  class DeleteOptions {
    /** The `purge` option, when given. */
    var purge: Option<Php.Value>
    /** The `muffin.trash.soft-delete` option. */
    var softDelete: bool

    constructor(purge: Option<Php.Value>)
      ensures this.purge == purge && !softDelete
    {
      this.purge := purge;
      softDelete := false;
    }
  }

  /** The tables of one connection, under a fixed schema and save oracle. */
  class Database {
    const schema: Schema
    const rejected: Rejections
    var data: Data

    constructor(schema: Schema, rejected: Rejections, data: Data)
      ensures this.schema == schema && this.rejected == rejected && this.data == data
    {
      this.schema := schema;
      this.rejected := rejected;
      this.data := data;
    }

    /** The host's save of an existing entity's trash field. */
    method Save(t: TableId, e: Entity) returns (saved: bool)
      requires t in schema
      modifies this
      ensures (data, saved) == Store.Save(schema, rejected, t, e, old(data))
    {
      var key := Extract(schema[t].primaryKey, e.values);
      if key.None? || (t, key.value) in rejected {
        return false;
      }
      data := data[t := SetTrashed(Rows(data, t), schema[t].primaryKey, key.value, e.trashed)];
      return true;
    }

    /** `trash($entity)`. */
    method Trash(t: TableId, e: Entity, now: Timestamp) returns (r: Result<bool, Failure>)
      requires SchemaOk(schema) && t in schema
      modifies this
      ensures (data, r) == Store.Trash(schema, rejected, now, t, e, old(data))
      decreases schema[t].rank, 2
    {
      var pk := schema[t].primaryKey;
      var p := 0;
      while p < |pk|
        invariant 0 <= p <= |pk|
        invariant forall q :: 0 <= q < p ==> pk[q] in e.values
      {
        if pk[p] !in e.values {
          assert Extract(pk, e.values).None?;
          return Err(MissingPrimaryKey);
        }
        p := p + 1;
      }
      if schema[t].cascadeOnTrash {
        var associations := schema[t].associations;
        var i := 0;
        while i < |associations|
          invariant 0 <= i <= |associations|
          invariant CascadeAll(schema, rejected, now, t, e, i, data) == CascadeAll(schema, rejected, now, t, e, 0, old(data))
        {
          if Cascades(schema, associations[i]) {
            var c := CascadeDelete(t, i, e, now);
            if c.Err? {
              return Err(c.error);
            }
          }
          i := i + 1;
        }
      }
      var saved := Save(t, e.(trashed := Some(now), dirty := true));
      return Ok(saved);
    }

    /**
     * The host's `cascadeDelete()` for association `i` of table `t`: each
     * active related row is deleted through its table, whose
     * `beforeDelete()` listener trashes it.
     */
    method CascadeDelete(t: TableId, i: nat, e: Entity, now: Timestamp) returns (r: Result<bool, Failure>)
      requires SchemaOk(schema) && t in schema && i < |schema[t].associations| && Cascades(schema, schema[t].associations[i])
      modifies this
      ensures (data, r) == Store.CascadeDelete(schema, rejected, now, t, i, e, old(data))
      decreases schema[t].rank, 0
    {
      var a := schema[t].associations[i];
      var binding := Extract(a.bindingKey, e.values);
      if binding.None? {
        return Ok(true);
      }
      var related := Related(Rows(data, a.target), a.foreignKey, binding.value, true);
      var j := 0;
      while j < |related|
        invariant 0 <= j <= |related|
        invariant DeleteEach(schema, rejected, now, a.target, related, j, data) ==
                  DeleteEach(schema, rejected, now, a.target, related, 0, old(data))
      {
        var before := data;
        var deleted := Trash(a.target, Loaded(related[j]), now);
        if deleted.Err? || !deleted.value {
          // The failed delete's transaction is rolled back.
          data := before;
          return deleted;
        }
        j := j + 1;
      }
      return Ok(true);
    }

    /** `beforeDelete()`: soft-deletes instead of deleting unless `purge` is true. */
    method BeforeDelete(event: DeleteEvent, t: TableId, e: Entity, options: DeleteOptions, now: Timestamp)
      returns (r: Result<(), Failure>)
      requires SchemaOk(schema) && t in schema
      modifies this, event, options
      ensures old(options.purge) == Some(Php.Bool(true)) ==>
                r == Ok(()) && data == old(data) && unchanged(event) && unchanged(options)
      ensures old(options.purge) != Some(Php.Bool(true)) ==>
                var (d, trashed) := Store.Trash(schema, rejected, now, t, e, old(data));
                data == d && event.stopped && options.purge == old(options.purge) &&
                (trashed.Err? ==> r == Err(trashed.error) && event.result == old(event.result) &&
                                  event.afterDeleteDispatched == old(event.afterDeleteDispatched) &&
                                  options.softDelete == old(options.softDelete)) &&
                (trashed == Ok(false) ==> r == Ok(()) && event.result == Some(false) &&
                                          event.afterDeleteDispatched == old(event.afterDeleteDispatched) &&
                                          options.softDelete == old(options.softDelete)) &&
                (trashed == Ok(true) ==> r == Ok(()) && event.result == Some(true) &&
                                         event.afterDeleteDispatched && options.softDelete)
    {
      if options.purge == Some(Php.Bool(true)) {
        return Ok(());
      }
      event.stopped := true;
      var trashed := Trash(t, e, now);
      if trashed.Err? {
        return Err(trashed.error);
      }
      if !trashed.value {
        event.result := Some(false);
        return Ok(());
      }
      options.softDelete := true;
      event.afterDeleteDispatched := true;
      event.result := Some(true);
      return Ok(());
    }

    /** `trashAll($conditions)`. */
    method TrashAll(t: TableId, cond: Row -> bool, now: Timestamp) returns (n: nat)
      modifies this
      ensures (data, n) == Store.TrashAll(t, cond, now, old(data))
    {
      n := CountWhere(Rows(data, t), cond);
      data := data[t := UpdateWhere(Rows(data, t), cond, Some(now))];
    }

    /** `emptyTrash()`. */
    method EmptyTrash(t: TableId) returns (n: nat)
      modifies this
      ensures (data, n) == Store.EmptyTrash(t, old(data))
    {
      n := CountTrashed(Rows(data, t));
      data := data[t := KeepActive(Rows(data, t))];
    }

    /** `restoreTrash()` without an entity. */
    method RestoreAllTrash(t: TableId) returns (n: nat)
      modifies this
      ensures (data, n) == RestoreAll(t, old(data))
    {
      n := CountTrashed(Rows(data, t));
      data := data[t := UpdateWhere(Rows(data, t), IsTrashed, None)];
    }

    /** `restoreTrash($entity)`: the restored entity, or None for false. */
    method RestoreTrash(t: TableId, e: Entity) returns (r: Result<Option<Entity>, Failure>)
      requires t in schema
      modifies this
      ensures (data, r) == RestoreEntity(schema, rejected, t, e, old(data))
    {
      if e.dirty {
        return Err(DirtyEntity);
      }
      if Extract(schema[t].primaryKey, e.values).None? {
        return Err(UpdateWithoutKey);
      }
      var cleared := e.(trashed := None, dirty := true);
      var saved := Save(t, cleared);
      return Ok(if saved then Some(cleared.(dirty := false)) else None);
    }

    /** `cascadingRestoreTrash()` without an entity: the total count. */
    method CascadingRestoreAllTrash(t: TableId) returns (n: nat)
      requires SchemaOk(schema) && t in schema
      modifies this
      ensures (data, n) == CascadingRestoreAll(schema, t, old(data))
      decreases schema[t].rank, 1
    {
      n := RestoreAllTrash(t);
      var associations := schema[t].associations;
      var i := 0;
      while i < |associations|
        invariant 0 <= i <= |associations|
        invariant RestoreAllAssociations(schema, t, i, data, n) == CascadingRestoreAll(schema, t, old(data))
      {
        if Cascades(schema, associations[i]) && n > 1 {
          var m := CascadingRestoreAllTrash(associations[i].target);
          n := n + m;
        }
        i := i + 1;
      }
    }

    /** `cascadingRestoreTrash($entity)`: the restored entity, or None for false. */
    method CascadingRestoreTrash(t: TableId, e: Entity) returns (r: Result<Option<Entity>, Failure>)
      requires SchemaOk(schema) && t in schema
      modifies this
      ensures (data, r) == CascadingRestore(schema, rejected, t, e, old(data))
      decreases schema[t].rank, 2
    {
      r := RestoreTrash(t, e);
      if r.Err? {
        return;
      }
      var result := r.value;
      var associations := schema[t].associations;
      var i := 0;
      while i < |associations|
        invariant 0 <= i <= |associations|
        invariant RestoreAssociations(schema, rejected, t, e, i, data, result) == CascadingRestore(schema, rejected, t, e, old(data))
      {
        if Cascades(schema, associations[i]) {
          var a := associations[i];
          var rows := match Extract(a.bindingKey, e.values)
                      case None => []
                      case Some(binding) => Related(Rows(data, a.target), a.foreignKey, binding, false);
          ghost var before := data;
          ghost var resultBefore := result;
          ghost var allOk := true;
          var j := 0;
          while j < |rows|
            invariant 0 <= j <= |rows|
            invariant RestoreEach(schema, rejected, a.target, rows, j, data, allOk) ==
                      RestoreEach(schema, rejected, a.target, rows, 0, before, true)
            invariant result == if allOk then resultBefore else None
          {
            var restored := CascadingRestoreTrash(a.target, Loaded(rows[j]));
            if restored.Err? {
              return Err(restored.error);
            }
            if restored.value.None? {
              result := None;
            }
            allOk := allOk && restored.value.Some?;
            j := j + 1;
          }
        }
        i := i + 1;
      }
      return Ok(result);
    }
  }
}
