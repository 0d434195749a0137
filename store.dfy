/**
 * The tables the behaviour works on, as an in-memory store, and what its
 * state-changing operations do to it, as functions of the store before the
 * call: `trash()` with its cascade into dependent associations,
 * `trashAll()`, `emptyTrash()`, `restoreTrash()` and
 * `cascadingRestoreTrash()`.
 *
 * Each table's trash field is taken as already resolved: a row carries the
 * field's value as `trashed`, None standing for NULL. Saving an entity is
 * the host's business; whether the host accepts a save is an oracle, the
 * set `rej` of (table, primary key) pairs whose saves it refuses. The
 * current time is the parameter `now`.
 */
module Store {
  import opened Wrappers

  type TableId = string
  type Timestamp = nat

  /** A stored row: its column values (absent = NULL) and its trash field. */
  datatype Row = Row(values: map<string, int>, trashed: Option<Timestamp>)

  /** An entity in memory: its values, its trash field and whether any field is dirty. */
  datatype Entity = Entity(values: map<string, int>, trashed: Option<Timestamp>, dirty: bool)

  datatype AssociationKind = HasOne | HasMany | BelongsTo | BelongsToMany

  /** An association of a source table, with the flags the cascade looks at. */
  datatype Association = Association(
    kind: AssociationKind,
    target: TableId,
    foreignKey: seq<string>,
    bindingKey: seq<string>,
    dependent: bool,
    cascadeCallbacks: bool,
    owningSide: bool)

  /**
   * A table: its primary-key columns, whether it carries the behaviour, the
   * behaviour's `cascadeOnTrash` setting, its associations in registration
   * order, and a rank that the cascade strictly decreases.
   */
  datatype Table = Table(
    primaryKey: seq<string>,
    hasTrash: bool,
    cascadeOnTrash: bool,
    associations: seq<Association>,
    rank: nat)

  type Schema = map<TableId, Table>
  type Data = map<TableId, seq<Row>>

  /** The saves the host refuses, by table and primary-key value. */
  type Rejections = set<(TableId, seq<int>)>

  /** The exceptions the operations raise. */
  datatype Failure =
    | MissingPrimaryKey  // `trash()` of an entity without a full primary key
    | DirtyEntity        // `restoreTrash()` of a dirty entity
    | UpdateWithoutKey   // the host's `save()` of a stored entity without a full primary key

  /** The rows of a table; a table that holds nothing has none. */
  function Rows(d: Data, t: TableId): seq<Row> {
    if t in d then d[t] else []
  }

  /** `$entity->extract($fields)` when none of the values is null. */
  function Extract(fields: seq<string>, values: map<string, int>): (r: Option<seq<int>>)
    ensures r.Some? <==> forall f :: f in fields ==> f in values
    ensures r.Some? ==> |r.value| == |fields| && forall i :: 0 <= i < |fields| ==> r.value[i] == values[fields[i]]
  {
    if fields == [] then Some([])
    else if fields[0] !in values then None
    else
      match Extract(fields[1..], values)
      case None => None
      case Some(rest) => Some([values[fields[0]]] + rest)
  }

  /** A row read from the database as an entity: clean. */
  function Loaded(row: Row): (e: Entity)
    ensures e.values == row.values && e.trashed == row.trashed && !e.dirty
  {
    Entity(row.values, row.trashed, false)
  }

  // ---------------------------------------------------------------------
  // The schema
  // ---------------------------------------------------------------------

  /**
   * `_isRecursable()`: the target carries the behaviour, the source is the
   * owning side, and the association is dependent with cascading callbacks.
   */
  predicate Recursable(s: Schema, a: Association) {
    a.target in s && s[a.target].hasTrash && a.owningSide && a.dependent && a.cascadeCallbacks
  }

  /** A HasOne or HasMany association the cascade follows. */
  predicate Cascades(s: Schema, a: Association) {
    (a.kind == HasOne || a.kind == HasMany) && Recursable(s, a)
  }

  /**
   * The cascade terminates: every association it follows leads to a table
   * of smaller rank, and its key lists pair up.
   */
  ghost predicate SchemaOk(s: Schema) {
    forall t, i :: t in s && 0 <= i < |s[t].associations| && Cascades(s, s[t].associations[i]) ==>
      s[s[t].associations[i].target].rank < s[t].rank &&
      |s[t].associations[i].foreignKey| == |s[t].associations[i].bindingKey|
  }

  // ---------------------------------------------------------------------
  // Row-level building blocks
  // ---------------------------------------------------------------------

  /** Does the row's primary key equal `key`? */
  predicate HasKey(pk: seq<string>, key: seq<int>, row: Row) {
    Extract(pk, row.values) == Some(key)
  }

  /** The host's UPDATE of the trash field of the rows with the given key. */
  function SetTrashed(rows: seq<Row>, pk: seq<string>, key: seq<int>, v: Option<Timestamp>): (r: seq<Row>)
    ensures |r| == |rows|
    ensures forall i :: 0 <= i < |rows| ==>
              r[i] == if HasKey(pk, key, rows[i]) then rows[i].(trashed := v) else rows[i]
  {
    if rows == [] then []
    else [if HasKey(pk, key, rows[0]) then rows[0].(trashed := v) else rows[0]] + SetTrashed(rows[1..], pk, key, v)
  }

  /**
   * `Table::save()` of an existing entity, as far as the trash field goes:
   * refused saves and entities without a full key change nothing and give
   * false; otherwise the entity's trash field is written to its row.
   */
  function Save(s: Schema, rej: Rejections, t: TableId, e: Entity, d: Data): (Data, bool)
    requires t in s
  {
    var key := Extract(s[t].primaryKey, e.values);
    if key.None? || (t, key.value) in rej then (d, false)
    else (d[t := SetTrashed(Rows(d, t), s[t].primaryKey, key.value, e.trashed)], true)
  }

  /**
   * The rows a query `fk = binding` selects, in table order; with
   * `activeOnly` the default `beforeFind()` condition `field IS NULL`
   * applies too.
   */
  function Related(rows: seq<Row>, fk: seq<string>, binding: seq<int>, activeOnly: bool): (r: seq<Row>)
    ensures forall x :: x in r <==> x in rows && Extract(fk, x.values) == Some(binding) && (activeOnly ==> x.trashed.None?)
  {
    if rows == [] then []
    else
      var rest := Related(rows[1..], fk, binding, activeOnly);
      if Extract(fk, rows[0].values) == Some(binding) && (activeOnly ==> rows[0].trashed.None?)
      then [rows[0]] + rest
      else rest
  }

  // ---------------------------------------------------------------------
  // trash() and its cascade
  // ---------------------------------------------------------------------

  /**
   * `trash()`: a missing primary-key value raises; otherwise, if
   * `cascadeOnTrash` is set, each dependent association is cascaded into,
   * then the trash field is set to `now` and the save's outcome returned.
   */
  function Trash(s: Schema, rej: Rejections, now: Timestamp, t: TableId, e: Entity, d: Data): (Data, Result<bool, Failure>)
    requires SchemaOk(s) && t in s
    decreases s[t].rank, 2
  {
    if Extract(s[t].primaryKey, e.values).None? then (d, Err(MissingPrimaryKey))
    else
      var (d1, c) := if s[t].cascadeOnTrash then CascadeAll(s, rej, now, t, e, 0, d) else (d, Ok(true));
      if c.Err? then (d1, Err(c.error))
      else
        var (d2, saved) := Save(s, rej, t, e.(trashed := Some(now), dirty := true), d1);
        (d2, Ok(saved))
  }

  /**
   * The loop of `trash()` over the HasOne and HasMany associations from
   * index `i` on: each recursable one is cascaded into; its boolean outcome
   * is ignored, an exception propagates.
   */
  function CascadeAll(s: Schema, rej: Rejections, now: Timestamp, t: TableId, e: Entity, i: nat, d: Data): (Data, Result<bool, Failure>)
    requires SchemaOk(s) && t in s
    decreases s[t].rank, 1, |s[t].associations| - i
  {
    if i >= |s[t].associations| then (d, Ok(true))
    else if !Cascades(s, s[t].associations[i]) then CascadeAll(s, rej, now, t, e, i + 1, d)
    else
      var (d1, c) := CascadeDelete(s, rej, now, t, i, e, d);
      if c.Err? then (d1, c) else CascadeAll(s, rej, now, t, e, i + 1, d1)
  }

  /**
   * The host's `cascadeDelete()` for a dependent association with
   * cascading callbacks: nothing to do when a binding value is null;
   * otherwise each active related row is deleted through the target table,
   * whose `beforeDelete()` trashes it, stopping at the first failure.
   */
  function CascadeDelete(s: Schema, rej: Rejections, now: Timestamp, t: TableId, i: nat, e: Entity, d: Data): (Data, Result<bool, Failure>)
    requires SchemaOk(s) && t in s && i < |s[t].associations| && Cascades(s, s[t].associations[i])
    decreases s[t].rank, 0
  {
    var a := s[t].associations[i];
    match Extract(a.bindingKey, e.values)
    case None => (d, Ok(true))
    case Some(binding) => DeleteEach(s, rej, now, a.target, Related(Rows(d, a.target), a.foreignKey, binding, true), 0, d)
  }

  /**
   * The loop over the related rows from index `j` on: each is trashed as a
   * clean entity through the host's `delete()`, which runs in its own
   * transaction, so a delete that raises or reports false leaves the store
   * as it was before that delete, and the loop stops there.
   */
  function DeleteEach(s: Schema, rej: Rejections, now: Timestamp, c: TableId, rows: seq<Row>, j: nat, d: Data): (Data, Result<bool, Failure>)
    requires SchemaOk(s) && c in s
    decreases s[c].rank, 3, |rows| - j
  {
    if j >= |rows| then (d, Ok(true))
    else
      var (d1, r) := Trash(s, rej, now, c, Loaded(rows[j]), d);
      if r.Err? || !r.value then (d, r) else DeleteEach(s, rej, now, c, rows, j + 1, d1)
  }

  // ---------------------------------------------------------------------
  // Bulk operations
  // ---------------------------------------------------------------------

  /** The number of rows satisfying `cond`. */
  function CountWhere(rows: seq<Row>, cond: Row -> bool): (n: nat)
    ensures n <= |rows|
  {
    if rows == [] then 0 else (if cond(rows[0]) then 1 else 0) + CountWhere(rows[1..], cond)
  }

  /** Whether the row is trashed. */
  predicate IsTrashed(row: Row) {
    row.trashed.Some?
  }

  /** The number of trashed rows. */
  function CountTrashed(rows: seq<Row>): nat {
    CountWhere(rows, IsTrashed)
  }

  /** The UPDATE that sets the trash field of the rows satisfying `cond` to `v`. */
  function UpdateWhere(rows: seq<Row>, cond: Row -> bool, v: Option<Timestamp>): (r: seq<Row>)
    ensures |r| == |rows|
    ensures forall i :: 0 <= i < |rows| ==> r[i] == if cond(rows[i]) then rows[i].(trashed := v) else rows[i]
  {
    if rows == [] then []
    else [if cond(rows[0]) then rows[0].(trashed := v) else rows[0]] + UpdateWhere(rows[1..], cond, v)
  }

  /** The DELETE of the trashed rows: the active ones stay, in order. */
  function KeepActive(rows: seq<Row>): (r: seq<Row>)
    ensures forall x :: x in r <==> x in rows && !IsTrashed(x)
  {
    if rows == [] then []
    else if IsTrashed(rows[0]) then KeepActive(rows[1..])
    else [rows[0]] + KeepActive(rows[1..])
  }

  /** `trashAll($conditions)`: every row satisfying the conditions gets `now`; the count is returned. */
  function TrashAll(t: TableId, cond: Row -> bool, now: Timestamp, d: Data): (Data, nat) {
    (d[t := UpdateWhere(Rows(d, t), cond, Some(now))], CountWhere(Rows(d, t), cond))
  }

  /** `emptyTrash()`: the trashed rows are deleted for good; the count is returned. */
  function EmptyTrash(t: TableId, d: Data): (Data, nat) {
    (d[t := KeepActive(Rows(d, t))], CountTrashed(Rows(d, t)))
  }

  /** `restoreTrash()` without an entity: every trashed row is restored; the count is returned. */
  function RestoreAll(t: TableId, d: Data): (Data, nat) {
    (d[t := UpdateWhere(Rows(d, t), IsTrashed, None)], CountTrashed(Rows(d, t)))
  }

  // ---------------------------------------------------------------------
  // Restoring
  // ---------------------------------------------------------------------

  /**
   * `restoreTrash($entity)`: a dirty entity raises; otherwise the trash
   * field is cleared and saved, giving the saved (now clean) entity or
   * nothing when the save failed. The host's `save()` of a stored entity
   * raises when a primary-key value is missing, since an update needs all
   * of them.
   */
  function RestoreEntity(s: Schema, rej: Rejections, t: TableId, e: Entity, d: Data): (Data, Result<Option<Entity>, Failure>)
    requires t in s
  {
    if e.dirty then (d, Err(DirtyEntity))
    else if Extract(s[t].primaryKey, e.values).None? then (d, Err(UpdateWithoutKey))
    else
      var e' := e.(trashed := None, dirty := true);
      var (d1, saved) := Save(s, rej, t, e', d);
      (d1, Ok(if saved then Some(e'.(dirty := false)) else None))
  }

  /**
   * `cascadingRestoreTrash()` without an entity: restore all of the table,
   * then follow each recursable association while the running count is
   * above one, adding up the counts.
   */
  function CascadingRestoreAll(s: Schema, t: TableId, d: Data): (Data, nat)
    requires SchemaOk(s) && t in s
    decreases s[t].rank, 1
  {
    var (d1, n) := RestoreAll(t, d);
    RestoreAllAssociations(s, t, 0, d1, n)
  }

  /** The association loop of the bulk mode from index `i` on, with the running count `result`. */
  function RestoreAllAssociations(s: Schema, t: TableId, i: nat, d: Data, result: nat): (Data, nat)
    requires SchemaOk(s) && t in s
    decreases s[t].rank, 0, |s[t].associations| - i
  {
    if i >= |s[t].associations| then (d, result)
    else if Cascades(s, s[t].associations[i]) && result > 1 then
      var (d1, m) := CascadingRestoreAll(s, s[t].associations[i].target, d);
      RestoreAllAssociations(s, t, i + 1, d1, result + m)
    else RestoreAllAssociations(s, t, i + 1, d, result)
  }

  /**
   * `cascadingRestoreTrash($entity)`: restore the entity, then for each
   * recursable association restore every related row, trashed or not, with
   * its own dependants; the outcome is the restored entity, or nothing when
   * the entity's save or any related restore failed.
   */
  function CascadingRestore(s: Schema, rej: Rejections, t: TableId, e: Entity, d: Data): (Data, Result<Option<Entity>, Failure>)
    requires SchemaOk(s) && t in s
    decreases s[t].rank, 2
  {
    var (d1, r) := RestoreEntity(s, rej, t, e, d);
    if r.Err? then (d1, r) else RestoreAssociations(s, rej, t, e, 0, d1, r.value)
  }

  /** The association loop of the entity mode from index `i` on, with the result so far. */
  function RestoreAssociations(s: Schema, rej: Rejections, t: TableId, e: Entity, i: nat, d: Data, result: Option<Entity>)
    : (Data, Result<Option<Entity>, Failure>)
    requires SchemaOk(s) && t in s
    decreases s[t].rank, 1, |s[t].associations| - i
  {
    if i >= |s[t].associations| then (d, Ok(result))
    else if !Cascades(s, s[t].associations[i]) then RestoreAssociations(s, rej, t, e, i + 1, d, result)
    else
      var a := s[t].associations[i];
      var rows := match Extract(a.bindingKey, e.values)
                  case None => []
                  case Some(binding) => Related(Rows(d, a.target), a.foreignKey, binding, false);
      var (d1, ok) := RestoreEach(s, rej, a.target, rows, 0, d, true);
      if ok.Err? then (d1, Err(ok.error))
      else RestoreAssociations(s, rej, t, e, i + 1, d1, if ok.value then result else None)
  }

  /** The loop over related rows from index `j` on; `allOk` turns false at the first failed restore. */
  function RestoreEach(s: Schema, rej: Rejections, c: TableId, rows: seq<Row>, j: nat, d: Data, allOk: bool)
    : (Data, Result<bool, Failure>)
    requires SchemaOk(s) && c in s
    decreases s[c].rank, 3, |rows| - j
  {
    if j >= |rows| then (d, Ok(allOk))
    else
      var (d1, r) := CascadingRestore(s, rej, c, Loaded(rows[j]), d);
      if r.Err? then (d1, Err(r.error))
      else RestoreEach(s, rej, c, rows, j + 1, d1, allOk && r.value.Some?)
  }
}
