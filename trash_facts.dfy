/**
 * What `trash()` and the bulk operations guarantee about the store: rows
 * are never lost or rewritten, a trashed row stays trashed, the operation
 * returns exactly the outcome of the save once the entity has a key, and
 * the cascade reaches every row related through a dependent association.
 */
module TrashFacts {
  import opened Wrappers
  import opened Store

  /** No row appears, disappears, moves, or changes its values. */
  ghost predicate SameShape(d: Data, d': Data) {
    forall t :: |Rows(d', t)| == |Rows(d, t)| &&
      forall k :: 0 <= k < |Rows(d, t)| ==> Rows(d', t)[k].values == Rows(d, t)[k].values
  }

  /**
   * Same shape, and every row either keeps its trash field or now holds
   * `now` in it: a trashed row stays trashed.
   */
  ghost predicate OnlyMarks(d: Data, d': Data, now: Timestamp) {
    SameShape(d, d') &&
    forall t, k :: 0 <= k < |Rows(d, t)| ==>
      Rows(d', t)[k].trashed == Rows(d, t)[k].trashed || Rows(d', t)[k].trashed == Some(now)
  }

  /** Every row of every table carries its full primary key. */
  ghost predicate Keyed(s: Schema, d: Data) {
    forall t, k :: t in s && 0 <= k < |Rows(d, t)| ==> Extract(s[t].primaryKey, Rows(d, t)[k].values).Some?
  }

  lemma OnlyMarksTransitive(d: Data, d1: Data, d2: Data, now: Timestamp)
    requires OnlyMarks(d, d1, now) && OnlyMarks(d1, d2, now)
    ensures OnlyMarks(d, d2, now)
  {
  }

  lemma KeyedKept(s: Schema, d: Data, d': Data)
    requires Keyed(s, d) && SameShape(d, d')
    ensures Keyed(s, d')
  {
    forall t, k | t in s && 0 <= k < |Rows(d', t)|
      ensures Extract(s[t].primaryKey, Rows(d', t)[k].values).Some?
    {
      assert Rows(d', t)[k].values == Rows(d, t)[k].values;
    }
  }

  /** Saving the trash timestamp `now` only marks rows with `now`. */
  lemma SaveOnlyMarks(s: Schema, rej: Rejections, t: TableId, e: Entity, d: Data, now: Timestamp)
    requires t in s && e.trashed == Some(now)
    ensures OnlyMarks(d, Save(s, rej, t, e, d).0, now)
  {
  }

  /** A successful save leaves every row with the entity's key holding the entity's trash field. */
  lemma SaveWritesKeyedRows(s: Schema, rej: Rejections, t: TableId, e: Entity, d: Data)
    requires t in s
    requires Save(s, rej, t, e, d).1
    ensures Extract(s[t].primaryKey, e.values).Some?
    ensures (t, Extract(s[t].primaryKey, e.values).value) !in rej
    ensures forall k :: 0 <= k < |Rows(Save(s, rej, t, e, d).0, t)| &&
                        HasKey(s[t].primaryKey, Extract(s[t].primaryKey, e.values).value, Rows(d, t)[k]) ==>
                        Rows(Save(s, rej, t, e, d).0, t)[k].trashed == e.trashed
  {
  }

  // ---------------------------------------------------------------------
  // trash() never untrashes and never rewrites values
  // ---------------------------------------------------------------------

  lemma {:induction false} TrashOnlyMarks(s: Schema, rej: Rejections, now: Timestamp, t: TableId, e: Entity, d: Data)
    requires SchemaOk(s) && t in s
    ensures OnlyMarks(d, Trash(s, rej, now, t, e, d).0, now)
    decreases s[t].rank, 2
  {
    if Extract(s[t].primaryKey, e.values).Some? {
      var (d1, c) := if s[t].cascadeOnTrash then CascadeAll(s, rej, now, t, e, 0, d) else (d, Ok(true));
      if s[t].cascadeOnTrash {
        CascadeAllOnlyMarks(s, rej, now, t, e, 0, d);
      }
      if c.Ok? {
        SaveOnlyMarks(s, rej, t, e.(trashed := Some(now), dirty := true), d1, now);
        OnlyMarksTransitive(d, d1, Save(s, rej, t, e.(trashed := Some(now), dirty := true), d1).0, now);
      }
    }
  }

  lemma {:induction false} CascadeAllOnlyMarks(s: Schema, rej: Rejections, now: Timestamp, t: TableId, e: Entity, i: nat, d: Data)
    requires SchemaOk(s) && t in s
    ensures OnlyMarks(d, CascadeAll(s, rej, now, t, e, i, d).0, now)
    decreases s[t].rank, 1, |s[t].associations| - i
  {
    if i < |s[t].associations| {
      if !Cascades(s, s[t].associations[i]) {
        CascadeAllOnlyMarks(s, rej, now, t, e, i + 1, d);
      } else {
        var (d1, c) := CascadeDelete(s, rej, now, t, i, e, d);
        CascadeDeleteOnlyMarks(s, rej, now, t, i, e, d);
        if c.Ok? {
          CascadeAllOnlyMarks(s, rej, now, t, e, i + 1, d1);
          OnlyMarksTransitive(d, d1, CascadeAll(s, rej, now, t, e, i + 1, d1).0, now);
        }
      }
    }
  }

  lemma {:induction false} CascadeDeleteOnlyMarks(s: Schema, rej: Rejections, now: Timestamp, t: TableId, i: nat, e: Entity, d: Data)
    requires SchemaOk(s) && t in s && i < |s[t].associations| && Cascades(s, s[t].associations[i])
    ensures OnlyMarks(d, CascadeDelete(s, rej, now, t, i, e, d).0, now)
    decreases s[t].rank, 0
  {
    var a := s[t].associations[i];
    if Extract(a.bindingKey, e.values).Some? {
      DeleteEachOnlyMarks(s, rej, now, a.target,
        Related(Rows(d, a.target), a.foreignKey, Extract(a.bindingKey, e.values).value, true), 0, d);
    }
  }

  lemma {:induction false} DeleteEachOnlyMarks(s: Schema, rej: Rejections, now: Timestamp, c: TableId, rows: seq<Row>, j: nat, d: Data)
    requires SchemaOk(s) && c in s
    ensures OnlyMarks(d, DeleteEach(s, rej, now, c, rows, j, d).0, now)
    decreases s[c].rank, 3, |rows| - j
  {
    if j < |rows| {
      var (d1, r) := Trash(s, rej, now, c, Loaded(rows[j]), d);
      TrashOnlyMarks(s, rej, now, c, Loaded(rows[j]), d);
      if r.Ok? && r.value {
        DeleteEachOnlyMarks(s, rej, now, c, rows, j + 1, d1);
        OnlyMarksTransitive(d, d1, DeleteEach(s, rej, now, c, rows, j + 1, d1).0, now);
      }
    }
  }

  // ---------------------------------------------------------------------
  // With keyed rows, trash() returns the save's outcome
  // ---------------------------------------------------------------------

  /**
   * Once the entity has its full primary key and the stored rows have
   * theirs, `trash()` raises nothing and returns exactly whether the host
   * accepted the save; the cascade's own outcome does not matter.
   */
  lemma {:induction false} TrashReturnsSaveOutcome(s: Schema, rej: Rejections, now: Timestamp, t: TableId, e: Entity, d: Data)
    requires SchemaOk(s) && t in s && Keyed(s, d)
    requires Extract(s[t].primaryKey, e.values).Some?
    ensures Trash(s, rej, now, t, e, d).1 == Ok((t, Extract(s[t].primaryKey, e.values).value) !in rej)
    decreases s[t].rank, 2
  {
    if s[t].cascadeOnTrash {
      CascadeAllRaisesNothing(s, rej, now, t, e, 0, d);
    }
  }

  lemma {:induction false} CascadeAllRaisesNothing(s: Schema, rej: Rejections, now: Timestamp, t: TableId, e: Entity, i: nat, d: Data)
    requires SchemaOk(s) && t in s && Keyed(s, d)
    ensures CascadeAll(s, rej, now, t, e, i, d).1.Ok?
    decreases s[t].rank, 1, |s[t].associations| - i
  {
    if i < |s[t].associations| {
      if !Cascades(s, s[t].associations[i]) {
        CascadeAllRaisesNothing(s, rej, now, t, e, i + 1, d);
      } else {
        var (d1, c) := CascadeDelete(s, rej, now, t, i, e, d);
        CascadeDeleteRaisesNothing(s, rej, now, t, i, e, d);
        CascadeDeleteOnlyMarks(s, rej, now, t, i, e, d);
        KeyedKept(s, d, d1);
        CascadeAllRaisesNothing(s, rej, now, t, e, i + 1, d1);
      }
    }
  }

  lemma {:induction false} CascadeDeleteRaisesNothing(s: Schema, rej: Rejections, now: Timestamp, t: TableId, i: nat, e: Entity, d: Data)
    requires SchemaOk(s) && t in s && i < |s[t].associations| && Cascades(s, s[t].associations[i])
    requires Keyed(s, d)
    ensures CascadeDelete(s, rej, now, t, i, e, d).1.Ok?
    decreases s[t].rank, 0
  {
    var a := s[t].associations[i];
    if Extract(a.bindingKey, e.values).Some? {
      var rows := Related(Rows(d, a.target), a.foreignKey, Extract(a.bindingKey, e.values).value, true);
      forall j | 0 <= j < |rows|
        ensures Extract(s[a.target].primaryKey, rows[j].values).Some?
      {
        assert rows[j] in rows;
        var k :| 0 <= k < |Rows(d, a.target)| && Rows(d, a.target)[k] == rows[j];
      }
      DeleteEachRaisesNothing(s, rej, now, a.target, rows, 0, d);
    }
  }

  lemma {:induction false} DeleteEachRaisesNothing(s: Schema, rej: Rejections, now: Timestamp, c: TableId, rows: seq<Row>, j: nat, d: Data)
    requires SchemaOk(s) && c in s && Keyed(s, d)
    requires forall j' :: 0 <= j' < |rows| ==> Extract(s[c].primaryKey, rows[j'].values).Some?
    ensures DeleteEach(s, rej, now, c, rows, j, d).1.Ok?
    decreases s[c].rank, 3, |rows| - j
  {
    if j < |rows| {
      var (d1, r) := Trash(s, rej, now, c, Loaded(rows[j]), d);
      TrashReturnsSaveOutcome(s, rej, now, c, Loaded(rows[j]), d);
      TrashOnlyMarks(s, rej, now, c, Loaded(rows[j]), d);
      KeyedKept(s, d, d1);
      if r.value {
        DeleteEachRaisesNothing(s, rej, now, c, rows, j + 1, d1);
      }
    }
  }

  // ---------------------------------------------------------------------
  // The trashed entity and the rows the cascade reaches
  // ---------------------------------------------------------------------

  /** After a `trash()` that returned true, the entity's rows carry the timestamp `now`. */
  lemma TrashMarksEntityRows(s: Schema, rej: Rejections, now: Timestamp, t: TableId, e: Entity, d: Data)
    requires SchemaOk(s) && t in s
    requires Trash(s, rej, now, t, e, d).1 == Ok(true)
    ensures Extract(s[t].primaryKey, e.values).Some?
    ensures forall k :: 0 <= k < |Rows(Trash(s, rej, now, t, e, d).0, t)| &&
                        HasKey(s[t].primaryKey, Extract(s[t].primaryKey, e.values).value, Rows(Trash(s, rej, now, t, e, d).0, t)[k]) ==>
                        Rows(Trash(s, rej, now, t, e, d).0, t)[k].trashed == Some(now)
  {
    var (d1, c) := if s[t].cascadeOnTrash then CascadeAll(s, rej, now, t, e, 0, d) else (d, Ok(true));
    if s[t].cascadeOnTrash {
      CascadeAllOnlyMarks(s, rej, now, t, e, 0, d);
    }
    var e' := e.(trashed := Some(now), dirty := true);
    SaveWritesKeyedRows(s, rej, t, e', d1);
    SaveOnlyMarks(s, rej, t, e', d1, now);
  }

  /**
   * With every save accepted, the loop over related rows trashes every row
   * that shares a primary key with one of the rows still to process.
   */
  lemma {:induction false} DeleteEachReachesAll(s: Schema, now: Timestamp, c: TableId, rows: seq<Row>, j: nat, d: Data)
    requires SchemaOk(s) && c in s && Keyed(s, d)
    requires forall j' :: 0 <= j' < |rows| ==> Extract(s[c].primaryKey, rows[j'].values).Some?
    ensures DeleteEach(s, {}, now, c, rows, j, d).1 == Ok(true)
    ensures forall j', k :: j <= j' < |rows| && 0 <= k < |Rows(d, c)| &&
                            HasKey(s[c].primaryKey, Extract(s[c].primaryKey, rows[j'].values).value, Rows(d, c)[k]) ==>
                            k < |Rows(DeleteEach(s, {}, now, c, rows, j, d).0, c)| && IsTrashed(Rows(DeleteEach(s, {}, now, c, rows, j, d).0, c)[k])
    decreases |rows| - j
  {
    if j < |rows| {
      var e := Loaded(rows[j]);
      var (d1, r) := Trash(s, {}, now, c, e, d);
      TrashReturnsSaveOutcome(s, {}, now, c, e, d);
      TrashOnlyMarks(s, {}, now, c, e, d);
      TrashMarksEntityRows(s, {}, now, c, e, d);
      KeyedKept(s, d, d1);
      DeleteEachReachesAll(s, now, c, rows, j + 1, d1);
      var d2 := DeleteEach(s, {}, now, c, rows, j + 1, d1).0;
      DeleteEachOnlyMarks(s, {}, now, c, rows, j + 1, d1);
      forall j', k | j <= j' < |rows| && 0 <= k < |Rows(d, c)| &&
                     HasKey(s[c].primaryKey, Extract(s[c].primaryKey, rows[j'].values).value, Rows(d, c)[k])
        ensures IsTrashed(Rows(d2, c)[k])
      {
        assert Rows(d1, c)[k].values == Rows(d, c)[k].values;
        if j' == j {
          assert IsTrashed(Rows(d1, c)[k]);
        }
      }
    }
  }

  /**
   * With every save accepted, the loop of `trash()` over associations from
   * `i` on trashes every row related to the entity through a recursable
   * HasOne or HasMany association.
   */
  lemma {:induction false} CascadeAllReachesRelated(s: Schema, now: Timestamp, t: TableId, e: Entity, i: nat, d: Data)
    requires SchemaOk(s) && t in s && Keyed(s, d)
    ensures forall i', k :: i <= i' < |s[t].associations| && Cascades(s, s[t].associations[i']) &&
                            Extract(s[t].associations[i'].bindingKey, e.values).Some? &&
                            0 <= k < |Rows(d, s[t].associations[i'].target)| &&
                            Extract(s[t].associations[i'].foreignKey, Rows(d, s[t].associations[i'].target)[k].values) ==
                              Extract(s[t].associations[i'].bindingKey, e.values) ==>
                            k < |Rows(CascadeAll(s, {}, now, t, e, i, d).0, s[t].associations[i'].target)| &&
                            IsTrashed(Rows(CascadeAll(s, {}, now, t, e, i, d).0, s[t].associations[i'].target)[k])
    decreases |s[t].associations| - i
  {
    if i < |s[t].associations| {
      var a := s[t].associations[i];
      var d1 := if Cascades(s, a) then CascadeDelete(s, {}, now, t, i, e, d).0 else d;
      if Cascades(s, a) {
        CascadeDeleteRaisesNothing(s, {}, now, t, i, e, d);
        CascadeDeleteOnlyMarks(s, {}, now, t, i, e, d);
        KeyedKept(s, d, d1);
        if Extract(a.bindingKey, e.values).Some? {
          CascadeDeleteReachesRelated(s, now, t, i, e, d);
        }
      }
      CascadeAllReachesRelated(s, now, t, e, i + 1, d1);
      var d2 := CascadeAll(s, {}, now, t, e, i + 1, d1).0;
      CascadeAllOnlyMarks(s, {}, now, t, e, i + 1, d1);
      assert CascadeAll(s, {}, now, t, e, i, d).0 == d2;
      forall i', k | i <= i' < |s[t].associations| && Cascades(s, s[t].associations[i']) &&
                     Extract(s[t].associations[i'].bindingKey, e.values).Some? &&
                     0 <= k < |Rows(d, s[t].associations[i'].target)| &&
                     Extract(s[t].associations[i'].foreignKey, Rows(d, s[t].associations[i'].target)[k].values) ==
                       Extract(s[t].associations[i'].bindingKey, e.values)
        ensures IsTrashed(Rows(d2, s[t].associations[i'].target)[k])
      {
        var u := s[t].associations[i'].target;
        assert Rows(d1, u)[k].values == Rows(d, u)[k].values;
        if i' == i {
          assert IsTrashed(Rows(d1, u)[k]);
        }
      }
    }
  }

  /** One association: every row related to the entity ends up trashed. */
  lemma CascadeDeleteReachesRelated(s: Schema, now: Timestamp, t: TableId, i: nat, e: Entity, d: Data)
    requires SchemaOk(s) && t in s && Keyed(s, d)
    requires i < |s[t].associations| && Cascades(s, s[t].associations[i])
    requires Extract(s[t].associations[i].bindingKey, e.values).Some?
    ensures forall k :: 0 <= k < |Rows(d, s[t].associations[i].target)| &&
                        Extract(s[t].associations[i].foreignKey, Rows(d, s[t].associations[i].target)[k].values) ==
                          Extract(s[t].associations[i].bindingKey, e.values) ==>
                        k < |Rows(CascadeDelete(s, {}, now, t, i, e, d).0, s[t].associations[i].target)| &&
                        IsTrashed(Rows(CascadeDelete(s, {}, now, t, i, e, d).0, s[t].associations[i].target)[k])
  {
    var a := s[t].associations[i];
    var c := a.target;
    var rows := Related(Rows(d, c), a.foreignKey, Extract(a.bindingKey, e.values).value, true);
    forall j | 0 <= j < |rows|
      ensures Extract(s[c].primaryKey, rows[j].values).Some?
    {
      assert rows[j] in rows;
      var k :| 0 <= k < |Rows(d, c)| && Rows(d, c)[k] == rows[j];
    }
    DeleteEachReachesAll(s, now, c, rows, 0, d);
    DeleteEachOnlyMarks(s, {}, now, c, rows, 0, d);
    var d' := DeleteEach(s, {}, now, c, rows, 0, d).0;
    forall k | 0 <= k < |Rows(d, c)| && Extract(a.foreignKey, Rows(d, c)[k].values) == Extract(a.bindingKey, e.values)
      ensures IsTrashed(Rows(d', c)[k])
    {
      var x := Rows(d, c)[k];
      if !IsTrashed(x) {
        assert x in rows;
        var j :| 0 <= j < |rows| && rows[j] == x;
        assert HasKey(s[c].primaryKey, Extract(s[c].primaryKey, rows[j].values).value, x);
      }
    }
  }

  /**
   * The cascade of `trash()`: with every save accepted, trashing an entity
   * of a table with `cascadeOnTrash` trashes every row that is related to
   * it through a recursable HasOne or HasMany association, and the entity's
   * own rows.
   */
  lemma TrashReachesRelatedRows(s: Schema, now: Timestamp, t: TableId, e: Entity, d: Data, i: nat, k: nat)
    requires SchemaOk(s) && t in s && Keyed(s, d) && s[t].cascadeOnTrash
    requires Extract(s[t].primaryKey, e.values).Some?
    requires i < |s[t].associations| && Cascades(s, s[t].associations[i])
    requires Extract(s[t].associations[i].bindingKey, e.values).Some?
    requires k < |Rows(d, s[t].associations[i].target)|
    requires Extract(s[t].associations[i].foreignKey, Rows(d, s[t].associations[i].target)[k].values) ==
               Extract(s[t].associations[i].bindingKey, e.values)
    ensures Trash(s, {}, now, t, e, d).1 == Ok(true)
    ensures k < |Rows(Trash(s, {}, now, t, e, d).0, s[t].associations[i].target)|
    ensures IsTrashed(Rows(Trash(s, {}, now, t, e, d).0, s[t].associations[i].target)[k])
  {
    TrashReturnsSaveOutcome(s, {}, now, t, e, d);
    CascadeAllReachesRelated(s, now, t, e, 0, d);
    var d1 := CascadeAll(s, {}, now, t, e, 0, d).0;
    CascadeAllRaisesNothing(s, {}, now, t, e, 0, d);
    SaveOnlyMarks(s, {}, t, e.(trashed := Some(now), dirty := true), d1, now);
  }

  /** `trash()` of an entity without its full primary key raises before any change. */
  lemma TrashWithoutKeyRaises(s: Schema, rej: Rejections, now: Timestamp, t: TableId, e: Entity, d: Data)
    requires SchemaOk(s) && t in s
    requires exists f :: f in s[t].primaryKey && f !in e.values
    ensures Trash(s, rej, now, t, e, d) == (d, Err(MissingPrimaryKey))
  {
  }

  // ---------------------------------------------------------------------
  // Bulk operations
  // ---------------------------------------------------------------------

  lemma {:induction false} KeepActiveCount(rows: seq<Row>)
    ensures |KeepActive(rows)| + CountTrashed(rows) == |rows|
  {
    if rows != [] {
      KeepActiveCount(rows[1..]);
    }
  }

  /**
   * `emptyTrash()` deletes exactly the trashed rows: the active rows stay,
   * no trashed row is left, the count is the number of rows removed, and
   * other tables are untouched.
   */
  lemma EmptyTrashRemovesExactlyTrashed(t: TableId, d: Data)
    ensures forall x :: x in Rows(EmptyTrash(t, d).0, t) <==> x in Rows(d, t) && !IsTrashed(x)
    ensures |Rows(EmptyTrash(t, d).0, t)| + EmptyTrash(t, d).1 == |Rows(d, t)|
    ensures forall u :: u != t ==> Rows(EmptyTrash(t, d).0, u) == Rows(d, u)
  {
    KeepActiveCount(Rows(d, t));
  }

  lemma {:induction false} CountAfterUpdate(rows: seq<Row>, cond: Row -> bool, now: Timestamp)
    ensures CountTrashed(UpdateWhere(rows, cond, Some(now))) ==
            CountWhere(rows, (x: Row) => cond(x) || IsTrashed(x))
  {
    if rows != [] {
      CountAfterUpdate(rows[1..], cond, now);
      assert UpdateWhere(rows, cond, Some(now))[1..] == UpdateWhere(rows[1..], cond, Some(now));
    }
  }

  /**
   * `trashAll()` then `restoreTrash()`: the restore counts every row that
   * was trashed before or matched the conditions, and afterwards every row
   * of the table is active with its values unchanged.
   */
  lemma TrashAllThenRestoreAll(t: TableId, cond: Row -> bool, now: Timestamp, d: Data)
    ensures var (d1, _) := TrashAll(t, cond, now, d);
            var (d2, n) := RestoreAll(t, d1);
            n == CountWhere(Rows(d, t), (x: Row) => cond(x) || IsTrashed(x)) &&
            |Rows(d2, t)| == |Rows(d, t)| &&
            forall k :: 0 <= k < |Rows(d, t)| ==> Rows(d2, t)[k] == Rows(d, t)[k].(trashed := None)
  {
    CountAfterUpdate(Rows(d, t), cond, now);
  }

  lemma {:induction false} CountWhereConcat(a: seq<Row>, b: seq<Row>, cond: Row -> bool)
    ensures CountWhere(a + b, cond) == CountWhere(a, cond) + CountWhere(b, cond)
    decreases |a|
  {
    if a != [] {
      assert (a + b)[0] == a[0] && (a + b)[1..] == a[1..] + b;
      CountWhereConcat(a[1..], b, cond);
    } else {
      assert a + b == b;
    }
  }

  /** On the first `n` rows, `CountWhere` is the number of positions below `n` whose row satisfies the condition. */
  lemma {:induction false} CountWherePrefix(rows: seq<Row>, cond: Row -> bool, n: nat)
    requires n <= |rows|
    ensures CountWhere(rows[..n], cond) == |set k | 0 <= k < n && cond(rows[k])|
    decreases n
  {
    if n > 0 {
      CountWherePrefix(rows, cond, n - 1);
      assert rows[..n] == rows[..n - 1] + [rows[n - 1]];
      CountWhereConcat(rows[..n - 1], [rows[n - 1]], cond);
      assert CountWhere([rows[n - 1]], cond) == if cond(rows[n - 1]) then 1 else 0 by {
        assert [rows[n - 1]][1..] == [];
      }
      var before := set k | 0 <= k < n - 1 && cond(rows[k]);
      if cond(rows[n - 1]) {
        assert (set k | 0 <= k < n && cond(rows[k])) == before + {n - 1};
      } else {
        assert (set k | 0 <= k < n && cond(rows[k])) == before;
      }
    }
  }

  /** `CountWhere` is the number of positions whose row satisfies the condition. */
  lemma CountWhereCountsMatching(rows: seq<Row>, cond: Row -> bool)
    ensures CountWhere(rows, cond) == |set k | 0 <= k < |rows| && cond(rows[k])|
  {
    CountWherePrefix(rows, cond, |rows|);
    assert rows[..|rows|] == rows;
  }

  /**
   * `trashAll()` marks exactly the rows satisfying the conditions with
   * `now`, leaving their values alone, returns how many there are, and
   * touches no other table.
   */
  lemma TrashAllMarksMatching(t: TableId, cond: Row -> bool, now: Timestamp, d: Data)
    ensures TrashAll(t, cond, now, d).1 == |set k | 0 <= k < |Rows(d, t)| && cond(Rows(d, t)[k])|
    ensures |Rows(TrashAll(t, cond, now, d).0, t)| == |Rows(d, t)|
    ensures forall k :: 0 <= k < |Rows(d, t)| ==>
              (cond(Rows(d, t)[k]) ==> Rows(TrashAll(t, cond, now, d).0, t)[k] == Rows(d, t)[k].(trashed := Some(now))) &&
              (!cond(Rows(d, t)[k]) ==> Rows(TrashAll(t, cond, now, d).0, t)[k] == Rows(d, t)[k])
    ensures forall u :: u != t ==> Rows(TrashAll(t, cond, now, d).0, u) == Rows(d, u)
  {
    CountWhereCountsMatching(Rows(d, t), cond);
  }

  /** `trashAll()` only stamps trash fields, so it keeps every row's values. */
  lemma TrashAllOnlyMarks(t: TableId, cond: Row -> bool, now: Timestamp, d: Data)
    ensures OnlyMarks(d, TrashAll(t, cond, now, d).0, now)
  {
    TrashAllMarksMatching(t, cond, now, d);
  }

  // ---------------------------------------------------------------------
  // The tables and rows trash() may write
  // ---------------------------------------------------------------------

  /**
   * The tables a cascade from `t` may write: `t` itself and whatever the
   * targets of its followed associations reach in turn.
   */
  ghost function Reach(s: Schema, t: TableId): set<TableId>
    requires SchemaOk(s) && t in s
    decreases s[t].rank, 1
  {
    {t} + ReachFrom(s, t, 0)
  }

  /** What the followed associations of `t` from index `i` on reach. */
  ghost function ReachFrom(s: Schema, t: TableId, i: nat): set<TableId>
    requires SchemaOk(s) && t in s
    decreases s[t].rank, 0, |s[t].associations| - i
  {
    if i >= |s[t].associations| then {}
    else if Cascades(s, s[t].associations[i]) then Reach(s, s[t].associations[i].target) + ReachFrom(s, t, i + 1)
    else ReachFrom(s, t, i + 1)
  }

  /** Only the tables in `r` may differ. */
  ghost predicate Within(d: Data, d': Data, r: set<TableId>) {
    forall u :: u !in r ==> Rows(d', u) == Rows(d, u)
  }

  lemma WithinTransitive(d: Data, d1: Data, d2: Data, r1: set<TableId>, r2: set<TableId>, r: set<TableId>)
    requires Within(d, d1, r1) && Within(d1, d2, r2) && r1 <= r && r2 <= r
    ensures Within(d, d2, r)
  {
  }

  /** Every table the cascade reaches belongs to the schema and has no greater rank. */
  lemma {:induction false} ReachBelow(s: Schema, t: TableId)
    requires SchemaOk(s) && t in s
    ensures forall u :: u in Reach(s, t) ==> u in s && s[u].rank <= s[t].rank
    decreases s[t].rank, 1
  {
    ReachFromBelow(s, t, 0);
  }

  /** What the followed associations reach lies strictly below the source's rank, so never includes it. */
  lemma {:induction false} ReachFromBelow(s: Schema, t: TableId, i: nat)
    requires SchemaOk(s) && t in s
    ensures forall u :: u in ReachFrom(s, t, i) ==> u in s && s[u].rank < s[t].rank
    decreases s[t].rank, 0, |s[t].associations| - i
  {
    if i < |s[t].associations| {
      ReachFromBelow(s, t, i + 1);
      if Cascades(s, s[t].associations[i]) {
        ReachBelow(s, s[t].associations[i].target);
      }
    }
  }

  /**
   * When every followed association of `t` leads to a table of rank 0, the
   * cascade reaches `t` and those targets only.
   */
  lemma {:induction false} ReachOfLeafTargets(s: Schema, t: TableId, i: nat)
    requires SchemaOk(s) && t in s
    requires forall i' :: 0 <= i' < |s[t].associations| && Cascades(s, s[t].associations[i']) ==>
               s[s[t].associations[i'].target].rank == 0
    ensures forall u :: u in ReachFrom(s, t, i) ==>
              exists i' :: i <= i' < |s[t].associations| && Cascades(s, s[t].associations[i']) && s[t].associations[i'].target == u
    decreases |s[t].associations| - i
  {
    if i < |s[t].associations| {
      ReachOfLeafTargets(s, t, i + 1);
      var a := s[t].associations[i];
      if Cascades(s, a) {
        ReachFromBelow(s, a.target, 0);
        assert Reach(s, a.target) == {a.target};
      }
    }
  }

  lemma {:induction false} TrashWithin(s: Schema, rej: Rejections, now: Timestamp, t: TableId, e: Entity, d: Data)
    requires SchemaOk(s) && t in s
    ensures Within(d, Trash(s, rej, now, t, e, d).0, Reach(s, t))
    decreases s[t].rank, 2
  {
    if Extract(s[t].primaryKey, e.values).Some? {
      var (d1, c) := if s[t].cascadeOnTrash then CascadeAll(s, rej, now, t, e, 0, d) else (d, Ok(true));
      if s[t].cascadeOnTrash {
        CascadeAllWithin(s, rej, now, t, e, 0, d);
      }
      if c.Ok? {
        WithinTransitive(d, d1, Save(s, rej, t, e.(trashed := Some(now), dirty := true), d1).0,
                         ReachFrom(s, t, 0), {t}, Reach(s, t));
      }
    }
  }

  lemma {:induction false} CascadeAllWithin(s: Schema, rej: Rejections, now: Timestamp, t: TableId, e: Entity, i: nat, d: Data)
    requires SchemaOk(s) && t in s
    ensures Within(d, CascadeAll(s, rej, now, t, e, i, d).0, ReachFrom(s, t, i))
    decreases s[t].rank, 1, |s[t].associations| - i
  {
    if i < |s[t].associations| {
      var a := s[t].associations[i];
      if !Cascades(s, a) {
        CascadeAllWithin(s, rej, now, t, e, i + 1, d);
      } else {
        var (d1, c) := CascadeDelete(s, rej, now, t, i, e, d);
        CascadeDeleteWithin(s, rej, now, t, i, e, d);
        if c.Ok? {
          CascadeAllWithin(s, rej, now, t, e, i + 1, d1);
          WithinTransitive(d, d1, CascadeAll(s, rej, now, t, e, i + 1, d1).0,
                           Reach(s, a.target), ReachFrom(s, t, i + 1), ReachFrom(s, t, i));
        }
      }
    }
  }

  lemma {:induction false} CascadeDeleteWithin(s: Schema, rej: Rejections, now: Timestamp, t: TableId, i: nat, e: Entity, d: Data)
    requires SchemaOk(s) && t in s && i < |s[t].associations| && Cascades(s, s[t].associations[i])
    ensures Within(d, CascadeDelete(s, rej, now, t, i, e, d).0, Reach(s, s[t].associations[i].target))
    decreases s[t].rank, 0
  {
    var a := s[t].associations[i];
    if Extract(a.bindingKey, e.values).Some? {
      DeleteEachWithin(s, rej, now, a.target,
        Related(Rows(d, a.target), a.foreignKey, Extract(a.bindingKey, e.values).value, true), 0, d);
    }
  }

  lemma {:induction false} DeleteEachWithin(s: Schema, rej: Rejections, now: Timestamp, c: TableId, rows: seq<Row>, j: nat, d: Data)
    requires SchemaOk(s) && c in s
    ensures Within(d, DeleteEach(s, rej, now, c, rows, j, d).0, Reach(s, c))
    decreases s[c].rank, 3, |rows| - j
  {
    if j < |rows| {
      var (d1, r) := Trash(s, rej, now, c, Loaded(rows[j]), d);
      TrashWithin(s, rej, now, c, Loaded(rows[j]), d);
      if r.Ok? && r.value {
        DeleteEachWithin(s, rej, now, c, rows, j + 1, d1);
      }
    }
  }

  /**
   * What `trash()` may write: only tables the cascade reaches, only the
   * entity's own table when `cascadeOnTrash` is off, and in the entity's
   * table only the rows with the entity's primary key.
   */
  lemma TrashFrame(s: Schema, rej: Rejections, now: Timestamp, t: TableId, e: Entity, d: Data)
    requires SchemaOk(s) && t in s
    ensures Within(d, Trash(s, rej, now, t, e, d).0, Reach(s, t))
    ensures !s[t].cascadeOnTrash ==> forall u :: u != t ==> Rows(Trash(s, rej, now, t, e, d).0, u) == Rows(d, u)
    ensures |Rows(Trash(s, rej, now, t, e, d).0, t)| == |Rows(d, t)|
    ensures forall k :: 0 <= k < |Rows(d, t)| && Extract(s[t].primaryKey, Rows(d, t)[k].values) != Extract(s[t].primaryKey, e.values) ==>
              Rows(Trash(s, rej, now, t, e, d).0, t)[k] == Rows(d, t)[k]
  {
    TrashWithin(s, rej, now, t, e, d);
    if s[t].cascadeOnTrash {
      CascadeAllWithin(s, rej, now, t, e, 0, d);
      ReachFromBelow(s, t, 0);
    }
  }

  /**
   * When every followed association of `t` leads to a table of rank 0,
   * `trash()` leaves alone every table other than `t` that none of them
   * targets, such as the target of an association the cascade does not
   * follow.
   */
  lemma TrashLeavesUnfollowedTables(s: Schema, rej: Rejections, now: Timestamp, t: TableId, e: Entity, d: Data, u: TableId)
    requires SchemaOk(s) && t in s
    requires forall i :: 0 <= i < |s[t].associations| && Cascades(s, s[t].associations[i]) ==>
               s[s[t].associations[i].target].rank == 0
    requires u != t
    requires forall i :: 0 <= i < |s[t].associations| && Cascades(s, s[t].associations[i]) ==> s[t].associations[i].target != u
    ensures Rows(Trash(s, rej, now, t, e, d).0, u) == Rows(d, u)
  {
    TrashWithin(s, rej, now, t, e, d);
    ReachOfLeafTargets(s, t, 0);
    assert u !in Reach(s, t);
  }

  /**
   * A related row whose own save is refused: its `delete()` reports false,
   * and the rollback of that delete's transaction undoes whatever its own
   * cascade had trashed, so the loop stops and leaves the store as it was.
   */
  lemma RefusedDeleteRollsBack(s: Schema, rej: Rejections, now: Timestamp, c: TableId, rows: seq<Row>, j: nat, d: Data)
    requires SchemaOk(s) && c in s && j < |rows|
    requires Extract(s[c].primaryKey, rows[j].values).Some?
    requires (c, Extract(s[c].primaryKey, rows[j].values).value) in rej
    ensures DeleteEach(s, rej, now, c, rows, j, d).0 == d
    ensures DeleteEach(s, rej, now, c, rows, j, d).1 != Ok(true)
  {
    var e := Loaded(rows[j]);
    var (d1, r) := if s[c].cascadeOnTrash then CascadeAll(s, rej, now, c, e, 0, d) else (d, Ok(true));
    if r.Ok? {
      assert !Save(s, rej, c, e.(trashed := Some(now), dirty := true), d1).1;
    }
  }

  /**
   * `_isRecursable()` fails when the target table lacks the behaviour, the
   * table is not the owning side, or the association is not dependent or
   * does not cascade callbacks; such an association is skipped by the
   * trash cascade and by both restore cascades.
   */
  lemma UnrecursableSkipped(s: Schema, rej: Rejections, now: Timestamp, t: TableId, e: Entity, i: nat, d: Data,
                            result: Option<Entity>, n: nat)
    requires SchemaOk(s) && t in s && i < |s[t].associations|
    requires var a := s[t].associations[i];
             !(a.target in s && s[a.target].hasTrash) || !a.owningSide || !a.dependent || !a.cascadeCallbacks
    ensures CascadeAll(s, rej, now, t, e, i, d) == CascadeAll(s, rej, now, t, e, i + 1, d)
    ensures RestoreAssociations(s, rej, t, e, i, d, result) == RestoreAssociations(s, rej, t, e, i + 1, d, result)
    ensures RestoreAllAssociations(s, t, i, d, n) == RestoreAllAssociations(s, t, i + 1, d, n)
  {
  }

  /** With no recursable association from index `i` on, the three association loops change nothing. */
  lemma {:induction false} NoRecursableLoopsChangeNothing(s: Schema, rej: Rejections, now: Timestamp, t: TableId, e: Entity,
                                                          i: nat, d: Data, result: Option<Entity>, n: nat)
    requires SchemaOk(s) && t in s
    requires forall j :: i <= j < |s[t].associations| ==> !Recursable(s, s[t].associations[j])
    ensures CascadeAll(s, rej, now, t, e, i, d) == (d, Ok(true))
    ensures RestoreAssociations(s, rej, t, e, i, d, result) == (d, Ok(result))
    ensures RestoreAllAssociations(s, t, i, d, n) == (d, n)
    decreases |s[t].associations| - i
  {
    if i < |s[t].associations| {
      UnrecursableSkipped(s, rej, now, t, e, i, d, result, n);
      NoRecursableLoopsChangeNothing(s, rej, now, t, e, i + 1, d, result, n);
    }
  }

  /**
   * A table none of whose associations is recursable: `trash()` and
   * `cascadingRestoreTrash($entity)` change only the table itself, and
   * `cascadingRestoreTrash()` is exactly `restoreTrash()` of the table.
   */
  lemma NoRecursableStaysInTable(s: Schema, rej: Rejections, now: Timestamp, t: TableId, e: Entity, d: Data)
    requires SchemaOk(s) && t in s
    requires forall j :: 0 <= j < |s[t].associations| ==> !Recursable(s, s[t].associations[j])
    ensures Within(d, Trash(s, rej, now, t, e, d).0, {t})
    ensures Within(d, CascadingRestore(s, rej, t, e, d).0, {t})
    ensures CascadingRestoreAll(s, t, d) == RestoreAll(t, d)
  {
    NoRecursableLoopsChangeNothing(s, rej, now, t, e, 0, d, None, 0);
    var d1 := RestoreEntity(s, rej, t, e, d).0;
    var r := RestoreEntity(s, rej, t, e, d).1;
    if r.Ok? {
      NoRecursableLoopsChangeNothing(s, rej, now, t, e, 0, d1, r.value, 0);
    }
    var (d2, m) := RestoreAll(t, d);
    NoRecursableLoopsChangeNothing(s, rej, now, t, e, 0, d2, None, m);
  }
}
