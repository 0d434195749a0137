/**
 * What the restoring operations guarantee: they never trash a row, never
 * rewrite values, stay within the tables the cascade can reach, stop the
 * bulk cascade when at most one row was restored, and report failure when
 * any related restore is refused.
 */
module RestoreFacts {
  import opened Wrappers
  import opened Store
  import opened TrashFacts

  /** Same shape, and every active row is still active. */
  ghost predicate OnlyUnmarks(d: Data, d': Data) {
    SameShape(d, d') &&
    forall t, k :: 0 <= k < |Rows(d, t)| && !IsTrashed(Rows(d, t)[k]) ==> !IsTrashed(Rows(d', t)[k])
  }

  /** Only tables of the schema whose rank is below `r` may differ. */
  ghost predicate FramedBelow(s: Schema, d: Data, d': Data, r: nat) {
    forall u :: (u !in s || s[u].rank >= r) ==> Rows(d', u) == Rows(d, u)
  }

  /** A frame below rank `r1` followed by one below `r >= r1` is a frame below `r`. */
  lemma FramedBelowTransitive(s: Schema, d: Data, d1: Data, d2: Data, r1: nat, r: nat)
    requires FramedBelow(s, d, d1, r1) && r1 <= r && FramedBelow(s, d1, d2, r)
    ensures FramedBelow(s, d, d2, r)
  {
  }

  /** The rows the entity mode restores for association `a` of entity `e`: all related rows, trashed or not. */
  ghost function RestoredRelated(a: Association, e: Entity, d: Data): seq<Row> {
    match Extract(a.bindingKey, e.values)
    case None => []
    case Some(binding) => Related(Rows(d, a.target), a.foreignKey, binding, false)
  }

  lemma OnlyUnmarksTransitive(d: Data, d1: Data, d2: Data)
    requires OnlyUnmarks(d, d1) && OnlyUnmarks(d1, d2)
    ensures OnlyUnmarks(d, d2)
  {
  }

  /** Saving a cleared trash field only unmarks rows. */
  lemma SaveOnlyUnmarks(s: Schema, rej: Rejections, t: TableId, e: Entity, d: Data)
    requires t in s && e.trashed.None?
    ensures OnlyUnmarks(d, Save(s, rej, t, e, d).0)
    ensures FramedBelow(s, d, Save(s, rej, t, e, d).0, s[t].rank + 1)
  {
  }

  /**
   * `restoreTrash()` without an entity restores every trashed row of the
   * table, counts exactly those, keeps the values, and touches no other
   * table.
   */
  lemma RestoreAllClearsTable(t: TableId, d: Data)
    ensures RestoreAll(t, d).1 == CountTrashed(Rows(d, t))
    ensures |Rows(RestoreAll(t, d).0, t)| == |Rows(d, t)|
    ensures forall k :: 0 <= k < |Rows(d, t)| ==> Rows(RestoreAll(t, d).0, t)[k] == Rows(d, t)[k].(trashed := None)
    ensures forall u :: u != t ==> Rows(RestoreAll(t, d).0, u) == Rows(d, u)
    ensures OnlyUnmarks(d, RestoreAll(t, d).0)
  {
  }

  // ---------------------------------------------------------------------
  // Bulk cascade
  // ---------------------------------------------------------------------

  lemma {:induction false} CascadingRestoreAllOnlyUnmarks(s: Schema, t: TableId, d: Data)
    requires SchemaOk(s) && t in s
    ensures OnlyUnmarks(d, CascadingRestoreAll(s, t, d).0)
    ensures FramedBelow(s, d, CascadingRestoreAll(s, t, d).0, s[t].rank + 1)
    decreases s[t].rank, 1
  {
    var (d1, n) := RestoreAll(t, d);
    RestoreAllClearsTable(t, d);
    RestoreAllAssociationsOnlyUnmarks(s, t, 0, d1, n);
  }

  lemma {:induction false} RestoreAllAssociationsOnlyUnmarks(s: Schema, t: TableId, i: nat, d: Data, result: nat)
    requires SchemaOk(s) && t in s
    ensures OnlyUnmarks(d, RestoreAllAssociations(s, t, i, d, result).0)
    ensures FramedBelow(s, d, RestoreAllAssociations(s, t, i, d, result).0, s[t].rank)
    ensures RestoreAllAssociations(s, t, i, d, result).1 >= result
    decreases s[t].rank, 0, |s[t].associations| - i
  {
    if i < |s[t].associations| {
      var a := s[t].associations[i];
      if Cascades(s, a) && result > 1 {
        var (d1, m) := CascadingRestoreAll(s, a.target, d);
        var d2 := RestoreAllAssociations(s, t, i + 1, d1, result + m).0;
        assert RestoreAllAssociations(s, t, i, d, result) == RestoreAllAssociations(s, t, i + 1, d1, result + m);
        CascadingRestoreAllOnlyUnmarks(s, a.target, d);
        RestoreAllAssociationsOnlyUnmarks(s, t, i + 1, d1, result + m);
        OnlyUnmarksTransitive(d, d1, d2);
        assert s[a.target].rank + 1 <= s[t].rank;
        FramedBelowTransitive(s, d, d1, d2, s[a.target].rank + 1, s[t].rank);
      } else {
        RestoreAllAssociationsOnlyUnmarks(s, t, i + 1, d, result);
      }
    }
  }

  /**
   * The guard `$result > 1`: while the running count is at most one, the
   * association loop follows no association and changes nothing.
   */
  lemma {:induction false} SmallCountFollowsNothing(s: Schema, t: TableId, i: nat, d: Data, result: nat)
    requires SchemaOk(s) && t in s && result <= 1
    ensures RestoreAllAssociations(s, t, i, d, result) == (d, result)
    decreases |s[t].associations| - i
  {
    if i < |s[t].associations| {
      SmallCountFollowsNothing(s, t, i + 1, d, result);
    }
  }

  /** In the bulk mode a table of rank 0 follows no association, whatever the count. */
  lemma {:induction false} BulkLeafFollowsNothing(s: Schema, t: TableId, i: nat, d: Data, result: nat)
    requires SchemaOk(s) && t in s && s[t].rank == 0
    ensures RestoreAllAssociations(s, t, i, d, result) == (d, result)
    decreases |s[t].associations| - i
  {
    if i < |s[t].associations| {
      assert !Cascades(s, s[t].associations[i]);
      BulkLeafFollowsNothing(s, t, i + 1, d, result);
    }
  }

  /**
   * Bulk cascading restore of a table with at most one trashed row
   * restores that table only: the dependent tables keep their trashed rows.
   */
  lemma BulkRestoreStopsAtOne(s: Schema, t: TableId, d: Data)
    requires SchemaOk(s) && t in s
    requires CountTrashed(Rows(d, t)) <= 1
    ensures CascadingRestoreAll(s, t, d) == RestoreAll(t, d)
  {
    SmallCountFollowsNothing(s, t, 0, RestoreAll(t, d).0, RestoreAll(t, d).1);
  }

  /**
   * Bulk cascading restore leaves no trashed row in its own table, never
   * trashes a row, touches only tables the cascade can reach, and counts
   * at least the table's own restored rows.
   */
  lemma BulkRestoreEmptiesOwnTrash(s: Schema, t: TableId, d: Data)
    requires SchemaOk(s) && t in s
    ensures CascadingRestoreAll(s, t, d).1 >= CountTrashed(Rows(d, t))
    ensures |Rows(CascadingRestoreAll(s, t, d).0, t)| == |Rows(d, t)|
    ensures forall k :: 0 <= k < |Rows(d, t)| ==> !IsTrashed(Rows(CascadingRestoreAll(s, t, d).0, t)[k])
    ensures OnlyUnmarks(d, CascadingRestoreAll(s, t, d).0)
  {
    var (d1, n) := RestoreAll(t, d);
    RestoreAllClearsTable(t, d);
    RestoreAllAssociationsOnlyUnmarks(s, t, 0, d1, n);
    CascadingRestoreAllOnlyUnmarks(s, t, d);
  }

  /** No row is trashed. */
  ghost predicate NoneTrashed(rows: seq<Row>) {
    forall k :: 0 <= k < |rows| ==> !IsTrashed(rows[k])
  }

  lemma NoneTrashedKept(d: Data, d': Data, u: TableId)
    requires OnlyUnmarks(d, d') && NoneTrashed(Rows(d, u))
    ensures |Rows(d', u)| == |Rows(d, u)| && NoneTrashed(Rows(d', u))
  {
  }

  /**
   * While the running count is above one, the bulk association loop from
   * `i` on leaves no trashed row in the target of any association it
   * follows.
   */
  lemma {:induction false} RestoreAllAssociationsClearsTargets(s: Schema, t: TableId, i: nat, d: Data, result: nat)
    requires SchemaOk(s) && t in s && result > 1
    ensures forall i' :: i <= i' < |s[t].associations| && Cascades(s, s[t].associations[i']) ==>
              |Rows(RestoreAllAssociations(s, t, i, d, result).0, s[t].associations[i'].target)| ==
                |Rows(d, s[t].associations[i'].target)| &&
              NoneTrashed(Rows(RestoreAllAssociations(s, t, i, d, result).0, s[t].associations[i'].target))
    decreases |s[t].associations| - i
  {
    if i < |s[t].associations| {
      var a := s[t].associations[i];
      if Cascades(s, a) {
        var (d1, m) := CascadingRestoreAll(s, a.target, d);
        var d2 := RestoreAllAssociations(s, t, i + 1, d1, result + m).0;
        assert RestoreAllAssociations(s, t, i, d, result).0 == d2;
        BulkRestoreEmptiesOwnTrash(s, a.target, d);
        RestoreAllAssociationsClearsTargets(s, t, i + 1, d1, result + m);
        RestoreAllAssociationsOnlyUnmarks(s, t, i + 1, d1, result + m);
        NoneTrashedKept(d1, d2, a.target);
      } else {
        assert RestoreAllAssociations(s, t, i, d, result) == RestoreAllAssociations(s, t, i + 1, d, result);
        RestoreAllAssociationsClearsTargets(s, t, i + 1, d, result);
      }
    }
  }

  /**
   * The other side of the guard `$result > 1`: bulk cascading restore of a
   * table with more than one trashed row leaves no trashed row in the
   * target of any association it follows.
   */
  lemma BulkRestoreClearsFollowedTargets(s: Schema, t: TableId, d: Data)
    requires SchemaOk(s) && t in s
    requires CountTrashed(Rows(d, t)) > 1
    ensures forall i :: 0 <= i < |s[t].associations| && Cascades(s, s[t].associations[i]) ==>
              |Rows(CascadingRestoreAll(s, t, d).0, s[t].associations[i].target)| == |Rows(d, s[t].associations[i].target)| &&
              NoneTrashed(Rows(CascadingRestoreAll(s, t, d).0, s[t].associations[i].target))
  {
    var (d1, n) := RestoreAll(t, d);
    RestoreAllClearsTable(t, d);
    assert CascadingRestoreAll(s, t, d) == RestoreAllAssociations(s, t, 0, d1, n);
    RestoreAllAssociationsClearsTargets(s, t, 0, d1, n);
    forall i | 0 <= i < |s[t].associations| && Cascades(s, s[t].associations[i])
      ensures Rows(d1, s[t].associations[i].target) == Rows(d, s[t].associations[i].target)
    {
      assert s[t].associations[i].target != t;
    }
  }

  // ---------------------------------------------------------------------
  // Entity cascade
  // ---------------------------------------------------------------------

  lemma {:induction false} CascadingRestoreOnlyUnmarks(s: Schema, rej: Rejections, t: TableId, e: Entity, d: Data)
    requires SchemaOk(s) && t in s
    ensures OnlyUnmarks(d, CascadingRestore(s, rej, t, e, d).0)
    ensures FramedBelow(s, d, CascadingRestore(s, rej, t, e, d).0, s[t].rank + 1)
    decreases s[t].rank, 2
  {
    if RestoreEntity(s, rej, t, e, d).1.Ok? {
      var (d1, r) := RestoreEntity(s, rej, t, e, d);
      SaveOnlyUnmarks(s, rej, t, e.(trashed := None, dirty := true), d);
      RestoreAssociationsOnlyUnmarks(s, rej, t, e, 0, d1, r.value);
    }
  }

  lemma {:induction false} RestoreAssociationsOnlyUnmarks(s: Schema, rej: Rejections, t: TableId, e: Entity, i: nat,
                                                          d: Data, result: Option<Entity>)
    requires SchemaOk(s) && t in s
    ensures OnlyUnmarks(d, RestoreAssociations(s, rej, t, e, i, d, result).0)
    ensures FramedBelow(s, d, RestoreAssociations(s, rej, t, e, i, d, result).0, s[t].rank)
    decreases s[t].rank, 1, |s[t].associations| - i
  {
    if i < |s[t].associations| {
      var a := s[t].associations[i];
      if !Cascades(s, a) {
        RestoreAssociationsOnlyUnmarks(s, rej, t, e, i + 1, d, result);
      } else {
        var rows := RestoredRelated(a, e, d);
        var (d1, ok) := RestoreEach(s, rej, a.target, rows, 0, d, true);
        RestoreEachOnlyUnmarks(s, rej, a.target, rows, 0, d, true);
        if ok.Ok? {
          var next := if ok.value then result else None;
          RestoreAssociationsOnlyUnmarks(s, rej, t, e, i + 1, d1, next);
          OnlyUnmarksTransitive(d, d1, RestoreAssociations(s, rej, t, e, i + 1, d1, next).0);
        }
      }
    }
  }

  lemma {:induction false} RestoreEachOnlyUnmarks(s: Schema, rej: Rejections, c: TableId, rows: seq<Row>, j: nat,
                                                  d: Data, allOk: bool)
    requires SchemaOk(s) && c in s
    ensures OnlyUnmarks(d, RestoreEach(s, rej, c, rows, j, d, allOk).0)
    ensures FramedBelow(s, d, RestoreEach(s, rej, c, rows, j, d, allOk).0, s[c].rank + 1)
    decreases s[c].rank, 3, |rows| - j
  {
    if j < |rows| {
      var (d1, r) := CascadingRestore(s, rej, c, Loaded(rows[j]), d);
      CascadingRestoreOnlyUnmarks(s, rej, c, Loaded(rows[j]), d);
      if r.Ok? {
        RestoreEachOnlyUnmarks(s, rej, c, rows, j + 1, d1, allOk && r.value.Some?);
        OnlyUnmarksTransitive(d, d1, RestoreEach(s, rej, c, rows, j + 1, d1, allOk && r.value.Some?).0);
      }
    }
  }

  /** `restoreTrash()` of a dirty entity, with or without cascade, raises before any change. */
  lemma DirtyEntityRaises(s: Schema, rej: Rejections, t: TableId, e: Entity, d: Data)
    requires SchemaOk(s) && t in s && e.dirty
    ensures RestoreEntity(s, rej, t, e, d) == (d, Err(DirtyEntity))
    ensures CascadingRestore(s, rej, t, e, d) == (d, Err(DirtyEntity))
  {
  }

  /** Once false, the result of the association loop stays false (or an exception escapes). */
  lemma {:induction false} FailureIsSticky(s: Schema, rej: Rejections, t: TableId, e: Entity, i: nat, d: Data, result: Option<Entity>)
    requires SchemaOk(s) && t in s
    ensures RestoreAssociations(s, rej, t, e, i, d, result).1.Ok? && RestoreAssociations(s, rej, t, e, i, d, result).1.value.Some? ==>
              RestoreAssociations(s, rej, t, e, i, d, result).1.value == result
    decreases |s[t].associations| - i
  {
    if i < |s[t].associations| {
      var a := s[t].associations[i];
      if !Cascades(s, a) {
        FailureIsSticky(s, rej, t, e, i + 1, d, result);
      } else {
        var rows := RestoredRelated(a, e, d);
        var (d1, ok) := RestoreEach(s, rej, a.target, rows, 0, d, true);
        if ok.Ok? {
          FailureIsSticky(s, rej, t, e, i + 1, d1, if ok.value then result else None);
        }
      }
    }
  }

  /**
   * A successful cascading restore of an entity returns the entity with its
   * trash field cleared and clean, and leaves the entity's rows active.
   */
  lemma RestoredEntityRowsAreActive(s: Schema, rej: Rejections, t: TableId, e: Entity, d: Data)
    requires SchemaOk(s) && t in s
    requires CascadingRestore(s, rej, t, e, d).1.Ok? && CascadingRestore(s, rej, t, e, d).1.value.Some?
    ensures CascadingRestore(s, rej, t, e, d).1.value.value == e.(trashed := None, dirty := false)
    ensures Extract(s[t].primaryKey, e.values).Some?
    ensures (t, Extract(s[t].primaryKey, e.values).value) !in rej
    ensures forall k :: 0 <= k < |Rows(d, t)| && HasKey(s[t].primaryKey, Extract(s[t].primaryKey, e.values).value, Rows(d, t)[k]) ==>
              k < |Rows(CascadingRestore(s, rej, t, e, d).0, t)| && !IsTrashed(Rows(CascadingRestore(s, rej, t, e, d).0, t)[k])
  {
    var (d1, r) := RestoreEntity(s, rej, t, e, d);
    FailureIsSticky(s, rej, t, e, 0, d1, r.value);
    RestoreAssociationsOnlyUnmarks(s, rej, t, e, 0, d1, r.value);
  }

  /** The loop over related rows reports true only if every restore from `j` on succeeded, starting from `allOk`. */
  lemma {:induction false} RestoreEachFailsOnRefusal(s: Schema, rej: Rejections, c: TableId, rows: seq<Row>, j: nat,
                                                     d: Data, allOk: bool, j0: nat)
    requires SchemaOk(s) && c in s
    requires j <= j0 < |rows|
    requires Extract(s[c].primaryKey, rows[j0].values).Some?
    requires (c, Extract(s[c].primaryKey, rows[j0].values).value) in rej
    ensures RestoreEach(s, rej, c, rows, j, d, allOk).1 != Ok(true)
    decreases |rows| - j
  {
    var (d1, r) := CascadingRestore(s, rej, c, Loaded(rows[j]), d);
    if r.Ok? {
      if j == j0 {
        var (d2, r2) := RestoreEntity(s, rej, c, Loaded(rows[j]), d);
        FailureIsSticky(s, rej, c, Loaded(rows[j]), 0, d2, r2.value);
        RestoreEachStaysFalse(s, rej, c, rows, j + 1, d1);
      } else {
        RestoreEachFailsOnRefusal(s, rej, c, rows, j + 1, d1, allOk && r.value.Some?, j0);
      }
    }
  }

  lemma {:induction false} RestoreEachStaysFalse(s: Schema, rej: Rejections, c: TableId, rows: seq<Row>, j: nat, d: Data)
    requires SchemaOk(s) && c in s
    ensures RestoreEach(s, rej, c, rows, j, d, false).1 != Ok(true)
    decreases |rows| - j
  {
    if j < |rows| {
      var (d1, r) := CascadingRestore(s, rej, c, Loaded(rows[j]), d);
      if r.Ok? {
        RestoreEachStaysFalse(s, rej, c, rows, j + 1, d1);
      }
    }
  }

  /** The association loop from `i` on reports failure when a row related through association `i0` is refused. */
  lemma {:induction false} RestoreAssociationsFailsOnRefusal(s: Schema, rej: Rejections, t: TableId, e: Entity, i: nat,
                                                             d: Data, result: Option<Entity>, i0: nat, k: nat)
    requires SchemaOk(s) && t in s
    requires i <= i0 < |s[t].associations| && Cascades(s, s[t].associations[i0])
    requires Extract(s[t].associations[i0].bindingKey, e.values).Some?
    requires k < |Rows(d, s[t].associations[i0].target)|
    requires Extract(s[t].associations[i0].foreignKey, Rows(d, s[t].associations[i0].target)[k].values) ==
               Extract(s[t].associations[i0].bindingKey, e.values)
    requires Extract(s[s[t].associations[i0].target].primaryKey, Rows(d, s[t].associations[i0].target)[k].values).Some?
    requires (s[t].associations[i0].target,
              Extract(s[s[t].associations[i0].target].primaryKey, Rows(d, s[t].associations[i0].target)[k].values).value) in rej
    ensures !(RestoreAssociations(s, rej, t, e, i, d, result).1.Ok? &&
              RestoreAssociations(s, rej, t, e, i, d, result).1.value.Some?)
    decreases |s[t].associations| - i
  {
    var a := s[t].associations[i];
    if !Cascades(s, a) {
      RestoreAssociationsFailsOnRefusal(s, rej, t, e, i + 1, d, result, i0, k);
    } else if i == i0 {
      RefusalAtAssociation(s, rej, t, e, i, d, result, k);
    } else {
      RestoreAssociationsStepAny(s, rej, t, e, i, d, result);
      var (d1, ok) := RestoreEach(s, rej, a.target, RestoredRelated(a, e, d), 0, d, true);
      if ok.Ok? {
        var u := s[t].associations[i0].target;
        assert Rows(d1, u)[k].values == Rows(d, u)[k].values;
        RestoreAssociationsFailsOnRefusal(s, rej, t, e, i + 1, d1, if ok.value then result else None, i0, k);
      }
    }
  }

  /**
   * One step of the association loop of the entity mode over a recursable
   * association: the related rows are restored, only unmarking, and either
   * the exception propagates or the loop goes on with the next association.
   */
  lemma RestoreAssociationsStepAny(s: Schema, rej: Rejections, t: TableId, e: Entity, i: nat, d: Data, result: Option<Entity>)
    requires SchemaOk(s) && t in s
    requires i < |s[t].associations| && Cascades(s, s[t].associations[i])
    ensures var a := s[t].associations[i];
            var (d1, ok) := RestoreEach(s, rej, a.target, RestoredRelated(a, e, d), 0, d, true);
            OnlyUnmarks(d, d1) &&
            (ok.Err? ==> RestoreAssociations(s, rej, t, e, i, d, result) == (d1, Err(ok.error))) &&
            (ok.Ok? ==> RestoreAssociations(s, rej, t, e, i, d, result) ==
                        RestoreAssociations(s, rej, t, e, i + 1, d1, if ok.value then result else None))
  {
    var a := s[t].associations[i];
    RestoreEachOnlyUnmarks(s, rej, a.target, RestoredRelated(a, e, d), 0, d, true);
  }

  /** A refused row related through association `i` itself makes the loop from `i` on report failure. */
  lemma RefusalAtAssociation(s: Schema, rej: Rejections, t: TableId, e: Entity, i: nat,
                             d: Data, result: Option<Entity>, k: nat)
    requires SchemaOk(s) && t in s
    requires i < |s[t].associations| && Cascades(s, s[t].associations[i])
    requires Extract(s[t].associations[i].bindingKey, e.values).Some?
    requires k < |Rows(d, s[t].associations[i].target)|
    requires Extract(s[t].associations[i].foreignKey, Rows(d, s[t].associations[i].target)[k].values) ==
               Extract(s[t].associations[i].bindingKey, e.values)
    requires Extract(s[s[t].associations[i].target].primaryKey, Rows(d, s[t].associations[i].target)[k].values).Some?
    requires (s[t].associations[i].target,
              Extract(s[s[t].associations[i].target].primaryKey, Rows(d, s[t].associations[i].target)[k].values).value) in rej
    ensures !(RestoreAssociations(s, rej, t, e, i, d, result).1.Ok? &&
              RestoreAssociations(s, rej, t, e, i, d, result).1.value.Some?)
  {
    var a := s[t].associations[i];
    RestoreAssociationsStepAny(s, rej, t, e, i, d, result);
    RefusedRowFailsLoop(s, rej, a, e, d, k);
    var (d1, ok) := RestoreEach(s, rej, a.target, RestoredRelated(a, e, d), 0, d, true);
    if ok.Ok? {
      FailureIsSticky(s, rej, t, e, i + 1, d1, None);
    }
  }

  /** A refused row related through `a` makes that association's row loop report failure. */
  lemma RefusedRowFailsLoop(s: Schema, rej: Rejections, a: Association, e: Entity, d: Data, k: nat)
    requires SchemaOk(s) && a.target in s
    requires Extract(a.bindingKey, e.values).Some?
    requires k < |Rows(d, a.target)|
    requires Extract(a.foreignKey, Rows(d, a.target)[k].values) == Extract(a.bindingKey, e.values)
    requires Extract(s[a.target].primaryKey, Rows(d, a.target)[k].values).Some?
    requires (a.target, Extract(s[a.target].primaryKey, Rows(d, a.target)[k].values).value) in rej
    ensures RestoreEach(s, rej, a.target, RestoredRelated(a, e, d), 0, d, true).1 != Ok(true)
  {
    var rows := RestoredRelated(a, e, d);
    var x := Rows(d, a.target)[k];
    assert x in rows;
    var j0 :| 0 <= j0 < |rows| && rows[j0] == x;
    RestoreEachFailsOnRefusal(s, rej, a.target, rows, 0, d, true, j0);
  }

  /**
   * Any failed related restore makes `cascadingRestoreTrash($entity)`
   * return false: when the host refuses to save a row related to the
   * entity through a recursable association, the result is not the entity,
   * whatever the other restores did (and those stay in place).
   */
  lemma RefusedRelatedRestoreFails(s: Schema, rej: Rejections, t: TableId, e: Entity, d: Data, i: nat, k: nat)
    requires SchemaOk(s) && t in s
    requires i < |s[t].associations| && Cascades(s, s[t].associations[i])
    requires Extract(s[t].associations[i].bindingKey, e.values).Some?
    requires k < |Rows(d, s[t].associations[i].target)|
    requires Extract(s[t].associations[i].foreignKey, Rows(d, s[t].associations[i].target)[k].values) ==
               Extract(s[t].associations[i].bindingKey, e.values)
    requires Extract(s[s[t].associations[i].target].primaryKey, Rows(d, s[t].associations[i].target)[k].values).Some?
    requires (s[t].associations[i].target,
              Extract(s[s[t].associations[i].target].primaryKey, Rows(d, s[t].associations[i].target)[k].values).value) in rej
    ensures !(CascadingRestore(s, rej, t, e, d).1.Ok? && CascadingRestore(s, rej, t, e, d).1.value.Some?)
  {
    if RestoreEntity(s, rej, t, e, d).1.Ok? {
      var (d1, r) := RestoreEntity(s, rej, t, e, d);
      SaveOnlyUnmarks(s, rej, t, e.(trashed := None, dirty := true), d);
      var u := s[t].associations[i].target;
      assert Rows(d1, u)[k].values == Rows(d, u)[k].values;
      RestoreAssociationsFailsOnRefusal(s, rej, t, e, 0, d1, r.value, i, k);
    }
  }

  // ---------------------------------------------------------------------
  // With every save accepted
  // ---------------------------------------------------------------------

  /** The rows related through association `a` of an entity all carry their full key, when the store does. */
  lemma RelatedRowsKeyed(s: Schema, d: Data, a: Association, e: Entity)
    requires Keyed(s, d) && a.target in s
    ensures var rows := RestoredRelated(a, e, d);
            forall j :: 0 <= j < |rows| ==> Extract(s[a.target].primaryKey, rows[j].values).Some?
  {
    var rows := RestoredRelated(a, e, d);
    forall j | 0 <= j < |rows|
      ensures Extract(s[a.target].primaryKey, rows[j].values).Some?
    {
      assert rows[j] in rows;
      var k :| 0 <= k < |Rows(d, a.target)| && Rows(d, a.target)[k] == rows[j];
    }
  }

  /**
   * With every save accepted, `cascadingRestoreTrash($entity)` of a clean
   * entity with its full primary key returns the entity, restored and clean.
   */
  lemma {:induction false} CascadingRestoreSucceeds(s: Schema, t: TableId, e: Entity, d: Data)
    requires SchemaOk(s) && t in s && Keyed(s, d)
    requires !e.dirty && Extract(s[t].primaryKey, e.values).Some?
    ensures CascadingRestore(s, {}, t, e, d).1 == Ok(Some(e.(trashed := None, dirty := false)))
    decreases s[t].rank, 2
  {
    var (d1, r) := RestoreEntity(s, {}, t, e, d);
    SaveOnlyUnmarks(s, {}, t, e.(trashed := None, dirty := true), d);
    KeyedKept(s, d, d1);
    RestoreAssociationsSucceeds(s, t, e, 0, d1, r.value);
  }

  lemma {:induction false} RestoreAssociationsSucceeds(s: Schema, t: TableId, e: Entity, i: nat, d: Data, result: Option<Entity>)
    requires SchemaOk(s) && t in s && Keyed(s, d)
    ensures RestoreAssociations(s, {}, t, e, i, d, result).1 == Ok(result)
    decreases s[t].rank, 1, |s[t].associations| - i
  {
    if i < |s[t].associations| {
      var a := s[t].associations[i];
      if !Cascades(s, a) {
        RestoreAssociationsSucceeds(s, t, e, i + 1, d, result);
      } else {
        var rows := RestoredRelated(a, e, d);
        RelatedRowsKeyed(s, d, a, e);
        RestoreEachSucceeds(s, a.target, rows, 0, d, true);
        assert RestoreAssociations(s, {}, t, e, i, d, result) ==
               RestoreAssociations(s, {}, t, e, i + 1, RestoreEach(s, {}, a.target, rows, 0, d, true).0, result);
        var d1 := RestoreEach(s, {}, a.target, rows, 0, d, true).0;
        RestoreEachOnlyUnmarks(s, {}, a.target, rows, 0, d, true);
        KeyedKept(s, d, d1);
        RestoreAssociationsSucceeds(s, t, e, i + 1, d1, result);
      }
    }
  }

  lemma {:induction false} RestoreEachSucceeds(s: Schema, c: TableId, rows: seq<Row>, j: nat, d: Data, allOk: bool)
    requires SchemaOk(s) && c in s && Keyed(s, d)
    requires forall j' :: 0 <= j' < |rows| ==> Extract(s[c].primaryKey, rows[j'].values).Some?
    ensures RestoreEach(s, {}, c, rows, j, d, allOk).1 == Ok(allOk)
    decreases s[c].rank, 3, |rows| - j
  {
    if j < |rows| {
      var e := Loaded(rows[j]);
      CascadingRestoreSucceeds(s, c, e, d);
      var d1 := CascadingRestore(s, {}, c, e, d).0;
      CascadingRestoreOnlyUnmarks(s, {}, c, e, d);
      KeyedKept(s, d, d1);
      RestoreEachSucceeds(s, c, rows, j + 1, d1, allOk);
    }
  }

  /** One step of the related-row loop with every save accepted, on keyed data. */
  lemma RestoreEachStepSucceeds(s: Schema, c: TableId, rows: seq<Row>, j: nat, d: Data, allOk: bool)
    requires SchemaOk(s) && c in s && Keyed(s, d)
    requires j < |rows| && Extract(s[c].primaryKey, rows[j].values).Some?
    ensures var (d1, r) := CascadingRestore(s, {}, c, Loaded(rows[j]), d);
            r.Ok? && r.value.Some? && Keyed(s, d1) && OnlyUnmarks(d, d1) &&
            RestoreEach(s, {}, c, rows, j, d, allOk) == RestoreEach(s, {}, c, rows, j + 1, d1, allOk) &&
            forall k :: 0 <= k < |Rows(d, c)| && Extract(s[c].primaryKey, Rows(d, c)[k].values) == Extract(s[c].primaryKey, rows[j].values) ==>
              !IsTrashed(Rows(d1, c)[k])
  {
    var e := Loaded(rows[j]);
    var (d1, r) := CascadingRestore(s, {}, c, e, d);
    CascadingRestoreSucceeds(s, c, e, d);
    CascadingRestoreOnlyUnmarks(s, {}, c, e, d);
    KeyedKept(s, d, d1);
    RestoredEntityRowsAreActive(s, {}, c, e, d);
    forall k | 0 <= k < |Rows(d, c)| && Extract(s[c].primaryKey, Rows(d, c)[k].values) == Extract(s[c].primaryKey, rows[j].values)
      ensures !IsTrashed(Rows(d1, c)[k])
    {
      assert HasKey(s[c].primaryKey, Extract(s[c].primaryKey, e.values).value, Rows(d, c)[k]);
    }
  }

  /**
   * With every save accepted, the loop over related rows restores every
   * row that shares a primary key with one of the rows still to process.
   */
  lemma {:induction false} RestoreEachReachesRow(s: Schema, c: TableId, rows: seq<Row>, j: nat, d: Data, allOk: bool, j0: nat, k: nat)
    requires SchemaOk(s) && c in s && Keyed(s, d)
    requires forall j' :: 0 <= j' < |rows| ==> Extract(s[c].primaryKey, rows[j'].values).Some?
    requires j <= j0 < |rows| && k < |Rows(d, c)|
    requires Extract(s[c].primaryKey, Rows(d, c)[k].values) == Extract(s[c].primaryKey, rows[j0].values)
    ensures k < |Rows(RestoreEach(s, {}, c, rows, j, d, allOk).0, c)|
    ensures !IsTrashed(Rows(RestoreEach(s, {}, c, rows, j, d, allOk).0, c)[k])
    decreases |rows| - j
  {
    var e := Loaded(rows[j]);
    RestoreEachStepSucceeds(s, c, rows, j, d, allOk);
    var d1 := CascadingRestore(s, {}, c, e, d).0;
    assert Rows(d1, c)[k].values == Rows(d, c)[k].values;
    if j0 == j {
      if j + 1 < |rows| {
        RestoreEachOnlyUnmarks(s, {}, c, rows, j + 1, d1, allOk);
      }
    } else {
      RestoreEachReachesRow(s, c, rows, j + 1, d1, allOk, j0, k);
    }
  }

  /** One association: every row of table `u` among the rows to restore ends up restored. */
  lemma RestoreEachReachesRelated(s: Schema, u: TableId, rows: seq<Row>, d: Data, allOk: bool, k: nat)
    requires SchemaOk(s) && u in s && Keyed(s, d)
    requires forall j :: 0 <= j < |rows| ==> Extract(s[u].primaryKey, rows[j].values).Some?
    requires k < |Rows(d, u)| && Rows(d, u)[k] in rows
    ensures k < |Rows(RestoreEach(s, {}, u, rows, 0, d, allOk).0, u)|
    ensures !IsTrashed(Rows(RestoreEach(s, {}, u, rows, 0, d, allOk).0, u)[k])
  {
    var j0 :| 0 <= j0 < |rows| && rows[j0] == Rows(d, u)[k];
    RestoreEachReachesRow(s, u, rows, 0, d, allOk, j0, k);
  }

  /**
   * One step of the association loop of the entity mode over a recursable
   * association, with every save accepted: its related rows are restored
   * without an exception, the store stays keyed, and the loop goes on with
   * the next association.
   */
  lemma RestoreAssociationsStep(s: Schema, t: TableId, e: Entity, i: nat, d: Data, result: Option<Entity>)
    requires SchemaOk(s) && t in s && Keyed(s, d)
    requires i < |s[t].associations| && Cascades(s, s[t].associations[i])
    ensures var a := s[t].associations[i];
            var (d1, ok) := RestoreEach(s, {}, a.target, RestoredRelated(a, e, d), 0, d, true);
            ok.Ok? && Keyed(s, d1) && OnlyUnmarks(d, d1) &&
            RestoreAssociations(s, {}, t, e, i, d, result) ==
            RestoreAssociations(s, {}, t, e, i + 1, d1, if ok.value then result else None)
  {
    var a := s[t].associations[i];
    var rows := RestoredRelated(a, e, d);
    RelatedRowsKeyed(s, d, a, e);
    RestoreEachSucceeds(s, a.target, rows, 0, d, true);
    RestoreEachOnlyUnmarks(s, {}, a.target, rows, 0, d, true);
    KeyedKept(s, d, RestoreEach(s, {}, a.target, rows, 0, d, true).0);
  }

  /**
   * With every save accepted, the association loop of the entity mode from
   * `i` on restores every row related to the entity through a recursable
   * HasOne or HasMany association, trashed or not.
   */
  lemma {:induction false} RestoreAssociationsReachesRow(s: Schema, t: TableId, e: Entity, i: nat, d: Data, result: Option<Entity>,
                                                         i0: nat, k: nat)
    requires SchemaOk(s) && t in s && Keyed(s, d)
    requires i <= i0 < |s[t].associations| && Cascades(s, s[t].associations[i0])
    requires Extract(s[t].associations[i0].bindingKey, e.values).Some?
    requires k < |Rows(d, s[t].associations[i0].target)|
    requires Extract(s[t].associations[i0].foreignKey, Rows(d, s[t].associations[i0].target)[k].values) ==
               Extract(s[t].associations[i0].bindingKey, e.values)
    ensures k < |Rows(RestoreAssociations(s, {}, t, e, i, d, result).0, s[t].associations[i0].target)|
    ensures !IsTrashed(Rows(RestoreAssociations(s, {}, t, e, i, d, result).0, s[t].associations[i0].target)[k])
    decreases |s[t].associations| - i
  {
    var a := s[t].associations[i];
    var u := s[t].associations[i0].target;
    if !Cascades(s, a) {
      RestoreAssociationsReachesRow(s, t, e, i + 1, d, result, i0, k);
    } else {
      if i0 == i {
        ReachesRowAtAssociation(s, t, e, i, d, result, k);
      } else {
        RestoreAssociationsStep(s, t, e, i, d, result);
        var (d1, ok) := RestoreEach(s, {}, a.target, RestoredRelated(a, e, d), 0, d, true);
        assert Rows(d1, u)[k].values == Rows(d, u)[k].values;
        RestoreAssociationsReachesRow(s, t, e, i + 1, d1, if ok.value then result else None, i0, k);
      }
    }
  }

  /** With every save accepted, a row related through association `i` is restored by that association's own loop. */
  lemma RelatedRowRestoredAtAssociation(s: Schema, t: TableId, e: Entity, i: nat, d: Data, k: nat)
    requires SchemaOk(s) && t in s && Keyed(s, d)
    requires i < |s[t].associations| && Cascades(s, s[t].associations[i])
    requires Extract(s[t].associations[i].bindingKey, e.values).Some?
    requires k < |Rows(d, s[t].associations[i].target)|
    requires Extract(s[t].associations[i].foreignKey, Rows(d, s[t].associations[i].target)[k].values) ==
               Extract(s[t].associations[i].bindingKey, e.values)
    ensures var a := s[t].associations[i];
            var d1 := RestoreEach(s, {}, a.target, RestoredRelated(a, e, d), 0, d, true).0;
            k < |Rows(d1, a.target)| && !IsTrashed(Rows(d1, a.target)[k])
  {
    var a := s[t].associations[i];
    var rows := RestoredRelated(a, e, d);
    RelatedRowsKeyed(s, d, a, e);
    assert Rows(d, a.target)[k] in rows;
    RestoreEachReachesRelated(s, a.target, rows, d, true, k);
  }

  /** With every save accepted, a row related through association `i` itself is restored by the loop from `i` on. */
  lemma ReachesRowAtAssociation(s: Schema, t: TableId, e: Entity, i: nat, d: Data, result: Option<Entity>, k: nat)
    requires SchemaOk(s) && t in s && Keyed(s, d)
    requires i < |s[t].associations| && Cascades(s, s[t].associations[i])
    requires Extract(s[t].associations[i].bindingKey, e.values).Some?
    requires k < |Rows(d, s[t].associations[i].target)|
    requires Extract(s[t].associations[i].foreignKey, Rows(d, s[t].associations[i].target)[k].values) ==
               Extract(s[t].associations[i].bindingKey, e.values)
    ensures k < |Rows(RestoreAssociations(s, {}, t, e, i, d, result).0, s[t].associations[i].target)|
    ensures !IsTrashed(Rows(RestoreAssociations(s, {}, t, e, i, d, result).0, s[t].associations[i].target)[k])
  {
    var a := s[t].associations[i];
    RestoreAssociationsStep(s, t, e, i, d, result);
    RelatedRowRestoredAtAssociation(s, t, e, i, d, k);
    var (d1, ok) := RestoreEach(s, {}, a.target, RestoredRelated(a, e, d), 0, d, true);
    RestoreAssociationsOnlyUnmarks(s, {}, t, e, i + 1, d1, if ok.value then result else None);
  }

  /**
   * The cascade of `cascadingRestoreTrash($entity)`: with every save
   * accepted, restoring a clean entity with its full key returns it and
   * restores every row related to it through a recursable HasOne or HasMany
   * association.
   */
  lemma RestoreReachesRelatedRows(s: Schema, t: TableId, e: Entity, d: Data, i: nat, k: nat)
    requires SchemaOk(s) && t in s && Keyed(s, d)
    requires !e.dirty && Extract(s[t].primaryKey, e.values).Some?
    requires i < |s[t].associations| && Cascades(s, s[t].associations[i])
    requires Extract(s[t].associations[i].bindingKey, e.values).Some?
    requires k < |Rows(d, s[t].associations[i].target)|
    requires Extract(s[t].associations[i].foreignKey, Rows(d, s[t].associations[i].target)[k].values) ==
               Extract(s[t].associations[i].bindingKey, e.values)
    ensures CascadingRestore(s, {}, t, e, d).1 == Ok(Some(e.(trashed := None, dirty := false)))
    ensures k < |Rows(CascadingRestore(s, {}, t, e, d).0, s[t].associations[i].target)|
    ensures !IsTrashed(Rows(CascadingRestore(s, {}, t, e, d).0, s[t].associations[i].target)[k])
  {
    CascadingRestoreSucceeds(s, t, e, d);
    var (d1, r) := RestoreEntity(s, {}, t, e, d);
    SaveOnlyUnmarks(s, {}, t, e.(trashed := None, dirty := true), d);
    KeyedKept(s, d, d1);
    var u := s[t].associations[i].target;
    assert Rows(d1, u)[k].values == Rows(d, u)[k].values;
    RestoreAssociationsReachesRow(s, t, e, 0, d1, r.value, i, k);
  }

  // ---------------------------------------------------------------------
  // Tables the cascade does not leave
  // ---------------------------------------------------------------------

  /** A table of rank 0 has no association the cascade follows. */
  lemma {:induction false} LeafFollowsNothing(s: Schema, rej: Rejections, t: TableId, e: Entity, i: nat, d: Data, result: Option<Entity>)
    requires SchemaOk(s) && t in s && s[t].rank == 0
    ensures RestoreAssociations(s, rej, t, e, i, d, result) == (d, Ok(result))
    decreases |s[t].associations| - i
  {
    if i < |s[t].associations| {
      assert !Cascades(s, s[t].associations[i]);
      LeafFollowsNothing(s, rej, t, e, i + 1, d, result);
    }
  }

  /**
   * Cascading restore of a clean entity of a table of rank 0 raises
   * exactly when the entity lacks its full primary key, changes no other
   * table, and no row of its own table whose primary key differs from the
   * entity's.
   */
  lemma LeafRestoreFrame(s: Schema, rej: Rejections, c: TableId, e: Entity, d: Data)
    requires SchemaOk(s) && c in s && s[c].rank == 0 && !e.dirty
    ensures CascadingRestore(s, rej, c, e, d).1.Ok? <==> Extract(s[c].primaryKey, e.values).Some?
    ensures forall u :: u != c ==> Rows(CascadingRestore(s, rej, c, e, d).0, u) == Rows(d, u)
    ensures |Rows(CascadingRestore(s, rej, c, e, d).0, c)| == |Rows(d, c)|
    ensures forall k :: 0 <= k < |Rows(d, c)| && Extract(s[c].primaryKey, e.values) != Extract(s[c].primaryKey, Rows(d, c)[k].values) ==>
                        Rows(CascadingRestore(s, rej, c, e, d).0, c)[k] == Rows(d, c)[k]
  {
    var (d0, r0) := RestoreEntity(s, rej, c, e, d);
    if r0.Ok? {
      LeafFollowsNothing(s, rej, c, e, 0, d0, r0.value);
    }
  }

  /**
   * Restoring rows of a table of rank 0 one by one changes no other table,
   * and no row of that table whose primary key differs from every row
   * still to process.
   */
  lemma {:induction false} LeafRestoreEachFrame(s: Schema, rej: Rejections, c: TableId, rows: seq<Row>, j: nat, d: Data, allOk: bool)
    requires SchemaOk(s) && c in s && s[c].rank == 0
    ensures forall u :: u != c ==> Rows(RestoreEach(s, rej, c, rows, j, d, allOk).0, u) == Rows(d, u)
    ensures forall k :: 0 <= k < |Rows(d, c)| &&
                        (forall j' :: j <= j' < |rows| ==>
                           Extract(s[c].primaryKey, rows[j'].values) != Extract(s[c].primaryKey, Rows(d, c)[k].values)) ==>
                        k < |Rows(RestoreEach(s, rej, c, rows, j, d, allOk).0, c)| &&
                        Rows(RestoreEach(s, rej, c, rows, j, d, allOk).0, c)[k] == Rows(d, c)[k]
    decreases |rows| - j
  {
    if j < |rows| {
      var e := Loaded(rows[j]);
      LeafRestoreFrame(s, rej, c, e, d);
      var (d1, r) := CascadingRestore(s, rej, c, e, d);
      var d2 := d1;
      if r.Ok? {
        var next := allOk && r.value.Some?;
        LeafRestoreEachFrame(s, rej, c, rows, j + 1, d1, next);
        d2 := RestoreEach(s, rej, c, rows, j + 1, d1, next).0;
      }
      assert RestoreEach(s, rej, c, rows, j, d, allOk).0 == d2;
      forall k | 0 <= k < |Rows(d, c)| &&
                 (forall j' :: j <= j' < |rows| ==>
                    Extract(s[c].primaryKey, rows[j'].values) != Extract(s[c].primaryKey, Rows(d, c)[k].values))
        ensures k < |Rows(d2, c)| && Rows(d2, c)[k] == Rows(d, c)[k]
      {
        assert Rows(d1, c)[k] == Rows(d, c)[k];
      }
    } else {
      assert RestoreEach(s, rej, c, rows, j, d, allOk).0 == d;
    }
  }

  lemma {:induction false} CascadingRestoreWithin(s: Schema, rej: Rejections, t: TableId, e: Entity, d: Data)
    requires SchemaOk(s) && t in s
    ensures Within(d, CascadingRestore(s, rej, t, e, d).0, Reach(s, t))
    decreases s[t].rank, 2
  {
    if RestoreEntity(s, rej, t, e, d).1.Ok? {
      var (d1, r) := RestoreEntity(s, rej, t, e, d);
      RestoreAssociationsWithin(s, rej, t, e, 0, d1, r.value);
      WithinTransitive(d, d1, RestoreAssociations(s, rej, t, e, 0, d1, r.value).0, {t}, ReachFrom(s, t, 0), Reach(s, t));
    }
  }

  lemma {:induction false} RestoreAssociationsWithin(s: Schema, rej: Rejections, t: TableId, e: Entity, i: nat,
                                                     d: Data, result: Option<Entity>)
    requires SchemaOk(s) && t in s
    ensures Within(d, RestoreAssociations(s, rej, t, e, i, d, result).0, ReachFrom(s, t, i))
    decreases s[t].rank, 1, |s[t].associations| - i
  {
    if i < |s[t].associations| {
      var a := s[t].associations[i];
      if !Cascades(s, a) {
        RestoreAssociationsWithin(s, rej, t, e, i + 1, d, result);
      } else {
        var rows := RestoredRelated(a, e, d);
        var (d1, ok) := RestoreEach(s, rej, a.target, rows, 0, d, true);
        RestoreEachWithin(s, rej, a.target, rows, 0, d, true);
        if ok.Ok? {
          var next := if ok.value then result else None;
          RestoreAssociationsWithin(s, rej, t, e, i + 1, d1, next);
          WithinTransitive(d, d1, RestoreAssociations(s, rej, t, e, i + 1, d1, next).0,
                           Reach(s, a.target), ReachFrom(s, t, i + 1), ReachFrom(s, t, i));
        }
      }
    }
  }

  lemma {:induction false} RestoreEachWithin(s: Schema, rej: Rejections, c: TableId, rows: seq<Row>, j: nat,
                                             d: Data, allOk: bool)
    requires SchemaOk(s) && c in s
    ensures Within(d, RestoreEach(s, rej, c, rows, j, d, allOk).0, Reach(s, c))
    decreases s[c].rank, 3, |rows| - j
  {
    if j < |rows| {
      var (d1, r) := CascadingRestore(s, rej, c, Loaded(rows[j]), d);
      CascadingRestoreWithin(s, rej, c, Loaded(rows[j]), d);
      if r.Ok? {
        RestoreEachWithin(s, rej, c, rows, j + 1, d1, allOk && r.value.Some?);
      }
    }
  }

  /**
   * What `cascadingRestoreTrash($entity)` may write: only tables the
   * cascade reaches, and in the entity's own table only the rows with the
   * entity's primary key.
   */
  lemma CascadingRestoreFrame(s: Schema, rej: Rejections, t: TableId, e: Entity, d: Data)
    requires SchemaOk(s) && t in s
    ensures Within(d, CascadingRestore(s, rej, t, e, d).0, Reach(s, t))
    ensures |Rows(CascadingRestore(s, rej, t, e, d).0, t)| == |Rows(d, t)|
    ensures forall k :: 0 <= k < |Rows(d, t)| && Extract(s[t].primaryKey, Rows(d, t)[k].values) != Extract(s[t].primaryKey, e.values) ==>
              Rows(CascadingRestore(s, rej, t, e, d).0, t)[k] == Rows(d, t)[k]
  {
    CascadingRestoreWithin(s, rej, t, e, d);
    if RestoreEntity(s, rej, t, e, d).1.Ok? {
      var (d1, r) := RestoreEntity(s, rej, t, e, d);
      RestoreAssociationsOnlyUnmarks(s, rej, t, e, 0, d1, r.value);
    }
  }

  /** No two rows of a table of the schema share a primary-key value. */
  ghost predicate UniqueKeys(s: Schema, d: Data) {
    forall t, k1, k2 :: t in s && 0 <= k1 < |Rows(d, t)| && 0 <= k2 < |Rows(d, t)| && k1 != k2 ==>
      Extract(s[t].primaryKey, Rows(d, t)[k1].values) != Extract(s[t].primaryKey, Rows(d, t)[k2].values)
  }

  lemma UniqueKeysKept(s: Schema, d: Data, d': Data)
    requires UniqueKeys(s, d) && SameShape(d, d')
    ensures UniqueKeys(s, d')
  {
    forall t, k1, k2 | t in s && 0 <= k1 < |Rows(d', t)| && 0 <= k2 < |Rows(d', t)| && k1 != k2
      ensures Extract(s[t].primaryKey, Rows(d', t)[k1].values) != Extract(s[t].primaryKey, Rows(d', t)[k2].values)
    {
      assert Rows(d', t)[k1].values == Rows(d, t)[k1].values;
      assert Rows(d', t)[k2].values == Rows(d, t)[k2].values;
    }
  }

  /** Is `row` related to the entity `e` through association `a`? */
  ghost predicate RelatedTo(a: Association, e: Entity, row: Row) {
    Extract(a.bindingKey, e.values).Some? && Extract(a.foreignKey, row.values) == Extract(a.bindingKey, e.values)
  }

  /**
   * Restoring the rows related through one followed association whose
   * target has rank 0 keeps a row of table `u` that the association does
   * not relate to the entity, and keeps the keys unique.
   */
  lemma LeafStepKeepsRow(s: Schema, rej: Rejections, t: TableId, e: Entity, i: nat, d: Data, u: TableId, k: nat)
    requires SchemaOk(s) && t in s && UniqueKeys(s, d)
    requires i < |s[t].associations| && Cascades(s, s[t].associations[i])
    requires s[s[t].associations[i].target].rank == 0
    requires k < |Rows(d, u)|
    requires s[t].associations[i].target == u ==> !RelatedTo(s[t].associations[i], e, Rows(d, u)[k])
    ensures var a := s[t].associations[i];
            var d1 := RestoreEach(s, rej, a.target, RestoredRelated(a, e, d), 0, d, true).0;
            k < |Rows(d1, u)| && Rows(d1, u)[k] == Rows(d, u)[k] && UniqueKeys(s, d1)
  {
    var a := s[t].associations[i];
    var c := a.target;
    var rows := RestoredRelated(a, e, d);
    LeafRestoreEachFrame(s, rej, c, rows, 0, d, true);
    if u == c {
      forall j' | 0 <= j' < |rows|
        ensures Extract(s[c].primaryKey, rows[j'].values) != Extract(s[c].primaryKey, Rows(d, c)[k].values)
      {
        assert rows[j'] in rows;
        var k' :| 0 <= k' < |Rows(d, c)| && Rows(d, c)[k'] == rows[j'];
        assert RelatedTo(a, e, Rows(d, c)[k']);
      }
    }
    RestoreEachOnlyUnmarks(s, rej, c, rows, 0, d, true);
    UniqueKeysKept(s, d, RestoreEach(s, rej, c, rows, 0, d, true).0);
  }

  /**
   * The association loop of the entity mode, when every followed target has
   * rank 0, keeps a row of table `u` that no followed association from `i`
   * on relates to the entity.
   */
  lemma {:induction false} LeafAssociationsKeepRow(s: Schema, rej: Rejections, t: TableId, e: Entity, i: nat,
                                                   d: Data, result: Option<Entity>, u: TableId, k: nat)
    requires SchemaOk(s) && t in s && UniqueKeys(s, d)
    requires forall i' :: 0 <= i' < |s[t].associations| && Cascades(s, s[t].associations[i']) ==>
               s[s[t].associations[i'].target].rank == 0
    requires k < |Rows(d, u)|
    requires forall i' :: i <= i' < |s[t].associations| && Cascades(s, s[t].associations[i']) &&
                          s[t].associations[i'].target == u ==>
                          !RelatedTo(s[t].associations[i'], e, Rows(d, u)[k])
    ensures k < |Rows(RestoreAssociations(s, rej, t, e, i, d, result).0, u)|
    ensures Rows(RestoreAssociations(s, rej, t, e, i, d, result).0, u)[k] == Rows(d, u)[k]
    decreases |s[t].associations| - i
  {
    if i < |s[t].associations| {
      var a := s[t].associations[i];
      if !Cascades(s, a) {
        LeafAssociationsKeepRow(s, rej, t, e, i + 1, d, result, u, k);
      } else {
        LeafStepKeepsRow(s, rej, t, e, i, d, u, k);
        RestoreAssociationsStepAny(s, rej, t, e, i, d, result);
        var (d1, ok) := RestoreEach(s, rej, a.target, RestoredRelated(a, e, d), 0, d, true);
        if ok.Ok? {
          LeafAssociationsKeepRow(s, rej, t, e, i + 1, d1, if ok.value then result else None, u, k);
        }
      }
    }
  }

  /**
   * When every association `cascadingRestoreTrash($entity)` follows leads
   * to a table of rank 0 and primary keys are unique, a row of another
   * table that none of those associations relates to the entity stays as
   * it was; in particular every table that no followed association targets
   * stays as it was.
   */
  lemma CascadingRestoreKeepsUnrelatedRows(s: Schema, rej: Rejections, t: TableId, e: Entity, d: Data, u: TableId, k: nat)
    requires SchemaOk(s) && t in s && UniqueKeys(s, d)
    requires forall i :: 0 <= i < |s[t].associations| && Cascades(s, s[t].associations[i]) ==>
               s[s[t].associations[i].target].rank == 0
    requires u != t && k < |Rows(d, u)|
    requires forall i :: 0 <= i < |s[t].associations| && Cascades(s, s[t].associations[i]) &&
                         s[t].associations[i].target == u ==>
                         !RelatedTo(s[t].associations[i], e, Rows(d, u)[k])
    ensures k < |Rows(CascadingRestore(s, rej, t, e, d).0, u)|
    ensures Rows(CascadingRestore(s, rej, t, e, d).0, u)[k] == Rows(d, u)[k]
  {
    if RestoreEntity(s, rej, t, e, d).1.Ok? {
      var (d1, r) := RestoreEntity(s, rej, t, e, d);
      SaveOnlyUnmarks(s, rej, t, e.(trashed := None, dirty := true), d);
      UniqueKeysKept(s, d, d1);
      LeafAssociationsKeepRow(s, rej, t, e, 0, d1, r.value, u, k);
    }
  }

  // ---------------------------------------------------------------------
  // Exceptions
  // ---------------------------------------------------------------------

  /**
   * A clean entity without its full primary key: the host's `save()` of
   * the stored entity raises, before anything is written and before any
   * association is followed.
   */
  lemma RestoreWithoutKeyRaises(s: Schema, rej: Rejections, t: TableId, e: Entity, d: Data)
    requires SchemaOk(s) && t in s && !e.dirty
    requires Extract(s[t].primaryKey, e.values).None?
    ensures RestoreEntity(s, rej, t, e, d) == (d, Err(UpdateWithoutKey))
    ensures CascadingRestore(s, rej, t, e, d) == (d, Err(UpdateWithoutKey))
  {
  }

  /**
   * `cascadingRestoreTrash($entity)` of a clean entity with its full
   * primary key, in a store whose rows all carry theirs, raises nothing:
   * related rows are loaded clean and keyed, so neither exception can
   * arise below.
   */
  lemma {:induction false} CleanRestoreRaisesNothing(s: Schema, rej: Rejections, t: TableId, e: Entity, d: Data)
    requires SchemaOk(s) && t in s && Keyed(s, d)
    requires !e.dirty && Extract(s[t].primaryKey, e.values).Some?
    ensures CascadingRestore(s, rej, t, e, d).1.Ok?
    decreases s[t].rank, 2
  {
    var (d1, r) := RestoreEntity(s, rej, t, e, d);
    SaveOnlyUnmarks(s, rej, t, e.(trashed := None, dirty := true), d);
    KeyedKept(s, d, d1);
    RestoreAssociationsRaiseNothing(s, rej, t, e, 0, d1, r.value);
  }

  lemma {:induction false} RestoreAssociationsRaiseNothing(s: Schema, rej: Rejections, t: TableId, e: Entity, i: nat,
                                                           d: Data, result: Option<Entity>)
    requires SchemaOk(s) && t in s && Keyed(s, d)
    ensures RestoreAssociations(s, rej, t, e, i, d, result).1.Ok?
    decreases s[t].rank, 1, |s[t].associations| - i
  {
    if i < |s[t].associations| {
      var a := s[t].associations[i];
      if !Cascades(s, a) {
        RestoreAssociationsRaiseNothing(s, rej, t, e, i + 1, d, result);
      } else {
        var rows := RestoredRelated(a, e, d);
        RelatedRowsKeyed(s, d, a, e);
        RestoreEachRaisesNothing(s, rej, a.target, rows, 0, d, true);
        var (d1, ok) := RestoreEach(s, rej, a.target, rows, 0, d, true);
        RestoreEachOnlyUnmarks(s, rej, a.target, rows, 0, d, true);
        KeyedKept(s, d, d1);
        RestoreAssociationsRaiseNothing(s, rej, t, e, i + 1, d1, if ok.value then result else None);
      }
    }
  }

  lemma {:induction false} RestoreEachRaisesNothing(s: Schema, rej: Rejections, c: TableId, rows: seq<Row>, j: nat, d: Data, allOk: bool)
    requires SchemaOk(s) && c in s && Keyed(s, d)
    requires forall j' :: 0 <= j' < |rows| ==> Extract(s[c].primaryKey, rows[j'].values).Some?
    ensures RestoreEach(s, rej, c, rows, j, d, allOk).1.Ok?
    decreases s[c].rank, 3, |rows| - j
  {
    if j < |rows| {
      CleanRestoreRaisesNothing(s, rej, c, Loaded(rows[j]), d);
      var (d1, r) := CascadingRestore(s, rej, c, Loaded(rows[j]), d);
      CascadingRestoreOnlyUnmarks(s, rej, c, Loaded(rows[j]), d);
      KeyedKept(s, d, d1);
      RestoreEachRaisesNothing(s, rej, c, rows, j + 1, d1, allOk && r.value.Some?);
    }
  }
}
