# Trash: a verified model of a soft-delete behaviour

Trash is a CakePHP plugin. Its one component with real logic is
`TrashBehavior`. It turns deletes on a table into soft deletes by setting a
trash field, usually `deleted` or `trashed`, to the current time. It
filters trashed rows out of ordinary finds and offers the `onlyTrashed` and
`withTrashed` finders. It can trash or restore rows one by one or in bulk,
and it can physically purge the trash. `trash()` cascades into dependent
associations, and `cascadingRestoreTrash()` undoes that cascade.

The project models that behaviour in Dafny and proves what it does.

- **`Php`** (`php.dfy`) models the PHP values the behaviour's configuration
  is made of:
  - ordered arrays with overwrite-or-append assignment;
  - `empty()`, truthiness and the `(array)` cast;
  - `is_numeric` on array keys;
  - the `pluginSplit` suffix, which is everything after the first dot.
- **`Events`** (`events.dfy`) covers `initialize()` and
  `implementedEvents()`. The event map is a fold over the configured
  entries, and the fold stops at the first entry that raises.
- **`TrashField`** (`trash_field.dfy`) is the resolution order behind
  `getTrashField()`:
  - the configured field;
  - then a `deleted` column;
  - then a `trashed` column;
  - then the global `Muffin/Trash.field` setting;
  - and otherwise an exception.
- **`QueryFilter`** (`query_filter.dfy`) has three parts:
  - a small expression tree for query conditions;
  - the traversal `beforeFind()` makes over the tree, and its decision to
    add `field IS NULL`;
  - the two finders, plus a row-selection semantics under which the three
    find modes partition a table.
- **`Behavior.TrashBehavior`** (`behavior.dfy`) is the behaviour object
  itself:
  - its configuration is its fields;
  - `getTrashField()` is a loop that caches the resolved name into those
    fields;
  - `implementedEvents()` is a loop proved equal to the fold.
- **`Store`** (`store.dfy`) holds the tables as an in-memory store: a
  sequence of rows per table, in database order. Each row carries its trash
  field as `Option<Timestamp>`, with `None` standing for NULL. On that store,
  `Store` gives the state-changing operations as functions of the state
  before the call:
  - `trash()` with its cascade;
  - `trashAll()`, `emptyTrash()` and `restoreTrash()`, each with and
    without an entity;
  - `cascadingRestoreTrash()` in both its bulk mode and its entity mode;
  - `_isRecursable()` as the predicate `Store.Recursable`: the target
    carries the behaviour, the source is the owning side, and the
    association is dependent with cascading callbacks. The lemmas
    `TrashFacts.UnrecursableSkipped` and `TrashFacts.NoRecursableStaysInTable`
    state what it decides: an association that fails it is never followed.
- **`Tables.Database`** (`tables.dfy`) is the same operations as methods on
  a class whose `data` field they update in place, with loops over
  associations and related rows. `beforeDelete()` also updates an event
  object and an options object. Each method is proved to leave exactly the
  state, and return exactly the result, that the matching `Store` function
  gives.
- **`TrashFacts` and `RestoreFacts`** (`trash_facts.dfy`,
  `restore_facts.dfy`) state what the operations guarantee:
  - trashing only sets trash fields, each to the current time, and
    restoring only clears them;
  - both stay within the tables the cascade reaches (`TrashFacts.Reach`),
    and in the entity's own table they touch only the rows with its key;
  - when every followed association leads to a table of rank 0, rows that
    no followed association relates to the entity stay as they were;
  - the cascade reaches every related row;
  - some exceptions leave the store untouched;
  - the result is exactly the save outcome, and a refused save anywhere in
    a cascading restore turns its result false.
- **`StoreScenarios`, `BehaviorScenarios` and `TableScenarios`** replay the
  plugin's test fixtures and prove the outcomes its test suite expects.

The host ORM's save is an oracle. It is the set `rej` of (table, primary
key) pairs whose save the host refuses. The frame, exception and failure
properties hold for every `rej`. The lemmas saying that a cascade reaches
every related row assume that the host refuses nothing (`rej = {}`). The
current time is the parameter `now`.

Two properties rest on database invariants, stated as predicates:
`TrashFacts.Keyed` (every stored row has its full primary key) and
`RestoreFacts.UniqueKeys` (no two rows of a table share a primary key).

The cascade has no visited set. To make it terminate, every table has a
`rank`, and `Store.SchemaOk` requires each association the cascade follows
to lead to a table of strictly smaller rank.

`cascadingRestoreTrash()` without an entity follows an association only when
`$result > 1`. The model keeps that guard as written, so a bulk restore that
restores exactly one root row does not descend (`RestoreFacts.BulkRestoreStopsAtOne`),
while one that restores more clears the trash of every followed target
(`RestoreFacts.BulkRestoreClearsFollowedTargets`).

## Model

| member | source | states |
|---|---|---|
| Php.Put | src/Model/Behavior/TrashBehavior.php:94 | `$events[$eventKey] = $event`: afterwards the key maps to the new value, every other key keeps its value, and a new key is appended at the end while an existing one keeps its place |
| Php.ToArray | src/Model/Behavior/TrashBehavior.php:76 | the `(array)` cast: an array is itself, null and objects give the empty array, and a scalar becomes a one-element list at key 0 |
| Php.FirstDot | src/Model/Behavior/TrashBehavior.php:89 | finds the first `.` of a name: the index holds a dot and no earlier index does; absent exactly when the name has no dot |
| Php.AfterFirstDot | src/Model/Behavior/TrashBehavior.php:89 | the second half of `pluginSplit`: the text after the first dot, or the whole name when it has none |
| Events.Initialize | src/Model/Behavior/TrashBehavior.php:57-62 | a non-empty configured `events` replaces the current setting outright; an empty one (missing, `[]`, null, false) keeps it |
| Events.HostMerge | src/Model/Behavior/TrashBehavior.php:44-47 | the host's config merge: an empty list leaves the default list in place, and a non-array value replaces it |
| Events.ConfiguredEvents | src/Model/Behavior/TrashBehavior.php:57-62 | the `events` setting after construction: no setting or an empty array keeps the defaults; any other configured value, including null, false or `""`, becomes the setting exactly |
| Events.Complete | src/Model/Behavior/TrashBehavior.php:88-93 | a missing or null `callable` becomes the event name after its first dot, and a present one is kept; `priority` is present iff the entry had one or the global priority is truthy, and the entry's own wins; no other key changes |
| Events.Normalise | src/Model/Behavior/TrashBehavior.php:76-94 | under a numeric key the value must be a string (the event name), and anything else fails as a name error; under a name key, null, a string or an array succeeds and anything else raises `InvalidArgumentException`; every success carries a non-null `callable` |
| Events.EventsOf | src/Model/Behavior/TrashBehavior.php:70-75 | `events === false` yields the empty map |
| Events.CollectOkIffAllEntriesOk | src/Model/Behavior/TrashBehavior.php:76-95 | the event map is built iff every configured entry normalises; one bad entry raises |
| Events.CollectFailsAtFirstBadEntry | src/Model/Behavior/TrashBehavior.php:84-86 | the exception raised is that of the first bad entry, whatever follows it |
| Events.CollectKeepsUnnamed | src/Model/Behavior/TrashBehavior.php:94 | an event name no entry produces keeps its prior value |
| Events.CollectLastEntryWins | src/Model/Behavior/TrashBehavior.php:94 | an event name maps to the handler of the last entry that produces it |
| Events.CollectNamesComeFromEntries | src/Model/Behavior/TrashBehavior.php:76-95 | every name in the result was there before or is produced by some entry |
| Behavior.TrashBehavior.constructor | src/Model/Behavior/TrashBehavior.php:57-62 | the behaviour's `events` setting is the default list when none is configured or the configured one is an empty array, and otherwise exactly the configured value, even null or false |
| Behavior.TrashBehavior.ImplementedEvents | src/Model/Behavior/TrashBehavior.php:70-98 | the `foreach` loop returns exactly the fold's event map, or its first exception |
| TrashField.Resolve | src/Model/Behavior/TrashBehavior.php:353-376 | a resolved field is never empty and is one of the configured field, `deleted`, `trashed` or the global setting |
| TrashField.AliasField | src/Model/Behavior/TrashBehavior.php:378-380 | `aliasField`: the result ends with the field and is qualified by a dot; an already-qualified field is unchanged |
| TrashField.ConfiguredFieldWins | src/Model/Behavior/TrashBehavior.php:355-357 | a non-empty configured field is returned verbatim, whatever the columns are |
| TrashField.DeletedBeatsTrashed | src/Model/Behavior/TrashBehavior.php:359-364 | with no configured field, a `deleted` column wins even when `trashed` also exists |
| TrashField.GlobalIsLastResort | src/Model/Behavior/TrashBehavior.php:367-373 | with neither column, resolution succeeds iff the global setting is non-empty, and then returns it; otherwise it raises |
| TrashField.ResolvedNameIsStable | src/Model/Behavior/TrashBehavior.php:375 | once the resolved name is written back to the config, resolving again returns it whatever the columns and global setting have become |
| TrashField.AliasFieldIdempotent | src/Model/Behavior/TrashBehavior.php:378-380 | aliasing an aliased field changes nothing |
| Behavior.TrashBehavior.GetTrashField | src/Model/Behavior/TrashBehavior.php:353-383 | the loop over `['deleted', 'trashed']` returns the resolved field, aliased when asked, or raises; on success it caches the name in the config; the other settings are unchanged |
| QueryFilter.Nodes | src/Model/Behavior/TrashBehavior.php:186 | the traversal lists the expression itself and then what its operands reach; the order is the model's own, and only which expressions appear matters to the decision |
| QueryFilter.NodesAppend | src/Model/Behavior/TrashBehavior.php:186 | traversing two condition lists one after the other visits the same nodes as traversing their concatenation |
| QueryFilter.VisitClearsIffReferred | src/Model/Behavior/TrashBehavior.php:186-206 | the closure leaves `$addCondition` true iff no identifier, comparison or between node names the field; once false it stays false |
| QueryFilter.AndWhere | src/Model/Behavior/TrashBehavior.php:211 | `andWhere` appends one grouped conjunct and keeps the options |
| QueryFilter.AndWhereMentions | src/Model/Behavior/TrashBehavior.php:211 | after `andWhere(field IS [NOT] NULL)` the conditions mention the field |
| QueryFilter.GroupedNullTestNodes | src/Model/Behavior/TrashBehavior.php:211 | the added condition is traversed as the group, the null test, then the field's identifier |
| QueryFilter.BeforeFindAddsIffUnmentioned | src/Model/Behavior/TrashBehavior.php:181-213 | `beforeFind` appends `field IS NULL` exactly when no condition mentions the field and `skipAddTrashCondition` is unset; otherwise the query is unchanged |
| QueryFilter.BeforeFindIdempotent | src/Model/Behavior/TrashBehavior.php:208-212 | running `beforeFind` twice adds the filter at most once |
| QueryFilter.OnlyTrashed | src/Model/Behavior/TrashBehavior.php:222-225 | `findOnlyTrashed` leaves conditions that mention the field, so `beforeFind` adds nothing to them |
| QueryFilter.WithTrashed | src/Model/Behavior/TrashBehavior.php:234-239 | `findWithTrashed` sets `skipAddTrashCondition` and leaves the conditions alone |
| QueryFilter.Select | src/Model/Behavior/TrashBehavior.php:210-212 | what a query returns: a row is selected iff it is in the table and satisfies every condition, and no more rows come back than the table holds |
| QueryFilter.AndWhereSelects | src/Model/Behavior/TrashBehavior.php:210-212 | adding `field IS NULL` / `IS NOT NULL` keeps exactly the selected rows whose field is null / not null |
| QueryFilter.SelectSplits | src/Model/Behavior/TrashBehavior.php:222-225 | the null rows and the non-null rows of a selection add up to the whole selection |
| QueryFilter.FindModesPartition | src/Model/Behavior/TrashBehavior.php:222-239 | on a query that does not mention the field, a default find returns the active rows, `onlyTrashed` the trashed ones and `withTrashed` all of them, so the first two counts sum to the third |
| QueryFilter.SameConditionsSelectSame | src/Model/Behavior/TrashBehavior.php:234-239 | `skipAddTrashCondition` does not change which rows a query selects |
| Behavior.TrashBehavior.BeforeFind | src/Model/Behavior/TrashBehavior.php:181-213 | resolves the aliased field and then filters as `QueryFilter.BeforeFind`, or raises when no field resolves and keeps the field setting; the priority and events settings never change |
| Behavior.TrashBehavior.FindOnlyTrashed | src/Model/Behavior/TrashBehavior.php:222-225 | adds `field IS NOT NULL` for the resolved aliased field, or raises and keeps the field setting; the priority and events settings never change |
| Behavior.TrashBehavior.FindWithTrashed | src/Model/Behavior/TrashBehavior.php:234-239 | returns the query with `skipAddTrashCondition` set |
| Store.Extract | src/Model/Behavior/TrashBehavior.php:147-151 | a key is extracted iff every key field is set, and then it lists those fields' values in order |
| Store.Loaded | src/Model/Behavior/TrashBehavior.php:316 | a row fetched by a find is a clean entity with the row's values and trash field |
| Store.SetTrashed | src/Model/Behavior/TrashBehavior.php:165 | saving an entity writes its trash field into exactly the rows with its primary key |
| Store.Related | src/Model/Behavior/TrashBehavior.php:311-316 | the rows an association finds are exactly those whose foreign key equals the entity's binding key (active ones only, for a trash cascade) |
| Store.UpdateWhere | src/Model/Behavior/TrashBehavior.php:250-253 | `updateAll` sets the trash field of exactly the matching rows and changes nothing else |
| Store.KeepActive | src/Model/Behavior/TrashBehavior.php:261-264 | after the purge a row remains iff it was in the table and not trashed |
| TrashFacts.SaveOnlyMarks | src/Model/Behavior/TrashBehavior.php:162-165 | saving an entity stamped with the current time changes no values, and every trash field it changes now holds that time |
| TrashFacts.SaveWritesKeyedRows | src/Model/Behavior/TrashBehavior.php:165-169 | a save that succeeds had a full primary key the host accepted, and its rows now carry the entity's trash field |
| TrashFacts.TrashOnlyMarks | src/Model/Behavior/TrashBehavior.php:143-170 | `trash()`, with its cascade, only sets trash fields, each to the current time: no row is added, removed, reordered or given other values, and every row either keeps its trash field or holds the current time |
| TrashFacts.CascadeAllOnlyMarks | src/Model/Behavior/TrashBehavior.php:153-160 | the cascade loop over the associations only sets trash fields to the current time |
| TrashFacts.CascadeDeleteOnlyMarks | src/Model/Behavior/TrashBehavior.php:157 | `cascadeDelete` into one association only sets trash fields to the current time |
| TrashFacts.DeleteEachOnlyMarks | src/Model/Behavior/TrashBehavior.php:157 | deleting the related rows one by one only sets trash fields to the current time |
| TrashFacts.TrashReturnsSaveOutcome | src/Model/Behavior/TrashBehavior.php:162-169 | with a full primary key, `trash()` returns exactly whether the host accepted the save; nothing in the cascade changes that result |
| TrashFacts.CascadeAllRaisesNothing | src/Model/Behavior/TrashBehavior.php:153-160 | on a store whose rows all have primary keys, the cascade never raises |
| TrashFacts.CascadeDeleteRaisesNothing | src/Model/Behavior/TrashBehavior.php:157 | `cascadeDelete` into one association never raises |
| TrashFacts.DeleteEachRaisesNothing | src/Model/Behavior/TrashBehavior.php:157 | deleting keyed related rows never raises |
| TrashFacts.TrashMarksEntityRows | src/Model/Behavior/TrashBehavior.php:162-166 | after a successful `trash()` the entity's rows carry the current time |
| TrashFacts.DeleteEachReachesAll | src/Model/Behavior/TrashBehavior.php:157 | deleting a list of related rows trashes every stored row with one of their keys |
| TrashFacts.CascadeAllReachesRelated | src/Model/Behavior/TrashBehavior.php:153-160 | the cascade trashes every active row related through any association it follows |
| TrashFacts.CascadeDeleteReachesRelated | src/Model/Behavior/TrashBehavior.php:157 | `cascadeDelete` trashes every active related row of its association |
| TrashFacts.TrashReachesRelatedRows | src/Model/Behavior/TrashBehavior.php:153-170 | with `cascadeOnTrash`, a successful `trash()` also leaves every related row of a followed association trashed |
| TrashFacts.TrashWithoutKeyRaises | src/Model/Behavior/TrashBehavior.php:147-151 | a missing primary-key field raises before anything is changed |
| TrashFacts.KeepActiveCount | src/Model/Behavior/TrashBehavior.php:261-264 | the kept rows and the trashed rows add up to the table |
| TrashFacts.EmptyTrashRemovesExactlyTrashed | src/Model/Behavior/TrashBehavior.php:261-264 | `emptyTrash()` deletes exactly the trashed rows, returns their number, and leaves active rows and other tables untouched |
| TrashFacts.CountAfterUpdate | src/Model/Behavior/TrashBehavior.php:248-254 | after `trashAll` the trashed rows are the matching rows plus the non-matching rows already trashed |
| TrashFacts.CountWherePrefix | src/Model/Behavior/TrashBehavior.php:250-253 | counting the first `n` rows gives the number of positions below `n` whose row matches |
| TrashFacts.CountWhereCountsMatching | src/Model/Behavior/TrashBehavior.php:250-253 | the count `updateAll` returns is exactly the number of positions whose row matches the conditions |
| TrashFacts.TrashAllOnlyMarks | src/Model/Behavior/TrashBehavior.php:248-254 | `trashAll` keeps every row's values and only stamps trash fields with the current time |
| TrashFacts.TrashAllMarksMatching | src/Model/Behavior/TrashBehavior.php:248-254 | `trashAll` sets the trash field of exactly the rows matching its conditions to the current time, keeps everything else of every row, returns the number of matching rows, and leaves other tables untouched |
| TrashFacts.ReachBelow | src/Model/Behavior/TrashBehavior.php:153-160 | every table the cascade from `t` reaches is in the schema and has no greater rank than `t` |
| TrashFacts.ReachFromBelow | src/Model/Behavior/TrashBehavior.php:153-160 | the tables reached through the followed associations have a rank strictly below the source, so never include it |
| TrashFacts.ReachOfLeafTargets | src/Model/Behavior/TrashBehavior.php:153-160 | when every followed association leads to a table of rank 0, the associations reach nothing but their own targets |
| TrashFacts.TrashWithin | src/Model/Behavior/TrashBehavior.php:143-170 | `trash()` changes only tables the cascade from the entity's table reaches |
| TrashFacts.CascadeAllWithin | src/Model/Behavior/TrashBehavior.php:153-160 | the cascade loop changes only tables its followed associations reach |
| TrashFacts.CascadeDeleteWithin | src/Model/Behavior/TrashBehavior.php:157 | `cascadeDelete` changes only tables its target reaches |
| TrashFacts.DeleteEachWithin | src/Model/Behavior/TrashBehavior.php:157 | deleting related rows changes only tables their table reaches |
| TrashFacts.TrashFrame | src/Model/Behavior/TrashBehavior.php:143-170 | `trash()` changes only reachable tables, only its own table when `cascadeOnTrash` is off, and in its own table only the rows with the entity's primary key |
| TrashFacts.RefusedDeleteRollsBack | src/Model/Behavior/TrashBehavior.php:117-120 | a related row whose own save is refused makes its `delete()` report false; the rollback of that delete leaves the store as it was, and the cascade of that association stops without success |
| TrashFacts.UnrecursableSkipped | src/Model/Behavior/TrashBehavior.php:392-401 | an association fails `_isRecursable()` when its target lacks the behaviour, the table is not the owning side, or it is not dependent or not cascading callbacks; the trash cascade and both restore cascades then skip it |
| TrashFacts.NoRecursableLoopsChangeNothing | src/Model/Behavior/TrashBehavior.php:392-401 | with no recursable association left, the trash loop and both restore loops change nothing and keep their result |
| TrashFacts.NoRecursableStaysInTable | src/Model/Behavior/TrashBehavior.php:392-401 | a table with no recursable association: `trash()` and `cascadingRestoreTrash($entity)` change only that table, and `cascadingRestoreTrash()` is exactly `restoreTrash()` |
| TrashFacts.TrashLeavesUnfollowedTables | src/Model/Behavior/TrashBehavior.php:153-160 | when every followed association leads to a table of rank 0, `trash()` leaves every other table that none of them targets as it was, such as the target of an association the cascade does not follow |
| TrashFacts.TrashAllThenRestoreAll | src/Model/Behavior/TrashBehavior.php:273-287 | after `trashAll`, `restoreTrash()` counts the rows that matched or were already trashed, and leaves every row of the table as it was with the field cleared |
| RestoreFacts.SaveOnlyUnmarks | src/Model/Behavior/TrashBehavior.php:281-283 | saving a restored entity only clears trash fields, and only in its own table |
| RestoreFacts.RestoreAllClearsTable | src/Model/Behavior/TrashBehavior.php:286 | `restoreTrash()` without an entity clears the field on every row, returns the number of rows that were trashed, and touches no other table |
| RestoreFacts.CascadingRestoreAllOnlyUnmarks | src/Model/Behavior/TrashBehavior.php:296-308 | a bulk cascading restore only clears trash fields, in its table and tables of lower rank |
| RestoreFacts.RestoreAllAssociationsOnlyUnmarks | src/Model/Behavior/TrashBehavior.php:302-308 | the bulk association loop only clears trash fields, only in lower-ranked tables, and never lowers the count (what it clears is in `RestoreFacts.RestoreAllAssociationsClearsTargets`) |
| RestoreFacts.SmallCountFollowsNothing | src/Model/Behavior/TrashBehavior.php:306 | with a count of at most 1 the bulk loop follows no association |
| RestoreFacts.BulkLeafFollowsNothing | src/Model/Behavior/TrashBehavior.php:302-308 | a table without cascading associations restores only itself |
| RestoreFacts.BulkRestoreStopsAtOne | src/Model/Behavior/TrashBehavior.php:306 | a bulk cascading restore of a table holding at most one trashed row is just `restoreTrash()`: the children stay trashed |
| RestoreFacts.BulkRestoreEmptiesOwnTrash | src/Model/Behavior/TrashBehavior.php:300-308 | a bulk cascading restore leaves no trashed row in its own table and counts at least the rows it restored there |
| RestoreFacts.RestoreAllAssociationsClearsTargets | src/Model/Behavior/TrashBehavior.php:302-308 | while the running count is above one, the bulk loop leaves no trashed row in the target of any association it follows |
| RestoreFacts.BulkRestoreClearsFollowedTargets | src/Model/Behavior/TrashBehavior.php:300-308 | a bulk cascading restore of a table with more than one trashed row leaves no trashed row in the target of any followed association |
| RestoreFacts.CascadingRestoreOnlyUnmarks | src/Model/Behavior/TrashBehavior.php:296-330 | an entity cascading restore only clears trash fields, in its table and lower-ranked tables (which rows it may touch is in `RestoreFacts.CascadingRestoreFrame` and `RestoreFacts.CascadingRestoreKeepsUnrelatedRows`) |
| RestoreFacts.RestoreAssociationsOnlyUnmarks | src/Model/Behavior/TrashBehavior.php:302-327 | the entity-mode association loop only clears trash fields in lower-ranked tables |
| RestoreFacts.RestoreEachOnlyUnmarks | src/Model/Behavior/TrashBehavior.php:316-324 | restoring the related rows one by one only clears trash fields |
| RestoreFacts.DirtyEntityRaises | src/Model/Behavior/TrashBehavior.php:278-280 | restoring a dirty entity raises before any change, with or without the cascade |
| RestoreFacts.FailureIsSticky | src/Model/Behavior/TrashBehavior.php:318-323 | once `$result` is false, the remaining associations cannot make it true again |
| RestoreFacts.RestoredEntityRowsAreActive | src/Model/Behavior/TrashBehavior.php:281-283 | a cascading restore that returns an entity returns it clean with its field cleared; its primary key was accepted and its rows are active |
| RestoreFacts.RestoreEachFailsOnRefusal | src/Model/Behavior/TrashBehavior.php:316-324 | a related row whose save is refused makes the loop's result false |
| RestoreFacts.RestoreEachStaysFalse | src/Model/Behavior/TrashBehavior.php:322 | a false result stays false through the rest of the related rows |
| RestoreFacts.RestoreAssociationsFailsOnRefusal | src/Model/Behavior/TrashBehavior.php:316-324 | a refused related row in any followed association makes the association loop's result false |
| RestoreFacts.RestoreAssociationsStepAny | src/Model/Behavior/TrashBehavior.php:303-326 | one step of the association loop, for any host answer |
| RestoreFacts.RefusalAtAssociation | src/Model/Behavior/TrashBehavior.php:316-324 | a refused related row in the association being handled makes the result false |
| RestoreFacts.RefusedRelatedRestoreFails | src/Model/Behavior/TrashBehavior.php:296-330 | if any related row's restore is refused, `cascadingRestoreTrash($entity)` returns false, while the restores before it stay in place |
| RestoreFacts.RelatedRowsKeyed | src/Model/Behavior/TrashBehavior.php:311-316 | the related rows the cascade finds come from the target table and have primary keys |
| RestoreFacts.CascadingRestoreSucceeds | src/Model/Behavior/TrashBehavior.php:296-330 | a clean entity with a key, when the host refuses nothing, comes back restored |
| RestoreFacts.RestoreAssociationsSucceeds | src/Model/Behavior/TrashBehavior.php:303-327 | when the host refuses nothing, the association loop keeps the result |
| RestoreFacts.RestoreEachSucceeds | src/Model/Behavior/TrashBehavior.php:316-324 | when the host refuses nothing, restoring the related rows keeps the result |
| RestoreFacts.RestoreEachReachesRow | src/Model/Behavior/TrashBehavior.php:316-324 | every stored row sharing a key with a related row is active afterwards |
| RestoreFacts.RestoreEachReachesRelated | src/Model/Behavior/TrashBehavior.php:316-324 | every stored row in the related list is active afterwards |
| RestoreFacts.RestoreAssociationsStep | src/Model/Behavior/TrashBehavior.php:303-326 | one step of the association loop when the host refuses nothing |
| RestoreFacts.RestoreAssociationsReachesRow | src/Model/Behavior/TrashBehavior.php:303-327 | every row related through a followed association is active after the loop |
| RestoreFacts.RelatedRowRestoredAtAssociation | src/Model/Behavior/TrashBehavior.php:311-324 | the loop over one association's related rows leaves every row related through it active |
| RestoreFacts.ReachesRowAtAssociation | src/Model/Behavior/TrashBehavior.php:311-324 | the association being handled restores every row related through it, and the rest of the loop keeps it active |
| RestoreFacts.RestoreReachesRelatedRows | src/Model/Behavior/TrashBehavior.php:296-330 | `cascadingRestoreTrash($entity)` restores the entity and every row related through a followed association, trashed or not |
| RestoreFacts.LeafFollowsNothing | src/Model/Behavior/TrashBehavior.php:302-304 | a table of rank 0 follows no association |
| RestoreFacts.LeafRestoreFrame | src/Model/Behavior/TrashBehavior.php:302-304 | on a table of rank 0 a cascading restore of a clean entity is a plain restore: it raises exactly when the entity lacks its full key, changes no other table, and in its own table only rows with the entity's key |
| RestoreFacts.LeafRestoreEachFrame | src/Model/Behavior/TrashBehavior.php:316-324 | restoring related rows of a rank-0 table touches only that table |
| RestoreFacts.CascadingRestoreWithin | src/Model/Behavior/TrashBehavior.php:296-330 | an entity cascading restore changes only tables the cascade from the entity's table reaches |
| RestoreFacts.RestoreAssociationsWithin | src/Model/Behavior/TrashBehavior.php:302-327 | the entity-mode association loop changes only tables its followed associations reach |
| RestoreFacts.RestoreEachWithin | src/Model/Behavior/TrashBehavior.php:316-324 | restoring related rows changes only tables their table reaches |
| RestoreFacts.CascadingRestoreFrame | src/Model/Behavior/TrashBehavior.php:296-330 | `cascadingRestoreTrash($entity)` changes only reachable tables, and in its own table only the rows with the entity's primary key |
| RestoreFacts.UniqueKeysKept | src/Model/Behavior/TrashBehavior.php:296-330 | rows whose values are unchanged keep their primary keys unique |
| RestoreFacts.LeafStepKeepsRow | src/Model/Behavior/TrashBehavior.php:311-324 | restoring the rows related through one followed association with a rank-0 target keeps every row that association does not relate to the entity, and keeps primary keys unique |
| RestoreFacts.LeafAssociationsKeepRow | src/Model/Behavior/TrashBehavior.php:302-327 | with rank-0 targets and unique keys, the association loop keeps every row that no remaining followed association relates to the entity |
| RestoreFacts.CascadingRestoreKeepsUnrelatedRows | src/Model/Behavior/TrashBehavior.php:296-330 | with rank-0 targets and unique keys, `cascadingRestoreTrash($entity)` keeps every row of another table that no followed association relates to the entity, so tables no followed association targets are unchanged |
| RestoreFacts.RestoreWithoutKeyRaises | src/Model/Behavior/TrashBehavior.php:277-283 | a clean entity without its full primary key raises from the host's `save()` (an update needs every key value), before any write and before any association is followed |
| RestoreFacts.CleanRestoreRaisesNothing | src/Model/Behavior/TrashBehavior.php:277-283 | a clean entity with its full primary key, in a store whose rows all carry theirs, has a cascading restore that never raises |
| RestoreFacts.RestoreAssociationsRaiseNothing | src/Model/Behavior/TrashBehavior.php:303-327 | on a store whose rows all carry their keys, the association loop never raises |
| RestoreFacts.RestoreEachRaisesNothing | src/Model/Behavior/TrashBehavior.php:316-324 | restoring loaded related rows that carry their keys, in such a store, never raises |
| Tables.Database.Save | src/Model/Behavior/TrashBehavior.php:165 | the host save updates the store as `Store.Save` and returns its outcome |
| Tables.Database.Trash | src/Model/Behavior/TrashBehavior.php:143-170 | the key check loop, the association loop and the save leave the store and result of `Store.Trash` |
| Tables.Database.CascadeDelete | src/Model/Behavior/TrashBehavior.php:157 | deleting each active related row through its own `beforeDelete`, and rolling back the one delete that fails, leaves the store and result of `Store.CascadeDelete` |
| Tables.Database.BeforeDelete | src/Model/Behavior/TrashBehavior.php:109-133 | with `purge === true` nothing changes; otherwise propagation stops, and the event result is false iff `trash()` failed; on success the soft-delete option is set and `afterDelete` is dispatched |
| Tables.Database.TrashAll | src/Model/Behavior/TrashBehavior.php:248-254 | the single `updateAll` leaves the store and count of `Store.TrashAll` |
| Tables.Database.EmptyTrash | src/Model/Behavior/TrashBehavior.php:261-264 | the single `deleteAll` leaves the store and count of `Store.EmptyTrash` |
| Tables.Database.RestoreAllTrash | src/Model/Behavior/TrashBehavior.php:286 | the single `updateAll` leaves the store and count of `Store.RestoreAll` |
| Tables.Database.RestoreTrash | src/Model/Behavior/TrashBehavior.php:273-284 | raises on a dirty entity or, from the host's `save()`, on one without its full key; else saves it with the field cleared, as `Store.RestoreEntity` |
| Tables.Database.CascadingRestoreAllTrash | src/Model/Behavior/TrashBehavior.php:296-308 | the bulk loop with its `$result > 1` guard leaves the store and count of `Store.CascadingRestoreAll` |
| Tables.Database.CascadingRestoreTrash | src/Model/Behavior/TrashBehavior.php:296-330 | the entity-mode loops over associations and related rows leave the store and result of `Store.CascadingRestore` |
| StoreScenarios.TestSchema | tests/TestCase/Model/Behavior/TrashBehaviorTest.php:40-83 | the test tables and associations form a schema whose cascade terminates |
| StoreScenarios.FindActiveArticles | tests/TestCase/Model/Behavior/TrashBehaviorTest.php:104-108 | of the three fixture articles, one is active |
| StoreScenarios.TrashFirstArticle | tests/TestCase/Model/Behavior/TrashBehaviorTest.php:237-244 | trashing article 1 succeeds and stamps it |
| StoreScenarios.TrashCompositeRow | tests/TestCase/Model/Behavior/TrashBehaviorTest.php:223-230 | trashing the composite-key row (3, 1) succeeds, leaving one row in that table's trash |
| StoreScenarios.EmptyArticlesTrash | tests/TestCase/Model/Behavior/TrashBehaviorTest.php:286-291 | `emptyTrash()` on the articles removes two rows and one article remains |
| StoreScenarios.RestoreArticlesTrash | tests/TestCase/Model/Behavior/TrashBehaviorTest.php:298-303 | `restoreTrash()` on the articles restores two, and a find then sees three |
| StoreScenarios.TrashEveryArticle | tests/TestCase/Model/Behavior/TrashBehaviorTest.php:310-316 | `trashAll` with no conditions stamps three articles, and a find then sees none |
| StoreScenarios.RestoreSecondArticle | tests/TestCase/Model/Behavior/TrashBehaviorTest.php:323-330 | restoring trashed article 2 returns it restored, and a find then sees two |
| StoreScenarios.CascadingTrashOfArticle | tests/TestCase/Model/Behavior/TrashBehaviorTest.php:389-410 | with a dependent comments association, trashing article 1 also trashes its comment |
| StoreScenarios.TrashEverything | tests/TestCase/Model/Behavior/TrashBehaviorTest.php:563-570 | trashing comments, article-user links and then articles leaves every fixture row trashed |
| StoreScenarios.TrashEverythingCounts | tests/TestCase/Model/Behavior/TrashBehaviorTest.php:484-491 | those bulk trashes count 3, 2 and 3 rows, and after each a find on that table sees none |
| StoreScenarios.CascadingUntrashArticle | tests/TestCase/Model/Behavior/TrashBehaviorTest.php:474-535 | restoring article 1 with the cascade returns it restored, together with its comment and its article-user link |
| StoreScenarios.CascadingUntrashSparesOtherArticles | tests/TestCase/Model/Behavior/TrashBehaviorTest.php:537-545 | rows related to other articles stay trashed |
| StoreScenarios.BulkRestoreOfArticles | src/Model/Behavior/TrashBehavior.php:300-307 | on the test schema a bulk cascading restore of articles is the restore of articles, then comments, then links, with the counts summed |
| StoreScenarios.CascadingUntrashAll | tests/TestCase/Model/Behavior/TrashBehaviorTest.php:553-609 | the bulk cascading restore of a fully trashed store counts 8 and brings back every row |
| StoreScenarios.CascadingUntrashFailure | tests/TestCase/Model/Behavior/TrashBehaviorTest.php:616-637 | when the host refuses every comment save, the cascading restore of article 1 returns false |
| TableScenarios.DeleteFirstArticle | tests/TestCase/Model/Behavior/TrashBehaviorTest.php:115-122 | deleting article 1 through `beforeDelete` soft-deletes it; afterwards `withTrashed` still sees three articles and article 1 is trashed |
| BehaviorScenarios.NoEventConfigInheritsDefaults | tests/TestCase/Model/Behavior/TrashBehaviorTest.php:757-767 | without an `events` setting the two default events map to `beforeDelete` and `beforeFind` |
| BehaviorScenarios.EmptyEventConfigInheritsDefaults | tests/TestCase/Model/Behavior/TrashBehaviorTest.php:768-780 | `events => []` keeps the defaults |
| BehaviorScenarios.NullEventConfigListsNothing | src/Model/Behavior/TrashBehavior.php:57-76 | `events => null` replaces the defaults by null, whose `(array)` cast lists no event |
| BehaviorScenarios.FalseEventConfigDisablesEvents | tests/TestCase/Model/Behavior/TrashBehaviorTest.php:781-786 | `events => false` yields no events |
| BehaviorScenarios.EventKeyAsValue | tests/TestCase/Model/Behavior/TrashBehaviorTest.php:787-798 | a listed event name replaces the defaults, and its callable is its suffix |
| BehaviorScenarios.MethodNameAsValue | tests/TestCase/Model/Behavior/TrashBehaviorTest.php:799-810 | a method name given as the value becomes the callable |
| BehaviorScenarios.CallablesAreKept | tests/TestCase/Model/Behavior/TrashBehaviorTest.php:811-834 | closures and array callables are kept as given |
| BehaviorScenarios.MultipleOptionsAreKept | tests/TestCase/Model/Behavior/TrashBehaviorTest.php:835-850 | extra handler options survive |
| BehaviorScenarios.DefaultAndEventPriorities | tests/TestCase/Model/Behavior/TrashBehaviorTest.php:851-869 | the global priority fills only handlers without their own |
| BehaviorScenarios.OwnPriorityCompleted | src/Model/Behavior/TrashBehavior.php:88-93 | a handler with only its own priority gets its callable from the event name, and the priority is left as given |
| BehaviorScenarios.DefaultBehaviorEvents | tests/TestCase/Model/Behavior/TrashBehaviorTest.php:742-746 | a default behaviour object implements the two default events |
| BehaviorScenarios.UsersFields | tests/TestCase/Model/Behavior/TrashBehaviorTest.php:684-703 | a users table without trash columns raises unless a field or a global setting is given |
| BehaviorScenarios.ArticlesFields | tests/TestCase/Model/Behavior/TrashBehaviorTest.php:711-718 | an articles table with a `trashed` column resolves to it |
| BehaviorScenarios.UsersWithoutFieldRaise | tests/TestCase/Model/Behavior/TrashBehaviorTest.php:684-688 | `getTrashField()` on the users table without any setting raises |
| BehaviorScenarios.UsersConfiguredField | tests/TestCase/Model/Behavior/TrashBehaviorTest.php:695-703 | the configured field and the global setting are returned aliased |
| BehaviorScenarios.ArticlesFallBackToSchema | tests/TestCase/Model/Behavior/TrashBehaviorTest.php:711-732 | the articles table falls back to its `trashed` column and caches it in the config |
| BehaviorScenarios.ArticleFindCounts | tests/TestCase/Model/Behavior/TrashBehaviorTest.php:266-279 | on the fixture articles the three find modes count 1, 2 and 3 |
| BehaviorScenarios.FindArticles | tests/TestCase/Model/Behavior/TrashBehaviorTest.php:104-108 | running the behaviour's finders through `beforeFind` returns 1 active, 2 trashed and 3 in all |

## Left out

- The host's save pipeline (validation, `guard`, nested saves, `beforeSave` listeners, transactions) is an oracle: the set of (table, primary key) pairs whose save the host refuses. A refused save changes nothing.
- Real `DateTime` values and SQL are not modelled. A timestamp is a natural number, the current time is a parameter, and a query's conditions are an expression tree whose raw-SQL leaves are decided by a given predicate.
- Rollback: each related row of the trash cascade is deleted through the host's `delete()`, which runs in its own transaction; when it raises or reports false, `Store.DeleteEach` discards that delete's writes, including what its own cascade trashed. Everything else keeps the changes made before a failure: no transaction spans a restore cascade (each `save()` is atomic on its own, and the model's saves are single writes), and `trash()` itself opens none.
- Store.DeleteEach: the rollback of a failed related delete undoes exactly that delete, as a savepoint would. On a connection without savepoints the host rolls back the whole enclosing transaction instead. The `atomic => false` option, which disables the transaction, is not modelled either.
- Tables.Database.BeforeDelete: models the listener only. When it reports false, the host's `delete()` around it rolls back the writes of the root's cascade; that rollback is not part of the model.
- The options passed down the cascade (`_primary => false` and any `purge`) and through `save()` are not modelled, so the option-forwarding tests (TrashBehaviorTest.php lines 130-215 and 412-465) are left out.
- Finds that contain associations (TrashBehaviorTest.php lines 337-357) are host behaviour and are left out.
- The CounterCache interplay (TrashBehaviorTest.php lines 359-381) and the `replace` save strategy (lines 644-674) are host behaviour and are left out.
- Events.HostMerge: models the host's `Hash::merge` of the default and configured `events` only for the cases the behaviour relies on (an empty list, a non-array value, a non-empty list). It does not model a general recursive merge.
- TrashField.AliasField: models the host's `aliasField` only as prefixing the table alias and a dot, unless the field already contains a dot.
- `_getUnaryExpression()` (lines 337-345) is not a separate member. `emptyTrash()` and `restoreTrash()` without an entity select trashed rows directly with `Store.IsTrashed`.
- The cascade's child delete is the child table's own `beforeDelete`, which trashes the child under the default configuration. Its `afterDelete` dispatch and the event objects of child deletes are not modelled.
- The dirtiness of an entity is one flag. Which fields are dirty, and the entity's other state, are not modelled.
- The host's order of associations and of related rows is the order in which they are stored. The model makes no claim about any other order.
- Store.Related: a null binding key finds no related rows. In the host, a `where` on a null value raises instead.
- Store.Related: selects related rows by the foreign key alone. An association's own `conditions` and `finder` are ignored.
- Store.Trash: the trash field is taken as resolved. The source resolves it with `getTrashField()` only after the cascade (line 162), so a failed resolution there raises after the cascade has written; that exception is not modelled. Neither is the same exception from `trashAll()`, `emptyTrash()` and `restoreTrash()`, which resolve the field before writing. `getTrashField()` itself, with its exception, is `Behavior.TrashBehavior.GetTrashField`.
- Store.Save: writes only the trash field. The host writes every dirty field of the entity, so other dirty fields of an entity passed to `trash()` would be saved too; that is not modelled.
- Store.Save: an entity without a full primary key counts as a refused save. The operations never reach that case: `trash()` raises on such an entity first, and `Store.RestoreEntity` raises `UpdateWithoutKey` as the host's update does. The host's other branch, inserting an entity that is new, is not modelled: every entity here stands for a stored row.
- Store.Trash and Store.RestoreEntity: the source stamps or clears the entity object in memory before saving it (lines 163 and 281), so after a refused save the caller's entity still carries the new trash value. The model returns only the store and the outcome, not the caller's entity after a failed save.
- QueryFilter.Query: holds only the `where` part of a query. The host's `traverseExpressions()` also walks the select, join, group, having and order parts, where a reference to the trash field would also stop the filter; the model does not capture that.
- The event bus is reduced to the three flags `beforeDelete` touches: stopped, the result, and whether `afterDelete` was dispatched.
- Closures in an event configuration are opaque tokens.
- `src/Panel/TrashPanel.php` (a debugging panel) and the plugin bootstrap classes are not part of this model.
- The test fixtures are not modelled as code. Their rows appear as concrete stores in the scenario modules.
