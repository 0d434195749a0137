/**
 * The deletion test of the repository, replayed on the mutable store:
 * `delete()` of an article goes through the `Model.beforeDelete` listener,
 * which trashes it instead.
 */
module TableScenarios {
  import opened Wrappers
  import opened Store
  import opened Tables
  import opened StoreScenarios

  /**
   * `Table::delete()` of the loaded article 1 on the fixtures: the listener
   * stops the event with the result true, so `delete()` returns true, the
   * options carry the soft-delete flag on to `Model.afterDelete`, and the
   * article is still there to `find('withTrashed')`, now trashed.
   */
  method DeleteFirstArticle() returns (deleted: bool, softDeleted: bool, withTrashed: nat, trashedNow: bool)
    ensures deleted && softDeleted && withTrashed == 3 && trashedNow
  {
    var s := TestSchema(false, false);
    var e := Loaded(Article(1, None));
    var db := new Database(s, {}, Fixtures());
    var event := new DeleteEvent();
    var options := new DeleteOptions(None);
    TrashFirstArticle();
    var r := db.BeforeDelete(event, Articles, e, options, Later);
    // The host returns the listener's result when the event was stopped.
    deleted := if event.stopped then event.result == Some(true) else r.Ok?;
    softDeleted := options.softDelete && event.afterDeleteDispatched;
    withTrashed := |Rows(db.data, Articles)|;
    trashedNow := Rows(db.data, Articles)[0].trashed == Some(Later);
  }
}
