/**
 * The fixtures of the repository's tests and what its test cases expect of
 * them, proved of the model: Articles (1 active, 2 and 3 trashed) with
 * dependent Comments and CompositeArticlesUsers rows.
 */
module StoreScenarios {
  import opened Wrappers
  import opened Store
  import opened TrashFacts
  import opened RestoreFacts

  const Articles: TableId := "Articles"
  const Comments: TableId := "Comments"
  const Users: TableId := "Users"
  const CompositeArticlesUsers: TableId := "CompositeArticlesUsers"

  /** The four table names differ (from their first two letters on). */
  lemma TableNamesDiffer()
    ensures Articles != Comments && Articles != Users && Articles != CompositeArticlesUsers
    ensures Comments != Users && Comments != CompositeArticlesUsers && Users != CompositeArticlesUsers
  {
    assert Articles[0] != Comments[0] && Articles[0] != Users[0] && Articles[0] != CompositeArticlesUsers[0];
    assert Comments[0] != Users[0] && Users[0] != CompositeArticlesUsers[0];
    assert Comments[3] != CompositeArticlesUsers[3];
  }

  /** The time the fixtures' trashed rows carry, and a later one. */
  const Earlier: Timestamp := 1
  const Later: Timestamp := 2

  /**
   * The test schema: Articles has many Comments, belongs to many Users and
   * has many CompositeArticlesUsers; `dependent` says which of the two
   * HasMany associations the test made dependent with cascading callbacks.
   */
  function TestSchema(commentsDependent: bool, compositeDependent: bool): (s: Schema)
    ensures SchemaOk(s)
    ensures s.Keys == {Articles, Comments, Users, CompositeArticlesUsers}
  {
    map[
      Articles := Table(["id"], true, true, [
        Association(HasMany, Comments, ["article_id"], ["id"], commentsDependent, commentsDependent, true),
        Association(BelongsToMany, Users, ["article_id"], ["id"], false, false, true),
        Association(HasMany, CompositeArticlesUsers, ["article_id"], ["id"], compositeDependent, compositeDependent, true)
      ], 1),
      Comments := Table(["id"], true, true, [
        Association(BelongsTo, Articles, ["article_id"], ["id"], false, false, false)
      ], 0),
      Users := Table(["id"], false, true, [
        Association(BelongsToMany, Articles, ["user_id"], ["id"], false, false, true)
      ], 0),
      CompositeArticlesUsers := Table(["article_id", "user_id"], true, true, [], 0)
    ]
  }

  function Article(id: int, trashed: Option<Timestamp>): Row {
    Row(map["id" := id], trashed)
  }

  function Comment(id: int, articleId: int, trashed: Option<Timestamp>): Row {
    Row(map["id" := id, "article_id" := articleId], trashed)
  }

  function ArticleUser(articleId: int, userId: int, trashed: Option<Timestamp>): Row {
    Row(map["article_id" := articleId, "user_id" := userId], trashed)
  }

  /** The fixture records. */
  function Fixtures(): Data {
    map[
      Articles := [Article(1, None), Article(2, Some(Earlier)), Article(3, Some(Earlier))],
      Comments := [Comment(1, 1, None), Comment(2, 1, Some(Earlier)), Comment(3, 2, None)],
      CompositeArticlesUsers := [ArticleUser(1, 1, None), ArticleUser(3, 1, None)]
    ]
  }

  /** What `find()` counts: the active rows. */
  function Found(d: Data, t: TableId): nat {
    |Rows(d, t)| - CountTrashed(Rows(d, t))
  }

  /** The key of a row with all of its (one or two) key columns set. */
  lemma KeyOf(pk: seq<string>, values: map<string, int>)
    requires 1 <= |pk| <= 2 && forall f :: f in pk ==> f in values
    ensures |pk| == 1 ==> Extract(pk, values) == Some([values[pk[0]]])
    ensures |pk| == 2 ==> Extract(pk, values) == Some([values[pk[0]], values[pk[1]]])
  {
    var r := Extract(pk, values);
    assert r.Some? && |r.value| == |pk|;
    if |pk| == 1 {
      assert r.value == [values[pk[0]]];
    } else {
      assert r.value == [values[pk[0]], values[pk[1]]];
    }
  }

  /** The number of trashed rows among two. */
  lemma CountTwo(a: Row, b: Row)
    ensures CountTrashed([a, b]) == (if IsTrashed(a) then 1 else 0) + (if IsTrashed(b) then 1 else 0)
  {
    assert [a, b][1..] == [b];
    assert [b][1..] == [];
    assert CountWhere([b], IsTrashed) == (if IsTrashed(b) then 1 else 0) + CountWhere([], IsTrashed);
  }

  /** Trashing the composite-key row (3, 1) succeeds and leaves one row in the trash. */
  lemma TrashCompositeRow()
    ensures var (d, r) := Trash(TestSchema(false, false), {}, Later, CompositeArticlesUsers, Loaded(ArticleUser(3, 1, None)), Fixtures());
            r == Ok(true) && CountTrashed(Rows(d, CompositeArticlesUsers)) == 1
  {
    var s := TestSchema(false, false);
    var e := Loaded(ArticleUser(3, 1, None));
    KeyOf(["article_id", "user_id"], e.values);
    var rows := [ArticleUser(1, 1, None), ArticleUser(3, 1, None)];
    assert !HasKey(["article_id", "user_id"], [3, 1], rows[0]) by {
      KeyOf(["article_id", "user_id"], rows[0].values);
    }
    assert HasKey(["article_id", "user_id"], [3, 1], rows[1]) by {
      KeyOf(["article_id", "user_id"], rows[1].values);
    }
    var after := SetTrashed(rows, ["article_id", "user_id"], [3, 1], Some(Later));
    assert after == [ArticleUser(1, 1, None), ArticleUser(3, 1, Some(Later))];
    CountTwo(after[0], after[1]);
  }

  /** Every row of `rows` has a value for each column of `pk`. */
  predicate HasColumns(rows: seq<Row>, pk: seq<string>) {
    forall k, j :: 0 <= k < |rows| && 0 <= j < |pk| ==> pk[j] in rows[k].values
  }

  /**
   * Data over the test tables is keyed under any schema with the test
   * schema's primary keys, once each table's rows carry their key columns.
   */
  lemma TestDataKeyed(s: Schema, d: Data)
    requires s.Keys == TestSchema(true, true).Keys
    requires forall t :: t in s ==> s[t].primaryKey == TestSchema(true, true)[t].primaryKey
    requires Users !in d
    requires HasColumns(Rows(d, Articles), ["id"]) && HasColumns(Rows(d, Comments), ["id"])
    requires HasColumns(Rows(d, CompositeArticlesUsers), ["article_id", "user_id"])
    ensures Keyed(s, d)
  {
    forall t, k | t in s && 0 <= k < |Rows(d, t)|
      ensures Extract(s[t].primaryKey, Rows(d, t)[k].values).Some?
    {
      if t == CompositeArticlesUsers {
        KeyOf(["article_id", "user_id"], Rows(d, t)[k].values);
      } else {
        assert t == Articles || t == Comments;
        KeyOf(["id"], Rows(d, t)[k].values);
      }
    }
  }

  /** Every fixture row carries its full primary key. */
  lemma FixturesKeyed(s: Schema)
    requires s.Keys == TestSchema(true, true).Keys
    requires forall t :: t in s ==> s[t].primaryKey == TestSchema(true, true)[t].primaryKey
    ensures Keyed(s, Fixtures())
  {
    FixtureColumns();
    FixtureCompositeColumns();
    TestDataKeyed(s, Fixtures());
  }

  lemma FixtureColumns()
    ensures Users !in Fixtures()
    ensures HasColumns(Rows(Fixtures(), Articles), ["id"]) && HasColumns(Rows(Fixtures(), Comments), ["id"])
  {
    TableNamesDiffer();
  }

  lemma FixtureCompositeColumns()
    ensures HasColumns(Rows(Fixtures(), CompositeArticlesUsers), ["article_id", "user_id"])
  {
    TableNamesDiffer();
  }

  /** `find()` on the fixtures returns the one active article. */
  lemma FindActiveArticles()
    ensures Found(Fixtures(), Articles) == 1
  {
    CountThree(Article(1, None), Article(2, Some(Earlier)), Article(3, Some(Earlier)));
  }

  /** The number of trashed rows among three. */
  lemma CountThree(a: Row, b: Row, c: Row)
    ensures CountTrashed([a, b, c]) == (if IsTrashed(a) then 1 else 0) + CountTrashed([b, c])
  {
    assert [a, b, c][1..] == [b, c];
  }

  /** A row count of none trashed. */
  lemma {:induction false} NoneTrashed(rows: seq<Row>)
    requires forall k :: 0 <= k < |rows| ==> !IsTrashed(rows[k])
    ensures CountTrashed(rows) == 0
  {
    if rows != [] {
      NoneTrashed(rows[1..]);
    }
  }

  /** A row count of all trashed. */
  lemma {:induction false} AllTrashedCount(rows: seq<Row>)
    requires forall k :: 0 <= k < |rows| ==> IsTrashed(rows[k])
    ensures CountTrashed(rows) == |rows|
  {
    if rows != [] {
      AllTrashedCount(rows[1..]);
    }
  }

  /** The condition `[]` (or `'1 = 1'`): every row. */
  predicate Everything(row: Row) {
    true
  }

  lemma {:induction false} CountEverything(rows: seq<Row>)
    ensures CountWhere(rows, Everything) == |rows|
  {
    if rows != [] {
      CountEverything(rows[1..]);
    }
  }

  /** `emptyTrash()` on the articles deletes the two trashed ones; `find()` still sees one. */
  lemma EmptyArticlesTrash()
    ensures var (d, n) := EmptyTrash(Articles, Fixtures());
            n == 2 && |Rows(d, Articles)| == 1 && Found(d, Articles) == 1
  {
    var rows := Rows(Fixtures(), Articles);
    CountThree(rows[0], rows[1], rows[2]);
    CountTwo(rows[1], rows[2]);
    EmptyTrashRemovesExactlyTrashed(Articles, Fixtures());
    var kept := Rows(EmptyTrash(Articles, Fixtures()).0, Articles);
    forall k | 0 <= k < |kept|
      ensures !IsTrashed(kept[k])
    {
      assert kept[k] in kept;
    }
    NoneTrashed(kept);
  }

  /** `restoreTrash()` on the articles restores two; `find()` then sees all three. */
  lemma RestoreArticlesTrash()
    ensures var (d, n) := RestoreAll(Articles, Fixtures());
            n == 2 && Found(d, Articles) == 3
  {
    var rows := Rows(Fixtures(), Articles);
    CountThree(rows[0], rows[1], rows[2]);
    CountTwo(rows[1], rows[2]);
    RestoreAllClearsTable(Articles, Fixtures());
    NoneTrashed(Rows(RestoreAll(Articles, Fixtures()).0, Articles));
  }

  /** `trashAll('1 = 1')` on the articles trashes all three; `find()` then sees none. */
  lemma TrashEveryArticle()
    ensures var (d, n) := TrashAll(Articles, Everything, Later, Fixtures());
            n == 3 && Found(d, Articles) == 0
  {
    TrashAllMarksMatching(Articles, Everything, Later, Fixtures());
    CountEverything(Rows(Fixtures(), Articles));
    AllTrashedCount(Rows(TrashAll(Articles, Everything, Later, Fixtures()).0, Articles));
  }

  /** `restoreTrash()` of the loaded trashed article 2 returns it restored; `find()` then sees two. */
  lemma RestoreSecondArticle()
    ensures var e := Entity(map["id" := 2], Some(Earlier), false);
            var (d, r) := RestoreEntity(TestSchema(false, false), {}, Articles, e, Fixtures());
            r == Ok(Some(Entity(map["id" := 2], None, false))) && Found(d, Articles) == 2
  {
    var rows := Rows(Fixtures(), Articles);
    KeyOf(["id"], map["id" := 2]);
    assert !HasKey(["id"], [2], rows[0]) by { KeyOf(["id"], rows[0].values); }
    assert HasKey(["id"], [2], rows[1]) by { KeyOf(["id"], rows[1].values); }
    assert !HasKey(["id"], [2], rows[2]) by { KeyOf(["id"], rows[2].values); }
    var after := SetTrashed(rows, ["id"], [2], None);
    assert after == [Article(1, None), Article(2, None), Article(3, Some(Earlier))];
    CountThree(after[0], after[1], after[2]);
    CountTwo(after[1], after[2]);
  }

  /**
   * With Comments dependent, trashing article 1 trashes it and its active
   * comment 1 too.
   */
  lemma CascadingTrashOfArticle()
    ensures var (d, r) := Trash(TestSchema(true, false), {}, Later, Articles, Loaded(Article(1, None)), Fixtures());
            r == Ok(true) &&
            |Rows(d, Articles)| == 3 && Rows(d, Articles)[0].trashed == Some(Later) &&
            |Rows(d, Comments)| == 3 && IsTrashed(Rows(d, Comments)[0])
  {
    var s := TestSchema(true, false);
    var e := Loaded(Article(1, None));
    var d := Fixtures();
    FixturesKeyed(s);
    KeyOf(["id"], e.values);
    KeyOf(["article_id"], Rows(d, Comments)[0].values);
    TrashReachesRelatedRows(s, Later, Articles, e, d, 0, 0);
    TrashMarksEntityRows(s, {}, Later, Articles, e, d);
    var d' := Trash(s, {}, Later, Articles, e, d).0;
    TrashOnlyMarks(s, {}, Later, Articles, e, d);
    assert Rows(d', Articles)[0].values == Rows(d, Articles)[0].values;
    KeyOf(["id"], Rows(d', Articles)[0].values);
  }

  /** Trashing the active article 1 with no dependent association succeeds and marks it at `Later`. */
  lemma TrashFirstArticle()
    ensures var (d, r) := Trash(TestSchema(false, false), {}, Later, Articles, Loaded(Article(1, None)), Fixtures());
            r == Ok(true) && |Rows(d, Articles)| == 3 && Rows(d, Articles)[0].trashed == Some(Later)
  {
    var s := TestSchema(false, false);
    var e := Loaded(Article(1, None));
    var d := Fixtures();
    FixturesKeyed(s);
    KeyOf(["id"], e.values);
    TrashReturnsSaveOutcome(s, {}, Later, Articles, e, d);
    TrashMarksEntityRows(s, {}, Later, Articles, e, d);
    TrashOnlyMarks(s, {}, Later, Articles, e, d);
    var d' := Trash(s, {}, Later, Articles, e, d).0;
    assert Rows(d', Articles)[0].values == Rows(d, Articles)[0].values;
    KeyOf(["id"], Rows(d', Articles)[0].values);
  }

  /** The fixtures after `trashAll([])` on Comments, CompositeArticlesUsers and Articles at `Later`. */
  function AllTrashed(): Data {
    map[
      Articles := [Article(1, Some(Later)), Article(2, Some(Later)), Article(3, Some(Later))],
      Comments := [Comment(1, 1, Some(Later)), Comment(2, 1, Some(Later)), Comment(3, 2, Some(Later))],
      CompositeArticlesUsers := [ArticleUser(1, 1, Some(Later)), ArticleUser(3, 1, Some(Later))]
    ]
  }

  /** Trashing all comments, composite rows and articles gives AllTrashed. */
  lemma TrashEverything()
    ensures var d1 := TrashAll(Comments, Everything, Later, Fixtures()).0;
            var d2 := TrashAll(CompositeArticlesUsers, Everything, Later, d1).0;
            TrashAll(Articles, Everything, Later, d2).0 == AllTrashed()
  {
    var d0 := Fixtures();
    var d1 := TrashAll(Comments, Everything, Later, d0).0;
    var d2 := TrashAll(CompositeArticlesUsers, Everything, Later, d1).0;
    var d3 := TrashAll(Articles, Everything, Later, d2).0;
    TableNamesDiffer();
    MarkedTable(Comments);
    MarkedTable(CompositeArticlesUsers);
    MarkedTable(Articles);
    SameTables(d3, AllTrashed());
  }

  /** Two data sets over the three fixture tables that agree table by table are equal. */
  lemma SameTables(a: Data, b: Data)
    requires a.Keys == b.Keys == {Articles, Comments, CompositeArticlesUsers}
    requires a[Articles] == b[Articles] && a[Comments] == b[Comments]
    requires a[CompositeArticlesUsers] == b[CompositeArticlesUsers]
    ensures a == b
  {
  }

  /** Marking every fixture row of one table at `Later` gives that table of AllTrashed. */
  lemma MarkedTable(t: TableId)
    requires t in Fixtures()
    ensures t in AllTrashed() && UpdateWhere(Fixtures()[t], Everything, Some(Later)) == AllTrashed()[t]
  {
    TableNamesDiffer();
  }

  /** The same three calls count 3, 2 and 3 rows, and `find()` sees none of them afterwards. */
  lemma TrashEverythingCounts()
    ensures var (d1, n1) := TrashAll(Comments, Everything, Later, Fixtures());
            var (d2, n2) := TrashAll(CompositeArticlesUsers, Everything, Later, d1);
            var (d3, n3) := TrashAll(Articles, Everything, Later, d2);
            n1 == 3 && n2 == 2 && n3 == 3 &&
            Found(d1, Comments) == 0 && Found(d2, CompositeArticlesUsers) == 0 && Found(d3, Articles) == 0
  {
    var d0 := Fixtures();
    var d1 := TrashAll(Comments, Everything, Later, d0).0;
    TrashFully(Comments, d0);
    var d2 := TrashAll(CompositeArticlesUsers, Everything, Later, d1).0;
    TrashFully(CompositeArticlesUsers, d1);
    TrashFully(Articles, d2);
  }

  /** `trashAll([])` on one table marks each of its rows at `Later`, counts them all and leaves `find()` nothing. */
  lemma TrashFully(t: TableId, d: Data)
    ensures var (d1, n) := TrashAll(t, Everything, Later, d);
            n == |Rows(d, t)| == |Rows(d1, t)| && Found(d1, t) == 0 && d1 == d[t := Rows(d1, t)] &&
            forall k :: 0 <= k < |Rows(d, t)| ==> Rows(d1, t)[k] == Rows(d, t)[k].(trashed := Some(Later))
  {
    var d1 := TrashAll(t, Everything, Later, d).0;
    CountEverything(Rows(d, t));
    AllTrashedCount(Rows(d1, t));
  }

  /** Every row of AllTrashed carries its full primary key. */
  lemma AllTrashedKeyed(s: Schema)
    requires s.Keys == TestSchema(true, true).Keys
    requires forall t :: t in s ==> s[t].primaryKey == TestSchema(true, true)[t].primaryKey
    ensures Keyed(s, AllTrashed())
  {
    AllTrashedColumns();
    AllTrashedCompositeColumns();
    TestDataKeyed(s, AllTrashed());
  }

  lemma AllTrashedColumns()
    ensures Users !in AllTrashed()
    ensures HasColumns(Rows(AllTrashed(), Articles), ["id"]) && HasColumns(Rows(AllTrashed(), Comments), ["id"])
  {
    TableNamesDiffer();
  }

  lemma AllTrashedCompositeColumns()
    ensures HasColumns(Rows(AllTrashed(), CompositeArticlesUsers), ["article_id", "user_id"])
  {
    TableNamesDiffer();
  }

  /**
   * With both HasMany associations dependent, cascading restore of the
   * trashed article 1 returns it restored and restores its comment 1 and
   * its composite row (1, 1).
   */
  lemma CascadingUntrashArticle()
    ensures var e := Loaded(Article(1, Some(Later)));
            var (d, r) := CascadingRestore(TestSchema(true, true), {}, Articles, e, AllTrashed());
            r == Ok(Some(Entity(map["id" := 1], None, false))) &&
            |Rows(d, Articles)| == 3 && !IsTrashed(Rows(d, Articles)[0]) &&
            |Rows(d, Comments)| == 3 && !IsTrashed(Rows(d, Comments)[0]) &&
            |Rows(d, CompositeArticlesUsers)| == 2 && !IsTrashed(Rows(d, CompositeArticlesUsers)[0])
  {
    var s := TestSchema(true, true);
    var e := Loaded(Article(1, Some(Later)));
    var d := AllTrashed();
    AllTrashedKeyed(s);
    KeyOf(["id"], e.values);
    KeyOf(["article_id"], Rows(d, Comments)[0].values);
    KeyOf(["article_id"], Rows(d, CompositeArticlesUsers)[0].values);
    RestoreReachesRelatedRows(s, Articles, e, d, 0, 0);
    RestoreReachesRelatedRows(s, Articles, e, d, 2, 0);
    RestoredEntityRowsAreActive(s, {}, Articles, e, d);
    KeyOf(["id"], Rows(d, Articles)[0].values);
    CascadingRestoreOnlyUnmarks(s, {}, Articles, e, d);
  }

  /**
   * The same cascading restore leaves comment 3 and the composite row
   * (3, 1), which belong to other articles, trashed.
   */
  lemma CascadingUntrashSparesOtherArticles()
    ensures var e := Loaded(Article(1, Some(Later)));
            var d := CascadingRestore(TestSchema(true, true), {}, Articles, e, AllTrashed()).0;
            |Rows(d, Comments)| == 3 && Rows(d, Comments)[2] == Comment(3, 2, Some(Later)) &&
            |Rows(d, CompositeArticlesUsers)| == 2 && Rows(d, CompositeArticlesUsers)[1] == ArticleUser(3, 1, Some(Later))
  {
    var d := AllTrashed();
    AllTrashedKeyed(TestSchema(true, true));
    assert Rows(d, Comments) == AllTrashed()[Comments];
    assert Rows(d, CompositeArticlesUsers) == AllTrashed()[CompositeArticlesUsers];
    SparesOtherArticles(TestSchema(true, true), Loaded(Article(1, Some(Later))), d);
  }

  /** Restoring one entity writes its own table only. */
  lemma RestoreEntityFrame(s: Schema, t: TableId, e: Entity, d: Data)
    requires t in s
    ensures forall u :: u != t ==> Rows(RestoreEntity(s, {}, t, e, d).0, u) == Rows(d, u)
  {
  }

  /** The same on any keyed data whose comments and composite rows are all trashed as in `AllTrashed`. */
  lemma SparesOtherArticles(s: Schema, e: Entity, d: Data)
    requires s == TestSchema(true, true) && e == Loaded(Article(1, Some(Later))) && Keyed(s, d)
    requires Rows(d, Comments) == [Comment(1, 1, Some(Later)), Comment(2, 1, Some(Later)), Comment(3, 2, Some(Later))]
    requires Rows(d, CompositeArticlesUsers) == [ArticleUser(1, 1, Some(Later)), ArticleUser(3, 1, Some(Later))]
    ensures var d' := CascadingRestore(s, {}, Articles, e, d).0;
            |Rows(d', Comments)| == 3 && Rows(d', Comments)[2] == Comment(3, 2, Some(Later)) &&
            |Rows(d', CompositeArticlesUsers)| == 2 && Rows(d', CompositeArticlesUsers)[1] == ArticleUser(3, 1, Some(Later))
  {
    var (d1, r1) := RestoreEntity(s, {}, Articles, e, d);
    RestoreEntityFrame(s, Articles, e, d);
    var comments := Related(Rows(d1, Comments), ["article_id"], [1], false);
    var d2 := RestoreEach(s, {}, Comments, comments, 0, d1, true).0;
    var composite := Related(Rows(d2, CompositeArticlesUsers), ["article_id"], [1], false);
    var d3 := RestoreEach(s, {}, CompositeArticlesUsers, composite, 0, d2, true).0;
    LoopsSpareOtherArticles(s, d1, comments, d2, composite, d3);
    CascadeOfFirstArticle(s, e, d, d1, r1, comments, d2, composite, d3);
  }

  /** The two related-row loops of that cascade leave comment 3 and the composite row (3, 1) trashed. */
  lemma LoopsSpareOtherArticles(s: Schema, d1: Data, comments: seq<Row>, d2: Data, composite: seq<Row>, d3: Data)
    requires s == TestSchema(true, true)
    requires Rows(d1, Comments) == [Comment(1, 1, Some(Later)), Comment(2, 1, Some(Later)), Comment(3, 2, Some(Later))]
    requires Rows(d1, CompositeArticlesUsers) == [ArticleUser(1, 1, Some(Later)), ArticleUser(3, 1, Some(Later))]
    requires comments == Related(Rows(d1, Comments), ["article_id"], [1], false)
    requires d2 == RestoreEach(s, {}, Comments, comments, 0, d1, true).0
    requires composite == Related(Rows(d2, CompositeArticlesUsers), ["article_id"], [1], false)
    requires d3 == RestoreEach(s, {}, CompositeArticlesUsers, composite, 0, d2, true).0
    ensures |Rows(d3, Comments)| == 3 && Rows(d3, Comments)[2] == Comment(3, 2, Some(Later))
    ensures |Rows(d3, CompositeArticlesUsers)| == 2 && Rows(d3, CompositeArticlesUsers)[1] == ArticleUser(3, 1, Some(Later))
  {
    CommentThreeUntouched(s, d1, comments, d2);
    ArticleUserThreeUntouched(s, d2, composite, d3);
  }

  /** Restoring the comments of article 1 leaves comment 3 and the other tables as they were. */
  lemma CommentThreeUntouched(s: Schema, d1: Data, comments: seq<Row>, d2: Data)
    requires s == TestSchema(true, true)
    requires Rows(d1, Comments) == [Comment(1, 1, Some(Later)), Comment(2, 1, Some(Later)), Comment(3, 2, Some(Later))]
    requires comments == Related(Rows(d1, Comments), ["article_id"], [1], false)
    requires d2 == RestoreEach(s, {}, Comments, comments, 0, d1, true).0
    ensures |Rows(d2, Comments)| == 3 && Rows(d2, Comments)[2] == Comment(3, 2, Some(Later))
    ensures forall u :: u != Comments ==> Rows(d2, u) == Rows(d1, u)
  {
    KeyOf(["article_id"], Comment(3, 2, Some(Later)).values);
    KeyOf(["id"], Comment(1, 1, Some(Later)).values);
    KeyOf(["id"], Comment(2, 1, Some(Later)).values);
    KeyOf(["id"], Comment(3, 2, Some(Later)).values);
    forall j | 0 <= j < |comments|
      ensures Extract(["id"], comments[j].values) != Extract(["id"], Rows(d1, Comments)[2].values)
    {
      assert comments[j] in comments;
    }
    LeafRestoreEachFrame(s, {}, Comments, comments, 0, d1, true);
    RestoreEachOnlyUnmarks(s, {}, Comments, comments, 0, d1, true);
  }

  /** Restoring the composite rows of article 1 leaves the row (3, 1) and the other tables as they were. */
  lemma ArticleUserThreeUntouched(s: Schema, d2: Data, composite: seq<Row>, d3: Data)
    requires s == TestSchema(true, true)
    requires Rows(d2, CompositeArticlesUsers) == [ArticleUser(1, 1, Some(Later)), ArticleUser(3, 1, Some(Later))]
    requires composite == Related(Rows(d2, CompositeArticlesUsers), ["article_id"], [1], false)
    requires d3 == RestoreEach(s, {}, CompositeArticlesUsers, composite, 0, d2, true).0
    ensures |Rows(d3, CompositeArticlesUsers)| == 2 && Rows(d3, CompositeArticlesUsers)[1] == ArticleUser(3, 1, Some(Later))
    ensures forall u :: u != CompositeArticlesUsers ==> Rows(d3, u) == Rows(d2, u)
  {
    KeyOf(["article_id"], ArticleUser(3, 1, Some(Later)).values);
    KeyOf(["article_id", "user_id"], ArticleUser(1, 1, Some(Later)).values);
    KeyOf(["article_id", "user_id"], ArticleUser(3, 1, Some(Later)).values);
    forall j | 0 <= j < |composite|
      ensures Extract(["article_id", "user_id"], composite[j].values) !=
              Extract(["article_id", "user_id"], Rows(d2, CompositeArticlesUsers)[1].values)
    {
      assert composite[j] in composite;
    }
    LeafRestoreEachFrame(s, {}, CompositeArticlesUsers, composite, 0, d2, true);
    RestoreEachOnlyUnmarks(s, {}, CompositeArticlesUsers, composite, 0, d2, true);
  }

  /** The two related-row loops of the cascade from article 1 raise nothing. */
  lemma CascadeOfFirstArticleRaisesNothing(s: Schema, e: Entity, d: Data, d1: Data,
                                           comments: seq<Row>, d2: Data, composite: seq<Row>)
    requires s == TestSchema(true, true) && e == Loaded(Article(1, Some(Later))) && Keyed(s, d)
    requires d1 == RestoreEntity(s, {}, Articles, e, d).0
    requires comments == Related(Rows(d1, Comments), ["article_id"], [1], false)
    requires d2 == RestoreEach(s, {}, Comments, comments, 0, d1, true).0
    requires composite == Related(Rows(d2, CompositeArticlesUsers), ["article_id"], [1], false)
    ensures RestoreEach(s, {}, Comments, comments, 0, d1, true).1.Ok?
    ensures RestoreEach(s, {}, CompositeArticlesUsers, composite, 0, d2, true).1.Ok?
  {
    KeyOf(["id"], e.values);
    SaveOnlyUnmarks(s, {}, Articles, e.(trashed := None, dirty := true), d);
    KeyedKept(s, d, d1);
    assert RestoredRelated(s[Articles].associations[0], e, d1) == comments;
    RelatedRowsKeyed(s, d1, s[Articles].associations[0], e);
    RestoreEachRaisesNothing(s, {}, Comments, comments, 0, d1, true);
    RestoreEachOnlyUnmarks(s, {}, Comments, comments, 0, d1, true);
    KeyedKept(s, d1, d2);
    assert RestoredRelated(s[Articles].associations[2], e, d2) == composite;
    RelatedRowsKeyed(s, d2, s[Articles].associations[2], e);
    RestoreEachRaisesNothing(s, {}, CompositeArticlesUsers, composite, 0, d2, true);
  }

  /** The cascade from article 1 visits Comments, then CompositeArticlesUsers, and nothing else. */
  lemma CascadeOfFirstArticle(s: Schema, e: Entity, d: Data, d1: Data, r1: Result<Option<Entity>, Failure>,
                              comments: seq<Row>, d2: Data, composite: seq<Row>, d3: Data)
    requires s == TestSchema(true, true) && e == Loaded(Article(1, Some(Later))) && Keyed(s, d)
    requires (d1, r1) == RestoreEntity(s, {}, Articles, e, d)
    requires comments == Related(Rows(d1, Comments), ["article_id"], [1], false)
    requires d2 == RestoreEach(s, {}, Comments, comments, 0, d1, true).0
    requires composite == Related(Rows(d2, CompositeArticlesUsers), ["article_id"], [1], false)
    requires d3 == RestoreEach(s, {}, CompositeArticlesUsers, composite, 0, d2, true).0
    ensures CascadingRestore(s, {}, Articles, e, d).0 == d3
  {
    KeyOf(["id"], e.values);
    assert r1.Ok?;
    var ok0 := RestoreEach(s, {}, Comments, comments, 0, d1, true).1;
    var ok2 := RestoreEach(s, {}, CompositeArticlesUsers, composite, 0, d2, true).1;
    CascadeOfFirstArticleRaisesNothing(s, e, d, d1, comments, d2, composite);
    var res1 := if ok0.value then r1.value else None;
    var res3 := if ok2.value then res1 else None;
    assert RestoreAssociations(s, {}, Articles, e, 3, d3, res3) == (d3, Ok(res3));
    assert RestoreAssociations(s, {}, Articles, e, 2, d2, res1) == (d3, Ok(res3));
    assert RestoreAssociations(s, {}, Articles, e, 1, d2, res1) == (d3, Ok(res3));
    assert RestoreAssociations(s, {}, Articles, e, 0, d1, r1.value) == (d3, Ok(res3));
  }

  /**
   * Bulk cascading restore of Articles, with both HasMany associations
   * dependent, on any data where more than one article is trashed: Articles,
   * then Comments, then CompositeArticlesUsers, the counts added up.
   */
  lemma BulkRestoreOfArticles(d: Data)
    requires CountTrashed(Rows(d, Articles)) > 1
    ensures var (dA, nA) := RestoreAll(Articles, d);
            var (dC, nC) := RestoreAll(Comments, dA);
            var (dP, nP) := RestoreAll(CompositeArticlesUsers, dC);
            CascadingRestoreAll(TestSchema(true, true), Articles, d) == (dP, nA + nC + nP)
  {
    var s := TestSchema(true, true);
    var (dA, nA) := RestoreAll(Articles, d);
    var (dC, nC) := RestoreAll(Comments, dA);
    var (dP, nP) := RestoreAll(CompositeArticlesUsers, dC);
    BulkLeafFollowsNothing(s, Comments, 0, dC, nC);
    BulkLeafFollowsNothing(s, CompositeArticlesUsers, 0, dP, nP);
    assert RestoreAllAssociations(s, Articles, 2, dC, nA + nC) == (dP, nA + nC + nP);
    assert RestoreAllAssociations(s, Articles, 1, dC, nA + nC) == (dP, nA + nC + nP);
  }

  /**
   * With both HasMany associations dependent, cascading restore without an
   * entity on the all-trashed fixtures restores 3 articles, then follows
   * both associations (the running count is above one): 3 comments and 2
   * composite rows, 8 in all; `find()` then sees every row again.
   */
  lemma CascadingUntrashAll()
    ensures var (d, n) := CascadingRestoreAll(TestSchema(true, true), Articles, AllTrashed());
            n == 8 && Found(d, Comments) == 3 && Found(d, CompositeArticlesUsers) == 2 && Found(d, Articles) == 3
  {
    var d := AllTrashed();
    AllTrashedRows();
    var dA := RestoreAll(Articles, d).0;
    RestoreFullTrash(Articles, d);
    var dC := RestoreAll(Comments, dA).0;
    RestoreFullTrash(Comments, dA);
    var dP := RestoreAll(CompositeArticlesUsers, dC).0;
    RestoreFullTrash(CompositeArticlesUsers, dC);
    BulkRestoreOfArticles(d);
  }

  /** In AllTrashed every row is trashed; the tables hold 3, 3 and 2 rows. */
  lemma AllTrashedRows()
    ensures |Rows(AllTrashed(), Articles)| == 3 && |Rows(AllTrashed(), Comments)| == 3
    ensures |Rows(AllTrashed(), CompositeArticlesUsers)| == 2
    ensures forall t, k :: 0 <= k < |Rows(AllTrashed(), t)| ==> IsTrashed(Rows(AllTrashed(), t)[k])
  {
  }

  /** Restoring a table whose rows are all trashed counts them all, and `find()` then sees them all. */
  lemma RestoreFullTrash(t: TableId, d: Data)
    requires forall k :: 0 <= k < |Rows(d, t)| ==> IsTrashed(Rows(d, t)[k])
    ensures RestoreAll(t, d).1 == |Rows(d, t)| == |Rows(RestoreAll(t, d).0, t)|
    ensures Found(RestoreAll(t, d).0, t) == |Rows(d, t)|
    ensures forall u :: u != t ==> Rows(RestoreAll(t, d).0, u) == Rows(d, u)
  {
    RestoreAllClearsTable(t, d);
    AllTrashedCount(Rows(d, t));
    NoneTrashed(Rows(RestoreAll(t, d).0, t));
  }

  /** A `Model.beforeSave` listener on Comments that refuses every comment. */
  function RefuseComments(): Rejections {
    {(Comments, [1]), (Comments, [2]), (Comments, [3])}
  }

  /**
   * With Comments dependent and every comment save refused, cascading
   * restore of the trashed article 1 (after trashing all comments and
   * articles) raises nothing and returns false.
   */
  /** Trashing every comment keeps the fixtures' keys. */
  lemma TrashedCommentsKeyed(s: Schema)
    requires s == TestSchema(true, false)
    ensures Keyed(s, TrashAll(Comments, Everything, Later, Fixtures()).0)
  {
    FixturesKeyed(s);
    TrashAllOnlyMarks(Comments, Everything, Later, Fixtures());
    KeyedKept(s, Fixtures(), TrashAll(Comments, Everything, Later, Fixtures()).0);
  }

  /** Then trashing every article keeps them too. */
  lemma TrashedArticlesAndCommentsKeyed(s: Schema)
    requires s == TestSchema(true, false)
    ensures Keyed(s, TrashAll(Articles, Everything, Later, TrashAll(Comments, Everything, Later, Fixtures()).0).0)
  {
    var d1 := TrashAll(Comments, Everything, Later, Fixtures()).0;
    TrashedCommentsKeyed(s);
    TrashAllOnlyMarks(Articles, Everything, Later, d1);
    KeyedKept(s, d1, TrashAll(Articles, Everything, Later, d1).0);
  }

  lemma CascadingUntrashFailure()
    ensures var d := TrashAll(Articles, Everything, Later, TrashAll(Comments, Everything, Later, Fixtures()).0).0;
            CascadingRestore(TestSchema(true, false), RefuseComments(), Articles, Loaded(Article(1, Some(Later))), d).1 == Ok(None)
  {
    var s := TestSchema(true, false);
    var e := Loaded(Article(1, Some(Later)));
    var d1 := TrashAll(Comments, Everything, Later, Fixtures()).0;
    var d := TrashAll(Articles, Everything, Later, d1).0;
    TrashAllMarksMatching(Comments, Everything, Later, Fixtures());
    TrashAllMarksMatching(Articles, Everything, Later, d1);
    assert Rows(d, Comments)[0].values == Comment(1, 1, None).values;
    KeyOf(["id"], e.values);
    KeyOf(["article_id"], Rows(d, Comments)[0].values);
    KeyOf(["id"], Rows(d, Comments)[0].values);
    TrashedArticlesAndCommentsKeyed(s);
    CleanRestoreRaisesNothing(s, RefuseComments(), Articles, e, d);
    RefusedRelatedRestoreFails(s, RefuseComments(), Articles, e, d, 0, 0);
  }
}
