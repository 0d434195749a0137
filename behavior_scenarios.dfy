/**
 * The behaviour-level cases of the repository's tests, proved of the model:
 * the `implementedEvents()` data provider, the `getTrashField()` cases and
 * the row counts of the three find modes on the article fixtures.
 */
module BehaviorScenarios {
  import opened Wrappers
  import opened Php
  import opened Events
  import opened TrashField
  import opened QueryFilter
  import opened Behavior

  const BeforeDeleteName: string := "Model.beforeDelete"
  const BeforeFindName: string := "Model.beforeFind"

  /** An event name starting with a letter is not numeric, so it is used as the name. */
  lemma LetterFirstIsNotNumeric(s: string)
    requires |s| > 0 && 'A' <= s[0] <= 'Z'
    ensures !IsNumericKey(StrKey(s))
  {
    assert !IsWhitespace(s[0]) && !IsDigit(s[0]) && s[0] != '+' && s[0] != '-' && s[0] != '.';
    assert SkipWhile(s, 0, IsWhitespace) == 0;
    assert SkipWhile(s, 0, IsDigit) == 0;
  }

  /** The callables the two default events get from their names. */
  lemma DefaultCallables()
    ensures AfterFirstDot(BeforeDeleteName) == "beforeDelete"
    ensures AfterFirstDot(BeforeFindName) == "beforeFind"
  {
    DeleteCallable();
    FindCallable();
  }

  lemma DeleteCallable()
    ensures AfterFirstDot(BeforeDeleteName) == "beforeDelete"
  {
    assert BeforeDeleteName[5] == '.' && '.' !in BeforeDeleteName[..5];
  }

  lemma FindCallable()
    ensures AfterFirstDot(BeforeFindName) == "beforeFind"
  {
    assert BeforeFindName[5] == '.' && '.' !in BeforeFindName[..5];
  }

  /** The result for the default events: each callable is the method of the same name. */
  function DefaultHandlers(): EventMap {
    [(BeforeDeleteName, [(CallableKey, Str("beforeDelete"))]),
     (BeforeFindName, [(CallableKey, Str("beforeFind"))])]
  }

  /** A listed event name under a falsy priority gets the callable named after it, and nothing else. */
  lemma ListedEvent(k: Key, name: string, priority: Value)
    requires IsNumericKey(k) && !Truthy(priority)
    ensures StepFor(priority)((k, Str(name))) == Ok((name, [(CallableKey, Str(AfterFirstDot(name)))]))
  {
    assert Put([(CallableKey, Null)], CallableKey, Str(AfterFirstDot(name))) == [(CallableKey, Str(AfterFirstDot(name)))];
  }

  /** Folding two entries that give two different names yields both, in order. */
  lemma CollectTwo(e1: (Key, Value), e2: (Key, Value), step: Step, n1: string, h1: Handler, n2: string, h2: Handler)
    requires step(e1) == Ok((n1, h1)) && step(e2) == Ok((n2, h2)) && n1 != n2
    ensures Collect([e1, e2], step, []) == Ok([(n1, h1), (n2, h2)])
  {
    assert [e1, e2][1..] == [e2];
    assert Put([], n1, h1) == [(n1, h1)];
    assert Put([(n1, h1)], n2, h2) == [(n1, h1), (n2, h2)];
    assert Collect([e2], step, [(n1, h1)]) == Ok([(n1, h1), (n2, h2)]) by {
      assert [e2][1..] == [];
    }
  }

  /** Folding one entry yields its name. */
  lemma CollectOne(e1: (Key, Value), step: Step, n1: string, h1: Handler)
    requires step(e1) == Ok((n1, h1))
    ensures Collect([e1], step, []) == Ok([(n1, h1)])
  {
    assert [e1][1..] == [];
    assert Put([], n1, h1) == [(n1, h1)];
  }

  /** No `events` setting: the two default events with their default callables. */
  lemma NoEventConfigInheritsDefaults()
    ensures EventsOf(ConfiguredEvents(None), Null) == Ok(DefaultHandlers())
  {
    DefaultCallables();
    ListedEvent(IntKey(0), BeforeDeleteName, Null);
    ListedEvent(IntKey(1), BeforeFindName, Null);
    CollectTwo((IntKey(0), Str(BeforeDeleteName)), (IntKey(1), Str(BeforeFindName)), StepFor(Null),
               BeforeDeleteName, [(CallableKey, Str("beforeDelete"))], BeforeFindName, [(CallableKey, Str("beforeFind"))]);
  }

  /** `'events' => []`: the host merges nothing in, so the defaults stay. */
  lemma EmptyEventConfigInheritsDefaults()
    ensures EventsOf(ConfiguredEvents(Some(Arr([]))), Null) == Ok(DefaultHandlers())
  {
    assert ConfiguredEvents(Some(Arr([]))) == DefaultEvents;
    NoEventConfigInheritsDefaults();
  }

  /** `'events' => false`: no event at all. */
  lemma FalseEventConfigDisablesEvents()
    ensures EventsOf(ConfiguredEvents(Some(Bool(false))), Null) == Ok([])
  {
  }

  /** `'events' => null`: the host replaces the defaults by null, which lists no event. */
  lemma NullEventConfigListsNothing()
    ensures ConfiguredEvents(Some(Null)) == Null
    ensures EventsOf(ConfiguredEvents(Some(Null)), Null) == Ok([])
  {
  }

  /** `'events' => ['Model.beforeDelete']`: only that event, with its default callable. */
  lemma EventKeyAsValue()
    ensures EventsOf(ConfiguredEvents(Some(Arr([(IntKey(0), Str(BeforeDeleteName))]))), Null) ==
            Ok([(BeforeDeleteName, [(CallableKey, Str("beforeDelete"))])])
  {
    DefaultCallables();
    ListedEvent(IntKey(0), BeforeDeleteName, Null);
    CollectOne((IntKey(0), Str(BeforeDeleteName)), StepFor(Null), BeforeDeleteName, [(CallableKey, Str("beforeDelete"))]);
  }

  /** A handler array with its own callable, under a priority it needs no copy of, is kept as it is. */
  lemma GivenHandler(name: string, h: Handler, priority: Value)
    requires |name| > 0 && 'A' <= name[0] <= 'Z'
    requires HasKey(h, CallableKey) && Lookup(h, CallableKey) != Some(Null)
    requires HasKey(h, PriorityKey) || !Truthy(priority)
    ensures StepFor(priority)((StrKey(name), Arr(h))) == Ok((name, h))
  {
    LetterFirstIsNotNumeric(name);
  }

  /** `'events' => ['Model.beforeFind' => 'beforeFind']`: only that event, with that method. */
  lemma MethodNameAsValue()
    ensures EventsOf(ConfiguredEvents(Some(Arr([(StrKey(BeforeFindName), Str("beforeFind"))]))), Null) ==
            Ok([(BeforeFindName, [(CallableKey, Str("beforeFind"))])])
  {
    LetterFirstIsNotNumeric(BeforeFindName);
    CollectOne((StrKey(BeforeFindName), Str("beforeFind")), StepFor(Null), BeforeFindName, [(CallableKey, Str("beforeFind"))]);
  }

  /** The handler arrays of the callables case: a closure, and an array callable with `passParams`. */
  function ClosureHandler(): Handler {
    [(CallableKey, Object(0))]
  }

  function ArrayCallableHandler(): Handler {
    [(CallableKey, Arr([(IntKey(0), Object(1)), (IntKey(1), Str("beforeDelete"))])), (StrKey("passParams"), Bool(true))]
  }

  /** Handler arrays with their own callables are passed through untouched. */
  lemma CallablesAreKept()
    ensures EventsOf(ConfiguredEvents(Some(Arr([(StrKey(BeforeDeleteName), Arr(ClosureHandler())),
                                                (StrKey(BeforeFindName), Arr(ArrayCallableHandler()))]))), Null) ==
            Ok([(BeforeDeleteName, ClosureHandler()), (BeforeFindName, ArrayCallableHandler())])
  {
    GivenHandler(BeforeDeleteName, ClosureHandler(), Null);
    GivenHandler(BeforeFindName, ArrayCallableHandler(), Null);
    CollectTwo((StrKey(BeforeDeleteName), Arr(ClosureHandler())), (StrKey(BeforeFindName), Arr(ArrayCallableHandler())),
               StepFor(Null), BeforeDeleteName, ClosureHandler(), BeforeFindName, ArrayCallableHandler());
  }

  /** A handler array with a method name and further options is passed through untouched. */
  lemma MultipleOptionsAreKept()
    ensures var h := [(CallableKey, Str("beforeDelete")), (StrKey("passParams"), Bool(true))];
            EventsOf(ConfiguredEvents(Some(Arr([(StrKey(BeforeDeleteName), Arr(h))]))), Null) == Ok([(BeforeDeleteName, h)])
  {
    var h := [(CallableKey, Str("beforeDelete")), (StrKey("passParams"), Bool(true))];
    GivenHandler(BeforeDeleteName, h, Null);
    CollectOne((StrKey(BeforeDeleteName), Arr(h)), StepFor(Null), BeforeDeleteName, h);
  }

  /** A listed event name under a truthy priority gets its default callable and that priority. */
  lemma ListedEventWithPriority(k: Key, name: string, priority: Value)
    requires IsNumericKey(k) && Truthy(priority)
    ensures StepFor(priority)((k, Str(name))) ==
            Ok((name, [(CallableKey, Str(AfterFirstDot(name))), (PriorityKey, priority)]))
  {
    var h1 := [(CallableKey, Str(AfterFirstDot(name)))];
    assert Put([(CallableKey, Null)], CallableKey, Str(AfterFirstDot(name))) == h1;
    assert "callable" != "priority" by { assert "callable"[0] != "priority"[0]; }
    assert CallableKey != PriorityKey;
    assert Lookup(h1, PriorityKey) == Lookup(h1[1..], PriorityKey) == None by { assert h1[1..] == []; }
    assert Put(h1, PriorityKey, priority) == h1 + [(PriorityKey, priority)];
    assert Complete(name, [(CallableKey, Null)], priority) == h1 + [(PriorityKey, priority)];
    assert Normalise(k, Str(name), priority) == Ok((name, Complete(name, [(CallableKey, Null)], priority)));
    assert h1 + [(PriorityKey, priority)] == [(CallableKey, Str(AfterFirstDot(name))), (PriorityKey, priority)];
  }

  /** A handler array holding only a priority keeps it and gets the default callable, whatever the global priority. */
  lemma OwnPriorityOnly(name: string, own: Value, priority: Value)
    requires |name| > 0 && 'A' <= name[0] <= 'Z'
    ensures StepFor(priority)((StrKey(name), Arr([(PriorityKey, own)]))) ==
            Ok((name, [(PriorityKey, own), (CallableKey, Str(AfterFirstDot(name)))]))
  {
    LetterFirstIsNotNumeric(name);
    var h := [(PriorityKey, own)];
    OwnPriorityCompleted(name, own, priority);
    assert Normalise(StrKey(name), Arr(h), priority) == Ok((name, Complete(name, h, priority)));
  }

  /** Completing a handler that holds only a priority appends the default callable. */
  lemma OwnPriorityCompleted(name: string, own: Value, priority: Value)
    ensures Complete(name, [(PriorityKey, own)], priority) == [(PriorityKey, own), (CallableKey, Str(AfterFirstDot(name)))]
  {
    var h := [(PriorityKey, own)];
    assert "callable" != "priority" by { assert "callable"[0] != "priority"[0]; }
    assert CallableKey != PriorityKey;
    assert Lookup(h, CallableKey) == Lookup(h[1..], CallableKey) == None by { assert h[1..] == []; }
    var h1 := h + [(CallableKey, Str(AfterFirstDot(name)))];
    assert Put(h, CallableKey, Str(AfterFirstDot(name))) == h1;
    assert HasKey(h1, PriorityKey);
    assert h1 == [(PriorityKey, own), (CallableKey, Str(AfterFirstDot(name)))];
  }

  /**
   * `'priority' => 1` with `['Model.beforeDelete', 'Model.beforeFind' =>
   * ['priority' => 5]]`: the listed event gets the global priority, the
   * other keeps its own and gets its default callable. (The handler arrays
   * are compared as sets of key/value pairs, so the order of the two keys
   * inside the second one does not matter.)
   */
  lemma DefaultAndEventPriorities()
    ensures EventsOf(ConfiguredEvents(Some(Arr([(IntKey(0), Str(BeforeDeleteName)),
                                                (StrKey(BeforeFindName), Arr([(PriorityKey, Int(5))]))]))), Int(1)) ==
            Ok([(BeforeDeleteName, [(CallableKey, Str("beforeDelete")), (PriorityKey, Int(1))]),
                (BeforeFindName, [(PriorityKey, Int(5)), (CallableKey, Str("beforeFind"))])])
  {
    var e1 := (IntKey(0), Str(BeforeDeleteName));
    var e2 := (StrKey(BeforeFindName), Arr([(PriorityKey, Int(5))]));
    var v := Arr([e1, e2]);
    assert !IsEmpty(v);
    assert ConfiguredEvents(Some(v)) == v;
    assert ToArray(v) == [e1, e2];
    DefaultCallables();
    ListedEventWithPriority(IntKey(0), BeforeDeleteName, Int(1));
    OwnPriorityOnly(BeforeFindName, Int(5), Int(1));
    CollectTwo(e1, e2, StepFor(Int(1)),
               BeforeDeleteName, [(CallableKey, Str("beforeDelete")), (PriorityKey, Int(1))],
               BeforeFindName, [(PriorityKey, Int(5)), (CallableKey, Str("beforeFind"))]);
  }

  // ---------------------------------------------------------------------
  // The behaviour object on the test tables
  // ---------------------------------------------------------------------

  /** The columns of the test tables: Users has no trash column, Articles has `trashed`. */
  const UsersColumns: seq<string> := ["id", "name", "created"]
  const ArticlesColumns: seq<string> :=
    ["id", "title", "sub_title", "comment_count", "total_comment_count", "trashed", "created", "modified"]

  /** A field name without a dot is prefixed with the alias. */
  lemma AliasOfPlainName(alias: string, field: string)
    requires forall i :: 0 <= i < |field| ==> field[i] != '.'
    ensures AliasField(alias, field) == alias + "." + field
  {
  }

  /** How Users resolves its trash field: it has neither `deleted` nor `trashed`. */
  lemma UsersFields()
    ensures Resolve("", UsersColumns, "") == Err(FieldNotConfigured)
    ensures Resolve("deleted", UsersColumns, "") == Ok("deleted")
    ensures Resolve("", UsersColumns, "trashed") == Ok("trashed")
  {
    assert DeletedColumn !in UsersColumns && TrashedColumn !in UsersColumns;
  }

  /** Articles resolves its trash field to the schema column `trashed`. */
  lemma ArticlesFields()
    ensures Resolve("", ArticlesColumns, "") == Ok("trashed")
  {
    assert DeletedColumn !in ArticlesColumns && ArticlesColumns[5] == TrashedColumn;
  }

  /** The aliased trash fields of the test tables. */
  lemma AliasedTestFields()
    ensures AliasField("Users", "deleted") == "Users.deleted"
    ensures AliasField("Users", "trashed") == "Users.trashed"
    ensures AliasField("Articles", "trashed") == "Articles.trashed"
  {
    AliasOfPlainName("Users", "deleted");
    AliasOfPlainName("Users", "trashed");
    AliasOfPlainName("Articles", "trashed");
  }

  /** A behaviour constructed on Users without settings subscribes the two default events. */
  method DefaultBehaviorEvents() returns (r: Result<EventMap, EventError>)
    ensures r == Ok(DefaultHandlers())
  {
    var b := new TrashBehavior("Users", UsersColumns, "", Null, None);
    r := b.ImplementedEvents();
    NoEventConfigInheritsDefaults();
  }

  /** On Users, with no field configured anywhere, `getTrashField()` raises. */
  method UsersWithoutFieldRaise() returns (r: Result<string, FieldError>)
    ensures r == Err(FieldNotConfigured)
  {
    UsersFields();
    var b := new TrashBehavior("Users", UsersColumns, "", Null, None);
    r := b.GetTrashField(true, "");
  }

  /**
   * On Users, a configured `field` of `deleted` gives `Users.deleted`, and
   * with none configured the application-wide `trashed` gives `Users.trashed`.
   */
  method UsersConfiguredField() returns (configured: Result<string, FieldError>, global: Result<string, FieldError>)
    ensures configured == Ok("Users.deleted") && global == Ok("Users.trashed")
  {
    UsersFields();
    AliasedTestFields();
    var b := new TrashBehavior("Users", UsersColumns, "deleted", Null, None);
    configured := b.GetTrashField(true, "");
    var b' := new TrashBehavior("Users", UsersColumns, "", Null, None);
    global := b'.GetTrashField(true, "trashed");
  }

  /**
   * On Articles with `field` set to "", the schema column `trashed` is found,
   * returned aliased, and written back into the setting.
   */
  method ArticlesFallBackToSchema() returns (before: string, r: Result<string, FieldError>, after: string)
    ensures EmptyName(before) && r == Ok("Articles.trashed") && after == "trashed"
  {
    ArticlesFields();
    AliasedTestFields();
    var b := new TrashBehavior("Articles", ArticlesColumns, "", Null, None);
    before := b.field;
    r := b.GetTrashField(true, "");
    after := b.field;
  }

  // ---------------------------------------------------------------------
  // The three find modes on the article fixtures
  // ---------------------------------------------------------------------

  /** The article fixtures as records: article 1 active, 2 and 3 trashed. */
  function ArticleRecords(): seq<Record> {
    [map["Articles.id" := SqlInt(1), "Articles.trashed" := SqlNull],
     map["Articles.id" := SqlInt(2), "Articles.trashed" := SqlInt(1)],
     map["Articles.id" := SqlInt(3), "Articles.trashed" := SqlInt(1)]]
  }

  /** The fixtures hold no opaque expressions. */
  predicate NoRaw(sql: string) {
    false
  }

  /** An unconditioned query selects the active, the trashed and all articles as 1, 2 and 3 rows. */
  lemma ArticleFindCounts(q: Query)
    requires q == Query([], false)
    ensures |SelectByField(ArticleRecords(), q, NoRaw, "Articles.trashed", true)| == 1
    ensures |SelectByField(ArticleRecords(), q, NoRaw, "Articles.trashed", false)| == 2
    ensures |Select(ArticleRecords(), q, NoRaw)| == 3
  {
    var rows := ArticleRecords();
    assert rows[1..][1..][1..] == [];
    assert Matches(q, rows[0], NoRaw) && Matches(q, rows[1], NoRaw) && Matches(q, rows[2], NoRaw);
  }

  /**
   * `find()`, `find('onlyTrashed')` and `find('withTrashed')` on Articles:
   * each finder's query passes through `beforeFind()`, and the rows selected
   * number 1, 2 and 3.
   */
  method FindArticles() returns (active: nat, trashed: nat, all: nat)
    ensures active == 1 && trashed == 2 && all == 3
  {
    var b := new TrashBehavior("Articles", ArticlesColumns, "", Null, None);
    var q := Query([], false);
    var field := "Articles.trashed";
    ArticlesFields();
    AliasedTestFields();
    assert !Mentioned(q.conditions, field);
    FindModesPartition(ArticleRecords(), q, NoRaw, field);
    ArticleFindCounts(q);
    var plain := b.BeforeFind(q, "");
    var only := b.FindOnlyTrashed(q, "");
    var onlyThenFilter := b.BeforeFind(only.value, "");
    var with := b.FindWithTrashed(q);
    var withThenFilter := b.BeforeFind(with, "");
    active := |Select(ArticleRecords(), plain.value, NoRaw)|;
    trashed := |Select(ArticleRecords(), onlyThenFilter.value, NoRaw)|;
    all := |Select(ArticleRecords(), withThenFilter.value, NoRaw)|;
  }
}
