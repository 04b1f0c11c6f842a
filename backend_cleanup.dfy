/**
 * The database half of the back-end reset: the table-cleaner dispatch of clearDb, the
 * fixed statement sequence of resetData, and what each leaves in the store.
 *
 * Every cleaner is described twice: by a method that drives a Connection statement by
 * statement, committing after each, and by the plan of statements it issues. A method's
 * contract ties the connection's new tables and journal to Run of its plan; the lemmas
 * at the end say what Run of each plan leaves in each table.
 */
module BackendCleanup {
  import opened Wrappers
  import opened Text
  import opened SqlStore

  // ---------------------------------------------------------------------------
  // Constants

  const ANALYSIS_TABLES: seq<string> := [
    "authors", "duplications_index", "events", "issues", "issue_changes", "manual_measures",
    "notifications", "project_links", "project_measures", "projects",
    "snapshots", "file_sources"
  ]

  const RESOURCE_RELATED_TABLES: seq<string> := ["group_roles", "user_roles", "properties"]

  /** The key of the organization that must never be deleted. */
  const DEFAULT_ORGANIZATION_KEY: string := "default-organization"

  /** The login of the user that must never be deleted. */
  const ADMIN_LOGIN: string := "admin"

  /** InternalProperties.DEFAULT_ORGANIZATION, the internal property that must never be deleted. */
  const DEFAULT_ORGANIZATION_PROPERTY: string := "organization.default"

  /** The plugin name that marks manually created rules. */
  const MANUAL_RULES_PLUGIN: string := "manual"

  // ---------------------------------------------------------------------------
  // The cleaner dispatch of clearDb

  datatype TableCleaner =
    | TruncateOrganizations
    | TruncateUsers
    | TruncateInternalProperties
    | TruncateSchemaMigrations
    | TruncateDefault

  /** The four exceptions to plain truncation, keyed by exact table name. */
  const TABLE_CLEANERS: map<string, TableCleaner> := map[
    "organizations" := TruncateOrganizations,
    "users" := TruncateUsers,
    "internal_properties" := TruncateInternalProperties,
    "schema_migrations" := TruncateSchemaMigrations
  ]

  /** The cleaner clearDb applies to tableName: an exact-key lookup, falling back to truncation. */
  function CleanerFor(tableName: string): TableCleaner {
    if tableName in TABLE_CLEANERS then TABLE_CLEANERS[tableName] else TruncateDefault
  }

  /** Only the four exact keys escape plain truncation, and only schema_migrations is left alone. */
  lemma CleanerForCases(tableName: string)
    ensures CleanerFor(tableName) == TruncateDefault <==> tableName !in TABLE_CLEANERS
    ensures CleanerFor(tableName) == TruncateSchemaMigrations <==> tableName == "schema_migrations"
  {
  }

  // ---------------------------------------------------------------------------
  // Plans: the statements each operation issues, in order

  function TruncateOrganizationsPlan(): seq<Statement> {
    [DeleteWhereNotEquals("organizations", "kee", Text(DEFAULT_ORGANIZATION_KEY))]
  }

  function TruncateUsersPlan(): seq<Statement> {
    [DeleteWhereNotEquals("users", "login", Text(ADMIN_LOGIN)), UpdateAll("users", "is_root", Flag(false))]
  }

  function TruncateInternalPropertiesPlan(): seq<Statement> {
    [DeleteWhereNotEquals("internal_properties", "kee", Text(DEFAULT_ORGANIZATION_PROPERTY))]
  }

  function DeleteManualRulesPlan(): seq<Statement> {
    [DeleteWhereEquals("rules", "plugin_name", Text(MANUAL_RULES_PLUGIN))]
  }

  /** The statements of one cleaner; only the default cleaner looks at the table name. */
  function CleanerPlan(cleaner: TableCleaner, tableName: string): seq<Statement> {
    match cleaner
    case TruncateOrganizations => TruncateOrganizationsPlan()
    case TruncateUsers => TruncateUsersPlan()
    case TruncateInternalProperties => TruncateInternalPropertiesPlan()
    case TruncateSchemaMigrations => []
    case TruncateDefault => [Truncate(ToLower(tableName))]
  }

  /** The statements clearDb issues for the table list, table by table. */
  function ClearDbPlan(tables: seq<string>): seq<Statement>
    decreases |tables|
  {
    if tables == [] then []
    else
      var last := tables[|tables| - 1];
      ClearDbPlan(tables[..|tables| - 1]) + CleanerPlan(CleanerFor(last), last)
  }

  /** TRUNCATE TABLE for each name, lower-cased. */
  function TruncatePlan(names: seq<string>): seq<Statement>
    decreases |names|
  {
    if names == [] then [] else TruncatePlan(names[..|names| - 1]) + [Truncate(ToLower(names[|names| - 1]))]
  }

  /** DELETE FROM t WHERE resource_id IS NOT NULL for each name. */
  function DeleteResourceRowsPlan(names: seq<string>): seq<Statement>
    decreases |names|
  {
    if names == [] then []
    else DeleteResourceRowsPlan(names[..|names| - 1]) + [DeleteWhereNotNull(names[|names| - 1], "resource_id")]
  }

  function TruncateAnalysisTablesPlan(): seq<Statement> {
    TruncatePlan(ANALYSIS_TABLES) + DeleteResourceRowsPlan(RESOURCE_RELATED_TABLES)
  }

  /** The statements resetData issues: analysis, resource-related rows, manual rules, then the protected tables. */
  function ResetDataPlan(): seq<Statement> {
    TruncateAnalysisTablesPlan() + DeleteManualRulesPlan()
      + TruncateInternalPropertiesPlan() + TruncateUsersPlan() + TruncateOrganizationsPlan()
  }

  // ---------------------------------------------------------------------------
  // The engine

  /** The result of clearDb and resetData: a failure carries the message of the exception raised. */
  datatype Status = Done | Failed(message: string)

  class BackendCleanup {
    const connection: Connection

    constructor (connection: Connection)
      ensures this.connection == connection
    {
      this.connection := connection;
    }

    /** The connection is where running plan from tables db0 and journal j0 leaves it; ok tells whether it ran to the end. */
    ghost predicate Ran(db0: Db, j0: seq<Event>, plan: seq<Statement>, ok: bool)
      reads connection
    {
      var o := Run(db0, plan);
      connection.tables == o.tables && connection.journal == j0 + o.journal && (ok <==> o.executed == |plan|)
    }

    /** One statement followed by a commit. */
    method ExecuteAndCommit(s: Statement) returns (ok: bool)
      modifies connection
      ensures Ran(old(connection.tables), old(connection.journal), [s], ok)
    {
      ok := connection.Execute(s);
      if ok {
        connection.Commit();
      }
    }

    /** Runs q after p: lifts RunAppend to the connection. */
    lemma Then(db0: Db, j0: seq<Event>, p: seq<Statement>, db1: Db, j1: seq<Event>, q: seq<Statement>, ok: bool)
      requires Run(db0, p).executed == |p| && db1 == Run(db0, p).tables && j1 == j0 + Run(db0, p).journal
      requires Ran(db1, j1, q, ok)
      ensures Ran(db0, j0, p + q, ok)
    {
      RunAppend(db0, p, q);
      EventsAssociate(j0, Run(db0, p).journal, Run(db1, q).journal);
    }

    /** Stopping inside p stops p + q there. */
    lemma Stopped(db0: Db, j0: seq<Event>, p: seq<Statement>, q: seq<Statement>)
      requires Ran(db0, j0, p, false)
      ensures Ran(db0, j0, p + q, false)
    {
      RunAppend(db0, p, q);
    }

    method TruncateDefault(tableName: string) returns (ok: bool)
      modifies connection
      ensures Ran(old(connection.tables), old(connection.journal), CleanerPlan(TableCleaner.TruncateDefault, tableName), ok)
    {
      ok := ExecuteAndCommit(Truncate(ToLower(tableName)));
    }

    /** Deletes every organization except the default one. */
    method TruncateOrganizations() returns (ok: bool)
      modifies connection
      ensures Ran(old(connection.tables), old(connection.journal), TruncateOrganizationsPlan(), ok)
    {
      ok := ExecuteAndCommit(DeleteWhereNotEquals("organizations", "kee", Text(DEFAULT_ORGANIZATION_KEY)));
    }

    /** Deletes every user except admin, then clears the root flag of every remaining user. */
    method TruncateUsers() returns (ok: bool)
      modifies connection
      ensures Ran(old(connection.tables), old(connection.journal), TruncateUsersPlan(), ok)
    {
      ghost var db0, j0 := connection.tables, connection.journal;
      var first := DeleteWhereNotEquals("users", "login", Text(ADMIN_LOGIN));
      var second := UpdateAll("users", "is_root", Flag(false));
      assert TruncateUsersPlan() == [first] + [second];
      ok := ExecuteAndCommit(first);
      if !ok {
        Stopped(db0, j0, [first], [second]);
        return;
      }
      ghost var db1, j1 := connection.tables, connection.journal;
      ok := ExecuteAndCommit(second);
      Then(db0, j0, [first], db1, j1, [second], ok);
    }

    /** Deletes every internal property except the default-organization one. */
    method TruncateInternalProperties() returns (ok: bool)
      modifies connection
      ensures Ran(old(connection.tables), old(connection.journal), TruncateInternalPropertiesPlan(), ok)
    {
      ok := ExecuteAndCommit(DeleteWhereNotEquals("internal_properties", "kee", Text(DEFAULT_ORGANIZATION_PROPERTY)));
    }

    /** The migration history is never altered. */
    method TruncateSchemaMigrations() returns (ok: bool)
      ensures ok
    {
      ok := true;
    }

    /** Applies one cleaner of the dispatch. */
    method Clean(cleaner: TableCleaner, tableName: string) returns (ok: bool)
      modifies connection
      ensures Ran(old(connection.tables), old(connection.journal), CleanerPlan(cleaner, tableName), ok)
    {
      match cleaner
      case TruncateOrganizations => ok := TruncateOrganizations();
      case TruncateUsers => ok := TruncateUsers();
      case TruncateInternalProperties => ok := TruncateInternalProperties();
      case TruncateSchemaMigrations => ok := TruncateSchemaMigrations();
      case TruncateDefault => ok := TruncateDefault(tableName);
    }

    /** Cleans every table of the list with its cleaner, in list order; the first failure aborts. */
    method ClearDb(tables: seq<string>) returns (status: Status)
      modifies connection
      ensures Ran(old(connection.tables), old(connection.journal), ClearDbPlan(tables), status == Done)
      ensures status == Done || status == Failed("Fail to clear db")
    {
      ghost var db0, j0 := connection.tables, connection.journal;
      for i := 0 to |tables|
        invariant Ran(db0, j0, ClearDbPlan(tables[..i]), true)
      {
        ghost var db1, j1 := connection.tables, connection.journal;
        var name := tables[i];
        var ok := Clean(CleanerFor(name), name);
        assert tables[..i + 1][..i] == tables[..i];
        Then(db0, j0, ClearDbPlan(tables[..i]), db1, j1, CleanerPlan(CleanerFor(name), name), ok);
        if !ok {
          ClearDbPlanAppend(tables[..i + 1], tables[i + 1..]);
          assert tables[..i + 1] + tables[i + 1..] == tables;
          Stopped(db0, j0, ClearDbPlan(tables[..i + 1]), ClearDbPlan(tables[i + 1..]));
          return Failed("Fail to clear db");
        }
      }
      assert tables[..|tables|] == tables;
      status := Done;
    }

    /** TRUNCATE TABLE for each of names, lower-cased, in order. */
    method TruncateTables(names: seq<string>) returns (ok: bool)
      modifies connection
      ensures Ran(old(connection.tables), old(connection.journal), TruncatePlan(names), ok)
    {
      ghost var db0, j0 := connection.tables, connection.journal;
      for i := 0 to |names|
        invariant Ran(db0, j0, TruncatePlan(names[..i]), true)
      {
        ghost var db1, j1 := connection.tables, connection.journal;
        ok := ExecuteAndCommit(Truncate(ToLower(names[i])));
        assert names[..i + 1][..i] == names[..i];
        Then(db0, j0, TruncatePlan(names[..i]), db1, j1, [Truncate(ToLower(names[i]))], ok);
        if !ok {
          TruncatePlanAppend(names[..i + 1], names[i + 1..]);
          assert names[..i + 1] + names[i + 1..] == names;
          Stopped(db0, j0, TruncatePlan(names[..i + 1]), TruncatePlan(names[i + 1..]));
          return;
        }
      }
      assert names[..|names|] == names;
      ok := true;
    }

    /** DELETE FROM t WHERE resource_id IS NOT NULL for each t of names, in order. */
    method DeleteResourceRows(names: seq<string>) returns (ok: bool)
      modifies connection
      ensures Ran(old(connection.tables), old(connection.journal), DeleteResourceRowsPlan(names), ok)
    {
      ghost var db0, j0 := connection.tables, connection.journal;
      for i := 0 to |names|
        invariant Ran(db0, j0, DeleteResourceRowsPlan(names[..i]), true)
      {
        ghost var db1, j1 := connection.tables, connection.journal;
        var s := DeleteWhereNotNull(names[i], "resource_id");
        ok := ExecuteAndCommit(s);
        assert names[..i + 1][..i] == names[..i];
        Then(db0, j0, DeleteResourceRowsPlan(names[..i]), db1, j1, [s], ok);
        if !ok {
          DeleteResourceRowsPlanAppend(names[..i + 1], names[i + 1..]);
          assert names[..i + 1] + names[i + 1..] == names;
          Stopped(db0, j0, DeleteResourceRowsPlan(names[..i + 1]), DeleteResourceRowsPlan(names[i + 1..]));
          return;
        }
      }
      assert names[..|names|] == names;
      ok := true;
    }

    /** Truncates the analysis tables, then deletes the resource-bound rows of the resource-related tables. */
    method TruncateAnalysisTables() returns (ok: bool)
      modifies connection
      ensures Ran(old(connection.tables), old(connection.journal), TruncateAnalysisTablesPlan(), ok)
    {
      ghost var db0, j0 := connection.tables, connection.journal;
      ok := TruncateTables(ANALYSIS_TABLES);
      if !ok {
        Stopped(db0, j0, TruncatePlan(ANALYSIS_TABLES), DeleteResourceRowsPlan(RESOURCE_RELATED_TABLES));
        return;
      }
      ghost var db1, j1 := connection.tables, connection.journal;
      ok := DeleteResourceRows(RESOURCE_RELATED_TABLES);
      Then(db0, j0, TruncatePlan(ANALYSIS_TABLES), db1, j1, DeleteResourceRowsPlan(RESOURCE_RELATED_TABLES), ok);
    }

    /** Deletes the manually created rules. */
    method DeleteManualRules() returns (ok: bool)
      modifies connection
      ensures Ran(old(connection.tables), old(connection.journal), DeleteManualRulesPlan(), ok)
    {
      ok := ExecuteAndCommit(DeleteWhereEquals("rules", "plugin_name", Text(MANUAL_RULES_PLUGIN)));
    }

    /** Brings the database back to a fresh installation's data, keeping the protected rows. */
    method ResetData() returns (status: Status)
      modifies connection
      ensures Ran(old(connection.tables), old(connection.journal), ResetDataPlan(), status == Done)
      ensures status == Done || status == Failed("Fail to reset data")
    {
      ghost var db0, j0 := connection.tables, connection.journal;
      ghost var p1 := TruncateAnalysisTablesPlan();
      ghost var p2 := p1 + DeleteManualRulesPlan();
      ghost var p3 := p2 + TruncateInternalPropertiesPlan();
      ghost var p4 := p3 + TruncateUsersPlan();
      var ok := TruncateAnalysisTables();
      if ok {
        ghost var db1, j1 := connection.tables, connection.journal;
        ok := DeleteManualRules();
        Then(db0, j0, p1, db1, j1, DeleteManualRulesPlan(), ok);
      } else {
        Stopped(db0, j0, p1, DeleteManualRulesPlan());
      }
      if ok {
        ghost var db1, j1 := connection.tables, connection.journal;
        ok := TruncateInternalProperties();
        Then(db0, j0, p2, db1, j1, TruncateInternalPropertiesPlan(), ok);
      } else {
        Stopped(db0, j0, p2, TruncateInternalPropertiesPlan());
      }
      if ok {
        ghost var db1, j1 := connection.tables, connection.journal;
        ok := TruncateUsers();
        Then(db0, j0, p3, db1, j1, TruncateUsersPlan(), ok);
      } else {
        Stopped(db0, j0, p3, TruncateUsersPlan());
      }
      if ok {
        ghost var db1, j1 := connection.tables, connection.journal;
        ok := TruncateOrganizations();
        Then(db0, j0, p4, db1, j1, TruncateOrganizationsPlan(), ok);
      } else {
        Stopped(db0, j0, p4, TruncateOrganizationsPlan());
      }
      status := if ok then Done else Failed("Fail to reset data");
    }
  }

  // ---------------------------------------------------------------------------
  // Plan structure

  lemma {:induction false} ClearDbPlanAppend(a: seq<string>, b: seq<string>)
    ensures ClearDbPlan(a + b) == ClearDbPlan(a) + ClearDbPlan(b)
    decreases |b|
  {
    if b == [] {
      assert a + b == a;
    } else {
      var b', last := b[..|b| - 1], b[|b| - 1];
      assert (a + b)[..|a + b| - 1] == a + b';
      assert (a + b)[|a + b| - 1] == last;
      var tail := CleanerPlan(CleanerFor(last), last);
      assert ClearDbPlan(a + b) == ClearDbPlan(a + b') + tail;
      assert ClearDbPlan(b) == ClearDbPlan(b') + tail;
      ClearDbPlanAppend(a, b');
      assert (ClearDbPlan(a) + ClearDbPlan(b')) + tail == ClearDbPlan(a) + (ClearDbPlan(b') + tail);
    }
  }

  lemma {:induction false} TruncatePlanAppend(a: seq<string>, b: seq<string>)
    ensures TruncatePlan(a + b) == TruncatePlan(a) + TruncatePlan(b)
    decreases |b|
  {
    if b == [] {
      assert a + b == a;
    } else {
      var b', last := b[..|b| - 1], b[|b| - 1];
      assert (a + b)[..|a + b| - 1] == a + b';
      assert (a + b)[|a + b| - 1] == last;
      var tail := [Truncate(ToLower(last))];
      assert TruncatePlan(a + b) == TruncatePlan(a + b') + tail;
      assert TruncatePlan(b) == TruncatePlan(b') + tail;
      TruncatePlanAppend(a, b');
      assert (TruncatePlan(a) + TruncatePlan(b')) + tail == TruncatePlan(a) + (TruncatePlan(b') + tail);
    }
  }

  lemma {:induction false} DeleteResourceRowsPlanAppend(a: seq<string>, b: seq<string>)
    ensures DeleteResourceRowsPlan(a + b) == DeleteResourceRowsPlan(a) + DeleteResourceRowsPlan(b)
    decreases |b|
  {
    if b == [] {
      assert a + b == a;
    } else {
      var b', last := b[..|b| - 1], b[|b| - 1];
      assert (a + b)[..|a + b| - 1] == a + b';
      assert (a + b)[|a + b| - 1] == last;
      var tail := [DeleteWhereNotNull(last, "resource_id")];
      assert DeleteResourceRowsPlan(a + b) == DeleteResourceRowsPlan(a + b') + tail;
      assert DeleteResourceRowsPlan(b) == DeleteResourceRowsPlan(b') + tail;
      DeleteResourceRowsPlanAppend(a, b');
      assert (DeleteResourceRowsPlan(a) + DeleteResourceRowsPlan(b')) + tail == DeleteResourceRowsPlan(a) + (DeleteResourceRowsPlan(b') + tail);
    }
  }

  lemma {:induction false} TruncatePlanAt(names: seq<string>, i: nat)
    requires i < |names|
    ensures |TruncatePlan(names)| == |names| && TruncatePlan(names)[i] == Truncate(ToLower(names[i]))
    decreases |names|
  {
    if i < |names| - 1 {
      TruncatePlanAt(names[..|names| - 1], i);
    } else if |names| > 1 {
      TruncatePlanAt(names[..|names| - 1], 0);
    }
  }

  lemma {:induction false} DeleteResourceRowsPlanAt(names: seq<string>, i: nat)
    requires i < |names|
    ensures |DeleteResourceRowsPlan(names)| == |names|
    ensures DeleteResourceRowsPlan(names)[i] == DeleteWhereNotNull(names[i], "resource_id")
    decreases |names|
  {
    if i < |names| - 1 {
      DeleteResourceRowsPlanAt(names[..|names| - 1], i);
    } else if |names| > 1 {
      DeleteResourceRowsPlanAt(names[..|names| - 1], 0);
    }
  }

  predicate Distinct(names: seq<string>) {
    forall i, j :: 0 <= i < j < |names| ==> names[i] != names[j]
  }

  /** With distinct lower-case names, each name's table gets exactly its own TRUNCATE. */
  lemma {:induction false} OnTableTruncatePlan(names: seq<string>, x: string)
    requires forall n <- names :: IsLowerCase(n)
    requires Distinct(names)
    ensures OnTable(TruncatePlan(names), x) == if x in names then [Truncate(x)] else []
    decreases |names|
  {
    if names != [] {
      var init, last := names[..|names| - 1], names[|names| - 1];
      assert names == init + [last];
      assert forall n <- init :: n in names;
      assert Distinct(init) by {
        forall i, j | 0 <= i < j < |init| ensures init[i] != init[j] {
          assert init[i] == names[i] && init[j] == names[j];
        }
      }
      OnTableTruncatePlan(init, x);
      assert last in names;
      ToLowerOfLowerCase(last);
      assert TruncatePlan(names) == TruncatePlan(init) + [Truncate(last)];
      OnTableAppend(TruncatePlan(init), [Truncate(last)], x);
      if x == last {
        assert x !in init;
      }
    }
  }

  /** With distinct names, each name's table gets exactly its own DELETE. */
  lemma {:induction false} OnTableDeleteResourceRowsPlan(names: seq<string>, x: string)
    requires Distinct(names)
    ensures OnTable(DeleteResourceRowsPlan(names), x) == if x in names then [DeleteWhereNotNull(x, "resource_id")] else []
    decreases |names|
  {
    if names != [] {
      var init, last := names[..|names| - 1], names[|names| - 1];
      assert names == init + [last];
      OnTableDeleteResourceRowsPlan(init, x);
      OnTableAppend(DeleteResourceRowsPlan(init), [DeleteWhereNotNull(last, "resource_id")], x);
      if x == last {
        assert x !in init;
      }
    }
  }

  lemma AnalysisTablesLowerCase()
    ensures forall n <- ANALYSIS_TABLES :: IsLowerCase(n)
  {
  }

  lemma ResourceTablesLowerCase()
    ensures forall n <- RESOURCE_RELATED_TABLES :: IsLowerCase(n)
  {
  }

  lemma AnalysisTablesDistinct()
    ensures Distinct(ANALYSIS_TABLES)
  {
  }

  lemma ResourceTablesDistinct()
    ensures Distinct(RESOURCE_RELATED_TABLES)
  {
  }

  lemma ConstantTablesWellFormed()
    ensures forall n <- ANALYSIS_TABLES :: IsLowerCase(n)
    ensures forall n <- RESOURCE_RELATED_TABLES :: IsLowerCase(n)
    ensures Distinct(ANALYSIS_TABLES) && Distinct(RESOURCE_RELATED_TABLES)
  {
    AnalysisTablesLowerCase();
    ResourceTablesLowerCase();
    AnalysisTablesDistinct();
    ResourceTablesDistinct();
  }

  /** Every statement of clearDb's plan comes from the cleaner of one listed table. */
  lemma {:induction false} ClearDbPlanStatements(tables: seq<string>, s: Statement) returns (k: nat)
    requires s in ClearDbPlan(tables)
    ensures k < |tables| && s in CleanerPlan(CleanerFor(tables[k]), tables[k])
    decreases |tables|
  {
    var init, last := tables[..|tables| - 1], tables[|tables| - 1];
    if s in ClearDbPlan(init) {
      k := ClearDbPlanStatements(init, s);
    } else {
      k := |tables| - 1;
    }
  }

  /** The cleaner of every listed table issues all its statements in clearDb's plan. */
  lemma {:induction false} ClearDbPlanContains(tables: seq<string>, k: nat)
    requires k < |tables|
    ensures forall s <- CleanerPlan(CleanerFor(tables[k]), tables[k]) :: s in ClearDbPlan(tables)
    decreases |tables|
  {
    if k < |tables| - 1 {
      var init := tables[..|tables| - 1];
      ClearDbPlanContains(init, k);
    }
  }

  /** The only update clearDb issues is clearing the root flag of users. */
  lemma ClearDbPlanUpdates(tables: seq<string>)
    ensures forall s <- ClearDbPlan(tables) :: s.UpdateAll? ==> s == UpdateAll("users", "is_root", Flag(false))
  {
    forall s <- ClearDbPlan(tables) ensures s.UpdateAll? ==> s == UpdateAll("users", "is_root", Flag(false)) {
      var k := ClearDbPlanStatements(tables, s);
    }
  }

  // ---------------------------------------------------------------------------
  // What each protected-row cleaner leaves

  /** truncateOrganizations keeps exactly the organizations keyed by the default key (or by NULL), each as often as before. */
  lemma TruncateOrganizationsSurvivors(rows: seq<Row>)
    ensures var after := ApplyAll(TruncateOrganizationsPlan(), rows);
      forall row :: multiset(after)[row] ==
        if Column(row, "kee") in {None, Some(Text(DEFAULT_ORGANIZATION_KEY))} then multiset(rows)[row] else 0
  {
    var s := DeleteWhereNotEquals("organizations", "kee", Text(DEFAULT_ORGANIZATION_KEY));
    assert ApplyAll(TruncateOrganizationsPlan(), rows) == Apply(s, rows);
    ApplyContents(s, rows);
  }

  /** When no organization key is NULL, the rows kept are exactly those keyed by the default key. */
  lemma TruncateOrganizationsKeepsDefault(rows: seq<Row>)
    requires forall row <- rows :: Column(row, "kee").Some?
    ensures forall row :: row in ApplyAll(TruncateOrganizationsPlan(), rows) <==>
      row in rows && Column(row, "kee") == Some(Text(DEFAULT_ORGANIZATION_KEY))
  {
    var s := DeleteWhereNotEquals("organizations", "kee", Text(DEFAULT_ORGANIZATION_KEY));
    assert ApplyAll(TruncateOrganizationsPlan(), rows) == Apply(s, rows);
    ApplyContents(s, rows);
  }

  /**
   * Exactly one organization remains when no key is NULL and exactly one row, occurring
   * once, held the default key beforehand: that row.
   */
  lemma TruncateOrganizationsLeavesOne(rows: seq<Row>, d: Row)
    requires forall row <- rows :: Column(row, "kee").Some?
    requires multiset(rows)[d] == 1 && Column(d, "kee") == Some(Text(DEFAULT_ORGANIZATION_KEY))
    requires forall row <- rows :: Column(row, "kee") == Some(Text(DEFAULT_ORGANIZATION_KEY)) ==> row == d
    ensures ApplyAll(TruncateOrganizationsPlan(), rows) == [d]
  {
    var after := ApplyAll(TruncateOrganizationsPlan(), rows);
    TruncateOrganizationsSurvivors(rows);
    forall row ensures multiset(after)[row] == multiset([d])[row] {
      if row != d && row in rows {
        assert Column(row, "kee") != Some(Text(DEFAULT_ORGANIZATION_KEY));
      }
    }
    assert multiset(after) == multiset([d]);
    assert |after| == |multiset(after)| == 1;
    assert after[0] in multiset(after);
  }

  /** truncateInternalProperties keeps exactly the default-organization property (or NULL keys), each as often as before. */
  lemma TruncateInternalPropertiesSurvivors(rows: seq<Row>)
    ensures var after := ApplyAll(TruncateInternalPropertiesPlan(), rows);
      forall row :: multiset(after)[row] ==
        if Column(row, "kee") in {None, Some(Text(DEFAULT_ORGANIZATION_PROPERTY))} then multiset(rows)[row] else 0
  {
    var s := DeleteWhereNotEquals("internal_properties", "kee", Text(DEFAULT_ORGANIZATION_PROPERTY));
    assert ApplyAll(TruncateInternalPropertiesPlan(), rows) == Apply(s, rows);
    ApplyContents(s, rows);
  }

  /**
   * truncateUsers keeps the admin user (and users with a NULL login), in order, each
   * with is_root set to false and every other column as it was.
   */
  lemma TruncateUsersEffect(rows: seq<Row>)
    ensures var kept := Apply(DeleteWhereNotEquals("users", "login", Text(ADMIN_LOGIN)), rows);
      var after := ApplyAll(TruncateUsersPlan(), rows);
      && (forall row :: multiset(kept)[row] ==
            if Column(row, "login") in {None, Some(Text(ADMIN_LOGIN))} then multiset(rows)[row] else 0)
      && |after| == |kept|
      && (forall i :: 0 <= i < |after| ==> after[i] == kept[i]["is_root" := Some(Flag(false))])
  {
    var first := DeleteWhereNotEquals("users", "login", Text(ADMIN_LOGIN));
    var second := UpdateAll("users", "is_root", Flag(false));
    var kept := Apply(first, rows);
    assert ApplyAll(TruncateUsersPlan(), rows) == ApplyAll([second], kept);
    ApplyContents(first, rows);
    ApplyContents(second, kept);
  }

  /** After truncateUsers, every user left is admin (or has a NULL login) and none is root. */
  lemma TruncateUsersLeavesAdminOnly(rows: seq<Row>)
    ensures var after := ApplyAll(TruncateUsersPlan(), rows);
      && (forall row <- after :: Column(row, "is_root") == Some(Flag(false)))
      && (forall row <- after :: Column(row, "login") in {None, Some(Text(ADMIN_LOGIN))})
  {
    var kept := Apply(DeleteWhereNotEquals("users", "login", Text(ADMIN_LOGIN)), rows);
    var after := ApplyAll(TruncateUsersPlan(), rows);
    TruncateUsersEffect(rows);
    ApplyContents(DeleteWhereNotEquals("users", "login", Text(ADMIN_LOGIN)), rows);
    forall row <- after
      ensures Column(row, "is_root") == Some(Flag(false)) && Column(row, "login") in {None, Some(Text(ADMIN_LOGIN))}
    {
      var i :| 0 <= i < |after| && after[i] == row;
      assert kept[i] in kept;
      assert row == kept[i]["is_root" := Some(Flag(false))];
      assert Column(row, "login") == Column(kept[i], "login");
    }
  }

  // ---------------------------------------------------------------------------
  // clearDb

  /** After a completed clearDb, the (lower-cased) table of every listed name without a cleaner of its own is empty. */
  lemma ClearDbEmptiesUnmappedTables(db: Db, tables: seq<string>, t: string)
    requires t in tables && t !in TABLE_CLEANERS
    requires Completes(db, ClearDbPlan(tables))
    ensures ToLower(t) in db && Run(db, ClearDbPlan(tables)).tables[ToLower(t)] == []
  {
    var plan := ClearDbPlan(tables);
    var k :| 0 <= k < |tables| && tables[k] == t;
    ClearDbPlanContains(tables, k);
    var s := Truncate(ToLower(t));
    assert s in plan;
    CompletesIff(db, plan);
    RunCompleted(db, plan, ToLower(t));
    OnTableMembers(plan, ToLower(t));
    ApplyAllTruncated(OnTable(plan, ToLower(t)), db[ToLower(t)], ToLower(t));
  }

  /**
   * clearDb never alters schema_migrations, whether or not it completes, provided no
   * other listed name lower-cases to it.
   */
  lemma ClearDbKeepsSchemaMigrations(db: Db, tables: seq<string>)
    requires "schema_migrations" in db
    requires forall t <- tables :: ToLower(t) == "schema_migrations" ==> t == "schema_migrations"
    ensures Run(db, ClearDbPlan(tables)).tables["schema_migrations"] == db["schema_migrations"]
  {
    var plan := ClearDbPlan(tables);
    forall s <- plan ensures s.table != "schema_migrations" {
      var k := ClearDbPlanStatements(tables, s);
      assert tables[k] in tables;
    }
    RunUntouched(db, plan, "schema_migrations");
  }

  /** After a completed clearDb over a list naming organizations, only the default organization (or NULL keys) remains. */
  lemma ClearDbKeepsDefaultOrganization(db: Db, tables: seq<string>)
    requires Completes(db, ClearDbPlan(tables)) && "organizations" in tables
    ensures var after := Run(db, ClearDbPlan(tables)).tables;
      && "organizations" in after
      && ColumnWithin(after["organizations"], "kee", {None, Some(Text(DEFAULT_ORGANIZATION_KEY))})
  {
    ProtectedByCleaner(db, tables, "organizations", "kee", {None, Some(Text(DEFAULT_ORGANIZATION_KEY))},
      DeleteWhereNotEquals("organizations", "kee", Text(DEFAULT_ORGANIZATION_KEY)));
  }

  /** After a completed clearDb over a list naming internal_properties, only the default-organization property (or NULL keys) remains. */
  lemma ClearDbKeepsDefaultOrganizationProperty(db: Db, tables: seq<string>)
    requires Completes(db, ClearDbPlan(tables)) && "internal_properties" in tables
    ensures var after := Run(db, ClearDbPlan(tables)).tables;
      && "internal_properties" in after
      && ColumnWithin(after["internal_properties"], "kee", {None, Some(Text(DEFAULT_ORGANIZATION_PROPERTY))})
  {
    ProtectedByCleaner(db, tables, "internal_properties", "kee", {None, Some(Text(DEFAULT_ORGANIZATION_PROPERTY))},
      DeleteWhereNotEquals("internal_properties", "kee", Text(DEFAULT_ORGANIZATION_PROPERTY)));
  }

  /** After a completed clearDb over a list naming users, only admin (or NULL logins) remains, and no user is root. */
  lemma ClearDbLeavesAdminOnly(db: Db, tables: seq<string>)
    requires Completes(db, ClearDbPlan(tables)) && "users" in tables
    ensures var after := Run(db, ClearDbPlan(tables)).tables;
      && "users" in after
      && ColumnWithin(after["users"], "login", {None, Some(Text(ADMIN_LOGIN))})
      && ColumnWithin(after["users"], "is_root", {Some(Flag(false))})
  {
    ProtectedByCleaner(db, tables, "users", "login", {None, Some(Text(ADMIN_LOGIN))},
      DeleteWhereNotEquals("users", "login", Text(ADMIN_LOGIN)));
    ProtectedByCleaner(db, tables, "users", "is_root", {Some(Flag(false))},
      UpdateAll("users", "is_root", Flag(false)));
  }

  lemma ProtectedByCleaner(db: Db, tables: seq<string>, t: string, c: string, allowed: set<Option<Value>>, s0: Statement)
    requires Completes(db, ClearDbPlan(tables))
    requires t in tables && s0 in CleanerPlan(CleanerFor(t), t) && s0.table == t
    requires Establishes(s0, c, allowed)
    requires c != "is_root" || Some(Flag(false)) in allowed
    ensures t in Run(db, ClearDbPlan(tables)).tables
    ensures ColumnWithin(Run(db, ClearDbPlan(tables)).tables[t], c, allowed)
  {
    var plan := ClearDbPlan(tables);
    var k :| 0 <= k < |tables| && tables[k] == t;
    ClearDbPlanContains(tables, k);
    CompletesIff(db, plan);
    ClearDbPlanUpdates(tables);
    RunCompleted(db, plan, t);
    var on := OnTable(plan, t);
    OnTableMembers(plan, t);
    assert s0 in on;
    ApplyAllEstablishes(on, db[t], c, allowed, s0);
  }

  /** The statements of a cleaner of lower-case table t all act on t. */
  lemma CleanerPlanTargets(t: string)
    requires IsLowerCase(t)
    ensures forall s <- CleanerPlan(CleanerFor(t), t) :: s.table == t
  {
    ToLowerOfLowerCase(t);
  }

  lemma {:induction false} OnTableAll(p: seq<Statement>, t: string)
    requires forall s <- p :: s.table == t
    ensures OnTable(p, t) == p
    decreases |p|
  {
    if p != [] {
      assert forall s <- p[1..] :: s in p;
      OnTableAll(p[1..], t);
      assert p == [p[0]] + p[1..];
    }
  }

  lemma {:induction false} OnTableNone(p: seq<Statement>, t: string)
    requires forall s <- p :: s.table != t
    ensures OnTable(p, t) == []
    decreases |p|
  {
    if p != [] {
      assert forall s <- p[1..] :: s in p;
      OnTableNone(p[1..], t);
    }
  }

  /** With distinct lower-case names, table x sees exactly its own cleaner's statements, or none when unlisted. */
  lemma {:induction false} OnTableClearDbPlan(tables: seq<string>, x: string)
    requires forall t <- tables :: IsLowerCase(t)
    requires Distinct(tables)
    ensures OnTable(ClearDbPlan(tables), x) == if x in tables then CleanerPlan(CleanerFor(x), x) else []
    decreases |tables|
  {
    if tables != [] {
      var init, last := tables[..|tables| - 1], tables[|tables| - 1];
      assert tables == init + [last];
      assert forall t <- init :: t in tables;
      OnTableClearDbPlan(init, x);
      var cp := CleanerPlan(CleanerFor(last), last);
      OnTableAppend(ClearDbPlan(init), cp, x);
      assert IsLowerCase(last);
      CleanerPlanTargets(last);
      if x == last {
        assert x !in init;
        OnTableAll(cp, x);
      } else {
        OnTableNone(cp, x);
      }
    }
  }

  /**
   * For a list of distinct lower-case names, a completed clearDb cleans each listed
   * table with its own cleaner and leaves every other table as it was.
   */
  lemma ClearDbCleansEachTable(db: Db, tables: seq<string>)
    requires forall t <- tables :: IsLowerCase(t)
    requires Distinct(tables)
    requires Completes(db, ClearDbPlan(tables))
    ensures forall x <- db ::
      Run(db, ClearDbPlan(tables)).tables[x] == if x in tables then ApplyAll(CleanerPlan(CleanerFor(x), x), db[x]) else db[x]
  {
    forall x <- db ensures Run(db, ClearDbPlan(tables)).tables[x] ==
      if x in tables then ApplyAll(CleanerPlan(CleanerFor(x), x), db[x]) else db[x]
    {
      RunCompleted(db, ClearDbPlan(tables), x);
      OnTableClearDbPlan(tables, x);
    }
  }

  // ---------------------------------------------------------------------------
  // resetData

  /** The tables resetData names. */
  predicate ResetDataTable(t: string) {
    t in ANALYSIS_TABLES || t in RESOURCE_RELATED_TABLES || t in {"rules", "internal_properties", "users", "organizations"}
  }

  /** What resetData leaves in table t, which held rows before: the reference for ResetDataPerTable. */
  function ResetRows(t: string, rows: seq<Row>): seq<Row> {
    if t in ANALYSIS_TABLES then []
    else if t in RESOURCE_RELATED_TABLES then Apply(DeleteWhereNotNull(t, "resource_id"), rows)
    else if t == "rules" then ApplyAll(DeleteManualRulesPlan(), rows)
    else if t == "internal_properties" then ApplyAll(TruncateInternalPropertiesPlan(), rows)
    else if t == "users" then ApplyAll(TruncateUsersPlan(), rows)
    else if t == "organizations" then ApplyAll(TruncateOrganizationsPlan(), rows)
    else rows
  }

  /** The protected tables, rules, the analysis tables and the resource-related tables are five disjoint classes. */
  lemma TableClassesDisjoint(t: string)
    ensures t in ANALYSIS_TABLES ==> t !in RESOURCE_RELATED_TABLES
    ensures t in ANALYSIS_TABLES || t in RESOURCE_RELATED_TABLES ==>
      t != "rules" && t != "internal_properties" && t != "users" && t != "organizations"
  {
  }

  /** A plan whose statements all act on table t is seen whole by t and not at all by any other table. */
  lemma OnTableSingleTable(p: seq<Statement>, t: string, x: string)
    requires forall s <- p :: s.table == t
    ensures OnTable(p, x) == if x == t then p else []
  {
    if x == t { OnTableAll(p, t); } else { OnTableNone(p, x); }
  }

  /** The truncations and resource-row deletions of two disjoint name lists, as table x sees them. */
  lemma OnTableAnalysisPlan(an: seq<string>, rs: seq<string>, x: string)
    requires forall n <- an :: IsLowerCase(n)
    requires Distinct(an) && Distinct(rs)
    requires x in an ==> x !in rs
    ensures OnTable(TruncatePlan(an) + DeleteResourceRowsPlan(rs), x) ==
      if x in an then [Truncate(x)] else if x in rs then [DeleteWhereNotNull(x, "resource_id")] else []
  {
    OnTableAppend(TruncatePlan(an), DeleteResourceRowsPlan(rs), x);
    OnTableTruncatePlan(an, x);
    OnTableDeleteResourceRowsPlan(rs, x);
  }

  /** Four plans on four distinct tables, as table x sees them. */
  lemma OnTableFourTables(c: seq<Statement>, d: seq<Statement>, e: seq<Statement>, f: seq<Statement>,
      tc: string, td: string, te: string, tf: string, x: string)
    requires forall s <- c :: s.table == tc
    requires forall s <- d :: s.table == td
    requires forall s <- e :: s.table == te
    requires forall s <- f :: s.table == tf
    requires tc != td && tc != te && tc != tf && td != te && td != tf && te != tf
    ensures OnTable(c + d + e + f, x) ==
      if x == tc then c else if x == td then d else if x == te then e else if x == tf then f else []
  {
    OnTableAppend(c, d, x);
    OnTableAppend(c + d, e, x);
    OnTableAppend(c + d + e, f, x);
    OnTableSingleTable(c, tc, x);
    OnTableSingleTable(d, td, x);
    OnTableSingleTable(e, te, x);
    OnTableSingleTable(f, tf, x);
  }

  /** The shape of resetData's plan, over symbolic parts: each table sees only its own statements. */
  lemma OnTableResetShape(an: seq<string>, rs: seq<string>, c: seq<Statement>, d: seq<Statement>, e: seq<Statement>,
      f: seq<Statement>, tc: string, td: string, te: string, tf: string, x: string)
    requires forall n <- an :: IsLowerCase(n)
    requires Distinct(an) && Distinct(rs)
    requires forall s <- c :: s.table == tc
    requires forall s <- d :: s.table == td
    requires forall s <- e :: s.table == te
    requires forall s <- f :: s.table == tf
    requires x in an ==> x !in rs && x != tc && x != td && x != te && x != tf
    requires x in rs ==> x != tc && x != td && x != te && x != tf
    requires tc != td && tc != te && tc != tf && td != te && td != tf && te != tf
    ensures OnTable(TruncatePlan(an) + DeleteResourceRowsPlan(rs) + c + d + e + f, x) ==
      if x in an then [Truncate(x)]
      else if x in rs then [DeleteWhereNotNull(x, "resource_id")]
      else if x == tc then c
      else if x == td then d
      else if x == te then e
      else if x == tf then f
      else []
  {
    var head := TruncatePlan(an) + DeleteResourceRowsPlan(rs);
    assert head + c + d + e + f == head + (c + d + e + f);
    OnTableAppend(head, c + d + e + f, x);
    OnTableAnalysisPlan(an, rs, x);
    OnTableFourTables(c, d, e, f, tc, td, te, tf, x);
    var h, t := OnTable(head, x), OnTable(c + d + e + f, x);
    if x in an || x in rs {
      assert t == [];
      assert h + t == h;
    } else {
      assert h == [];
      assert h + t == t;
    }
  }

  /** The statements resetData is meant to issue on table x, one of six shapes. */
  function ResetStatements(x: string): seq<Statement> {
    if x in ANALYSIS_TABLES then [Truncate(x)]
    else if x in RESOURCE_RELATED_TABLES then [DeleteWhereNotNull(x, "resource_id")]
    else if x == "rules" then DeleteManualRulesPlan()
    else if x == "internal_properties" then TruncateInternalPropertiesPlan()
    else if x == "users" then TruncateUsersPlan()
    else if x == "organizations" then TruncateOrganizationsPlan()
    else []
  }

  /** Table x sees exactly ResetStatements(x) of resetData's plan. */
  lemma ResetDataStatementsOn(x: string)
    ensures OnTable(ResetDataPlan(), x) == ResetStatements(x)
  {
    ConstantTablesWellFormed();
    TableClassesDisjoint(x);
    OnTableResetShape(ANALYSIS_TABLES, RESOURCE_RELATED_TABLES, DeleteManualRulesPlan(), TruncateInternalPropertiesPlan(),
      TruncateUsersPlan(), TruncateOrganizationsPlan(), "rules", "internal_properties", "users", "organizations", x);
  }

  /** ResetStatements(t), applied to the rows of t, leaves ResetRows. */
  lemma ApplyResetStatements(t: string, rows: seq<Row>)
    ensures ApplyAll(ResetStatements(t), rows) == ResetRows(t, rows)
  {
    if t in ANALYSIS_TABLES {
      assert ApplyAll([Truncate(t)], rows) == [];
    } else if t in RESOURCE_RELATED_TABLES {
      var s := DeleteWhereNotNull(t, "resource_id");
      assert ApplyAll([s], rows) == Apply(s, rows);
    }
  }

  /** Any completed plan that shows table t exactly ResetStatements(t) leaves ResetRows in t. */
  lemma RunResetShaped(db: Db, plan: seq<Statement>, t: string)
    requires t in db
    requires Completes(db, plan)
    requires OnTable(plan, t) == ResetStatements(t)
    ensures Run(db, plan).tables[t] == ResetRows(t, db[t])
  {
    RunCompleted(db, plan, t);
    ApplyResetStatements(t, db[t]);
  }

  /** A completed resetData leaves in each table exactly what ResetRows says. */
  lemma ResetDataPerTable(db: Db, t: string)
    requires t in db
    requires Completes(db, ResetDataPlan())
    ensures Run(db, ResetDataPlan()).tables[t] == ResetRows(t, db[t])
  {
    ResetDataStatementsOn(t);
    RunResetShaped(db, ResetDataPlan(), t);
  }

  /** The tables resetData names are exactly those it issues statements on. */
  lemma ResetStatementsNonEmpty(t: string)
    ensures ResetStatements(t) != [] <==> ResetDataTable(t)
  {
  }

  /** Rules and the three protected tables are among the tables resetData names. */
  lemma NamedTables()
    ensures ResetDataTable("rules") && ResetDataTable("organizations")
    ensures ResetDataTable("users") && ResetDataTable("internal_properties")
  {
  }

  /** A plan that shows each table its ResetStatements completes exactly when every table resetData names exists. */
  lemma CompletesWhenNamedTablesExist(db: Db, plan: seq<Statement>)
    requires forall x :: OnTable(plan, x) == ResetStatements(x)
    ensures Completes(db, plan) <==> forall t :: ResetDataTable(t) ==> t in db
  {
    CompletesIff(db, plan);
    forall t | ResetDataTable(t) && Completes(db, plan) ensures t in db {
      ResetStatementsNonEmpty(t);
      var on := OnTable(plan, t);
      OnTableMembers(plan, t);
      assert on[0] in on;
    }
    forall s <- plan ensures ResetDataTable(s.table) {
      OnTableMembers(plan, s.table);
      assert s in OnTable(plan, s.table);
      ResetStatementsNonEmpty(s.table);
    }
  }

  /** resetData completes exactly when every table it names exists. */
  lemma ResetDataCompletes(db: Db)
    ensures Completes(db, ResetDataPlan()) <==> forall t :: ResetDataTable(t) ==> t in db
  {
    forall x ensures OnTable(ResetDataPlan(), x) == ResetStatements(x) {
      ResetDataStatementsOn(x);
    }
    CompletesWhenNamedTablesExist(db, ResetDataPlan());
  }

  /** A completed resetData found every table it names. */
  lemma ResetDataNeedsTable(db: Db, t: string)
    requires ResetDataTable(t) && Completes(db, ResetDataPlan())
    ensures t in db
  {
    ResetDataCompletes(db);
  }

  /** A table no statement of plan acts on keeps its rows. */
  lemma RunUnseen(db: Db, plan: seq<Statement>, t: string)
    requires t in db && OnTable(plan, t) == []
    ensures Run(db, plan).tables[t] == db[t]
  {
    OnTableMembers(plan, t);
    RunUntouched(db, plan, t);
  }

  /** A table resetData does not name is left as it was, whether or not resetData completes; schema_migrations is one. */
  lemma ResetDataLeavesOtherTables(db: Db, t: string)
    requires t in db && !ResetDataTable(t)
    ensures Run(db, ResetDataPlan()).tables[t] == db[t]
  {
    ResetDataStatementsOn(t);
    ResetStatementsNonEmpty(t);
    RunUnseen(db, ResetDataPlan(), t);
  }

  lemma ResetDataNeverTouchesSchemaMigrations(db: Db)
    requires "schema_migrations" in db
    ensures Run(db, ResetDataPlan()).tables["schema_migrations"] == db["schema_migrations"]
  {
    ResetDataLeavesOtherTables(db, "schema_migrations");
  }

  /** A completed resetData empties every analysis table. */
  lemma ResetDataEmptiesAnalysisTables(db: Db, t: string)
    requires t in ANALYSIS_TABLES && Completes(db, ResetDataPlan())
    ensures t in db && Run(db, ResetDataPlan()).tables[t] == []
  {
    ResetDataCompletes(db);
    ResetDataPerTable(db, t);
  }

  /** In a resource-related table, ResetRows drops the resource-bound rows and keeps the global ones. */
  lemma ResetRowsOfResourceTable(t: string, rows: seq<Row>)
    requires t in RESOURCE_RELATED_TABLES
    ensures forall row ::
      multiset(ResetRows(t, rows))[row] == if Column(row, "resource_id") == None then multiset(rows)[row] else 0
  {
    TableClassesDisjoint(t);
    ApplyContents(DeleteWhereNotNull(t, "resource_id"), rows);
  }

  /** A completed resetData removes the resource-bound rows of a resource-related table and keeps every global row, each as often as before. */
  lemma ResetDataKeepsGlobalRows(db: Db, t: string)
    requires t in RESOURCE_RELATED_TABLES && Completes(db, ResetDataPlan())
    ensures t in db
    ensures forall row ::
      multiset(Run(db, ResetDataPlan()).tables[t])[row] == if Column(row, "resource_id") == None then multiset(db[t])[row] else 0
  {
    ResetDataCompletes(db);
    ResetDataPerTable(db, t);
    ResetRowsOfResourceTable(t, db[t]);
  }

  /** In rules, ResetRows drops exactly the manual rules. */
  lemma ResetRowsOfRules(rows: seq<Row>, after: seq<Row>)
    requires after == ResetRows("rules", rows)
    ensures forall row ::
      multiset(after)[row]
        == if Column(row, "plugin_name") == Some(Text(MANUAL_RULES_PLUGIN)) then 0 else multiset(rows)[row]
  {
    TableClassesDisjoint("rules");
    var s := DeleteWhereEquals("rules", "plugin_name", Text(MANUAL_RULES_PLUGIN));
    assert ApplyAll(DeleteManualRulesPlan(), rows) == Apply(s, rows);
    ApplyContents(s, rows);
  }

  /** A completed resetData removes exactly the manual rules. */
  lemma ResetDataDeletesManualRules(db: Db)
    requires Completes(db, ResetDataPlan())
    ensures "rules" in db
    ensures forall row ::
      multiset(Run(db, ResetDataPlan()).tables["rules"])[row]
        == if Column(row, "plugin_name") == Some(Text(MANUAL_RULES_PLUGIN)) then 0 else multiset(db["rules"])[row]
  {
    ResetDataNeedsTable(db, "rules");
    ResetDataPerTable(db, "rules");
    ResetRowsOfRules(db["rules"], Run(db, ResetDataPlan()).tables["rules"]);
  }

  /** On a protected table, ResetRows is what that table's clearDb cleaner leaves. */
  lemma ResetRowsOfProtectedTable(t: string, rows: seq<Row>)
    requires t == "organizations" || t == "users" || t == "internal_properties"
    ensures ResetRows(t, rows) == ApplyAll(CleanerPlan(CleanerFor(t), t), rows)
  {
    TableClassesDisjoint(t);
  }

  /** A completed resetData cleans each protected table exactly as clearDb's cleaner for it does. */
  lemma ResetDataProtectedTable(db: Db, t: string)
    requires t == "organizations" || t == "users" || t == "internal_properties"
    requires Completes(db, ResetDataPlan())
    ensures t in db
    ensures Run(db, ResetDataPlan()).tables[t] == ApplyAll(CleanerPlan(CleanerFor(t), t), db[t])
  {
    ResetDataCompletes(db);
    NamedTables();
    ResetDataPerTable(db, t);
    ResetRowsOfProtectedTable(t, db[t]);
  }

  /**
   * resetData's statements run in a fixed order: the twelve analysis truncations, the
   * three resource-related deletions, manual rules, internal properties, the two user
   * statements, organizations.
   */
  lemma ResetDataOrder()
    ensures var plan := ResetDataPlan();
      && |plan| == 20
      && (forall i :: 0 <= i < 12 ==> plan[i] == Truncate(ToLower(ANALYSIS_TABLES[i])))
      && (forall i :: 0 <= i < 3 ==> plan[12 + i] == DeleteWhereNotNull(RESOURCE_RELATED_TABLES[i], "resource_id"))
      && plan[15..] == DeleteManualRulesPlan() + TruncateInternalPropertiesPlan() + TruncateUsersPlan() + TruncateOrganizationsPlan()
  {
    var plan := ResetDataPlan();
    var p1 := TruncatePlan(ANALYSIS_TABLES);
    var p2 := DeleteResourceRowsPlan(RESOURCE_RELATED_TABLES);
    TruncatePlanAt(ANALYSIS_TABLES, 0);
    DeleteResourceRowsPlanAt(RESOURCE_RELATED_TABLES, 0);
    forall i | 0 <= i < 12 ensures plan[i] == Truncate(ToLower(ANALYSIS_TABLES[i])) {
      TruncatePlanAt(ANALYSIS_TABLES, i);
    }
    forall i | 0 <= i < 3 ensures plan[12 + i] == DeleteWhereNotNull(RESOURCE_RELATED_TABLES[i], "resource_id") {
      DeleteResourceRowsPlanAt(RESOURCE_RELATED_TABLES, i);
    }
  }

  /** Every statement clearDb or resetData executes is followed at once by a commit. */
  lemma EveryStatementIsCommitted(db: Db, tables: seq<string>)
    ensures CommitsEachStatement(Run(db, ClearDbPlan(tables)).journal)
    ensures CommitsEachStatement(Run(db, ResetDataPlan()).journal)
  {
    RunCommitsEachStatement(db, ClearDbPlan(tables));
    RunCommitsEachStatement(db, ResetDataPlan());
  }
}
