/**
 * An abstract relational store as the reset engine sees it: tables of rows, the five
 * kinds of SQL statement the engine issues, and a connection that executes statements
 * and records every execution and commit in a journal.
 */
module SqlStore {
  import opened Wrappers

  /** A non-null column value. */
  datatype Value = Text(text: string) | Flag(flag: bool) | Number(number: int)

  /** A row maps column names to values; a missing column and None both read as SQL NULL. */
  type Row = map<string, Option<Value>>

  /** The store: each table name maps to its rows, in storage order. */
  type Db = map<string, seq<Row>>

  function Column(row: Row, column: string): Option<Value> {
    if column in row then row[column] else None
  }

  /** The statements the reset engine executes, each against one table. */
  datatype Statement =
    | Truncate(table: string)                                            // TRUNCATE TABLE t
    | DeleteWhereNotNull(table: string, column: string)                  // DELETE FROM t WHERE c IS NOT NULL
    | DeleteWhereEquals(table: string, column: string, value: Value)     // DELETE FROM t WHERE c = v
    | DeleteWhereNotEquals(table: string, column: string, value: Value)  // DELETE FROM t WHERE c <> v
    | UpdateAll(table: string, column: string, value: Value)             // UPDATE t SET c = v

  /** What the journal of a connection records. */
  datatype Event = Executed(statement: Statement) | Committed

  /**
   * Whether s removes row. A comparison with NULL is unknown in SQL, and a row whose
   * WHERE condition is unknown is not deleted: `c = v` and `c <> v` both keep NULL rows.
   */
  predicate Deletes(s: Statement, row: Row) {
    match s
    case Truncate(_) => true
    case DeleteWhereNotNull(_, c) => Column(row, c).Some?
    case DeleteWhereEquals(_, c, v) => Column(row, c) == Some(v)
    case DeleteWhereNotEquals(_, c, v) => Column(row, c).Some? && Column(row, c) != Some(v)
    case UpdateAll(_, _, _) => false
  }

  /** The row s leaves in place of row when it does not delete it. */
  function Rewrite(s: Statement, row: Row): Row {
    if s.UpdateAll? then row[s.column := Some(s.value)] else row
  }

  /**
   * The rows of a table after s ran on it: a deletion keeps exactly the rows it does
   * not delete, each as often as before and in the same order; an update rewrites
   * every row in place.
   */
  function Apply(s: Statement, rows: seq<Row>): (r: seq<Row>)
    ensures s.Truncate? ==> r == []
    decreases |rows|
  {
    if rows == [] then []
    else (if Deletes(s, rows[0]) then [] else [Rewrite(s, rows[0])]) + Apply(s, rows[1..])
  }

  /** A deletion keeps each row it does not delete as often as before and drops the others. */
  lemma {:induction false} ApplyCounts(s: Statement, rows: seq<Row>)
    requires !s.UpdateAll?
    ensures forall x :: multiset(Apply(s, rows))[x] == if Deletes(s, x) then 0 else multiset(rows)[x]
    decreases |rows|
  {
    if rows != [] {
      ApplyCounts(s, rows[1..]);
      assert rows == [rows[0]] + rows[1..];
      assert multiset(rows) == multiset([rows[0]]) + multiset(rows[1..]);
      assert multiset(Apply(s, rows)) == multiset(if Deletes(s, rows[0]) then [] else [rows[0]]) + multiset(Apply(s, rows[1..]));
    }
  }

  /** An update rewrites every row in place. */
  lemma {:induction false} ApplyRewrites(s: Statement, rows: seq<Row>)
    requires s.UpdateAll?
    ensures |Apply(s, rows)| == |rows|
    ensures forall i :: 0 <= i < |rows| ==> Apply(s, rows)[i] == Rewrite(s, rows[i])
    decreases |rows|
  {
    if rows != [] {
      ApplyRewrites(s, rows[1..]);
      var r, tail := Apply(s, rows), Apply(s, rows[1..]);
      forall i | 1 <= i < |rows| ensures r[i] == Rewrite(s, rows[i]) {
        assert r[i] == tail[i - 1];
        assert rows[i] == rows[1..][i - 1];
      }
    }
  }

  /** What a statement leaves of a table's rows: counts and members for a deletion, rewritten rows for an update. */
  lemma ApplyContents(s: Statement, rows: seq<Row>)
    ensures !s.UpdateAll? ==> forall x :: multiset(Apply(s, rows))[x] == if Deletes(s, x) then 0 else multiset(rows)[x]
    ensures !s.UpdateAll? ==> forall x :: x in Apply(s, rows) <==> x in rows && !Deletes(s, x)
    ensures s.UpdateAll? ==> |Apply(s, rows)| == |rows|
    ensures s.UpdateAll? ==> forall i :: 0 <= i < |rows| ==> Apply(s, rows)[i] == Rewrite(s, rows[i])
  {
    if s.UpdateAll? {
      ApplyRewrites(s, rows);
    } else {
      ApplyCounts(s, rows);
      forall x ensures x in Apply(s, rows) <==> x in rows && !Deletes(s, x) {
        assert x in Apply(s, rows) <==> multiset(Apply(s, rows))[x] > 0;
        assert x in rows <==> multiset(rows)[x] > 0;
      }
    }
  }

  /** The journal of running ss in order with a commit after each statement. */
  function Journal(ss: seq<Statement>): (j: seq<Event>)
    ensures |j| == 2 * |ss|
    decreases |ss|
  {
    if ss == [] then [] else [Executed(ss[0]), Committed] + Journal(ss[1..])
  }

  /** Entry 2i of the journal executes statement i, and entry 2i + 1 commits it. */
  lemma {:induction false} JournalAt(ss: seq<Statement>)
    ensures forall i :: 0 <= i < |ss| ==> Journal(ss)[2 * i] == Executed(ss[i]) && Journal(ss)[2 * i + 1] == Committed
    decreases |ss|
  {
    if ss != [] {
      var j, rest := Journal(ss), Journal(ss[1..]);
      JournalAt(ss[1..]);
      forall i | 1 <= i < |ss| ensures j[2 * i] == Executed(ss[i]) && j[2 * i + 1] == Committed {
        assert j[2 * i] == rest[2 * (i - 1)] && j[2 * i + 1] == rest[2 * (i - 1) + 1];
        assert ss[i] == ss[1..][i - 1];
      }
    }
  }

  /** Every execution in j is immediately followed by a commit. */
  predicate CommitsEachStatement(j: seq<Event>) {
    forall i :: 0 <= i < |j| && j[i].Executed? ==> i + 1 < |j| && j[i + 1] == Committed
  }

  lemma {:induction false} JournalCommitsEachStatement(ss: seq<Statement>)
    ensures CommitsEachStatement(Journal(ss))
    decreases |ss|
  {
    if ss != [] {
      var j, rest := Journal(ss), Journal(ss[1..]);
      JournalCommitsEachStatement(ss[1..]);
      forall i | 0 <= i < |j| && j[i].Executed? ensures i + 1 < |j| && j[i + 1] == Committed {
        if i >= 2 {
          assert j[i] == rest[i - 2];
          assert j[i + 1] == rest[i - 1];
        }
      }
    }
  }

  /** The state reached by running a plan, the journal it wrote, and how many statements ran. */
  datatype Outcome = Outcome(tables: Db, journal: seq<Event>, executed: nat)

  /**
   * Runs plan statement by statement, committing after each, and stops at the first
   * statement whose table does not exist (the store rejects it and nothing further runs).
   */
  function Run(db: Db, plan: seq<Statement>): (o: Outcome)
    ensures o.executed <= |plan|
    ensures o.tables.Keys == db.Keys
    decreases |plan|
  {
    if plan == [] || plan[0].table !in db then Outcome(db, [], 0)
    else
      var s := plan[0];
      var o := Run(db[s.table := Apply(s, db[s.table])], plan[1..]);
      Outcome(o.tables, [Executed(s), Committed] + o.journal, o.executed + 1)
  }

  /** A run executes a prefix of its plan, journalling each statement with a commit after it. */
  lemma {:induction false} RunJournal(db: Db, plan: seq<Statement>)
    ensures Run(db, plan).journal == Journal(plan[..Run(db, plan).executed])
    decreases |plan|
  {
    if plan != [] && plan[0].table in db {
      var s := plan[0];
      var db' := db[s.table := Apply(s, db[s.table])];
      RunJournal(db', plan[1..]);
      var k := Run(db', plan[1..]).executed;
      assert plan[..k + 1] == [s] + plan[1..][..k];
      assert plan[..k + 1][1..] == plan[1..][..k];
    } else {
      assert plan[..0] == [];
    }
  }

  /** Whatever a run gets through, each statement it executed was committed straight away. */
  lemma RunCommitsEachStatement(db: Db, plan: seq<Statement>)
    ensures CommitsEachStatement(Run(db, plan).journal)
  {
    RunJournal(db, plan);
    JournalCommitsEachStatement(plan[..Run(db, plan).executed]);
  }

  /** A run stops exactly at the first statement whose table is missing. */
  lemma {:induction false} RunStops(db: Db, plan: seq<Statement>)
    ensures forall i :: 0 <= i < Run(db, plan).executed ==> plan[i].table in db
    ensures Run(db, plan).executed < |plan| ==> plan[Run(db, plan).executed].table !in db
    decreases |plan|
  {
    if plan != [] && plan[0].table in db {
      var s := plan[0];
      var db' := db[s.table := Apply(s, db[s.table])];
      RunStops(db', plan[1..]);
      var k := Run(db', plan[1..]).executed;
      forall i | 0 <= i < k + 1 ensures plan[i].table in db {
        if i > 0 {
          assert plan[i] == plan[1..][i - 1];
        }
      }
    }
  }

  /** A plan runs to its end exactly when every table it names exists. */
  predicate Completes(db: Db, plan: seq<Statement>) {
    Run(db, plan).executed == |plan|
  }

  lemma CompletesIff(db: Db, plan: seq<Statement>)
    ensures Completes(db, plan) <==> forall s <- plan :: s.table in db
  {
    RunStops(db, plan);
    if !Completes(db, plan) {
      var o := Run(db, plan);
      assert plan[o.executed] in plan;
    } else {
      forall s <- plan ensures s.table in db {
        var i :| 0 <= i < |plan| && plan[i] == s;
      }
    }
  }

  /** Appending journals associates. */
  lemma EventsAssociate(a: seq<Event>, b: seq<Event>, c: seq<Event>)
    ensures a + (b + c) == (a + b) + c
  {
  }

  /** Running p then q is running p + q: q starts where p ended, unless p stopped early. */
  lemma {:induction false} RunAppend(db: Db, p: seq<Statement>, q: seq<Statement>)
    ensures var o := Run(db, p);
      Run(db, p + q) ==
        if o.executed < |p| then o
        else
          var o2 := Run(o.tables, q);
          Outcome(o2.tables, o.journal + o2.journal, |p| + o2.executed)
    decreases |p|
  {
    if p == [] {
      assert p + q == q;
    } else if p[0].table in db {
      var s := p[0];
      assert (p + q)[0] == s && (p + q)[1..] == p[1..] + q;
      var db1 := db[s.table := Apply(s, db[s.table])];
      RunAppend(db1, p[1..], q);
      EventsAssociate([Executed(s), Committed], Run(db1, p[1..]).journal, Run(Run(db1, p[1..]).tables, q).journal);
    } else {
      assert (p + q)[0] == p[0];
    }
  }

  // ---------------------------------------------------------------------------
  // Per-table view of a run

  /** The statements of plan that act on table t, in plan order. */
  function OnTable(plan: seq<Statement>, t: string): seq<Statement>
    decreases |plan|
  {
    if plan == [] then []
    else (if plan[0].table == t then [plan[0]] else []) + OnTable(plan[1..], t)
  }

  /** OnTable keeps exactly the statements on table t. */
  lemma {:induction false} OnTableMembers(plan: seq<Statement>, t: string)
    ensures forall s :: s in OnTable(plan, t) <==> s in plan && s.table == t
    decreases |plan|
  {
    if plan != [] {
      assert plan == [plan[0]] + plan[1..];
      OnTableMembers(plan[1..], t);
    }
  }

  lemma {:induction false} OnTableAppend(p: seq<Statement>, q: seq<Statement>, t: string)
    ensures OnTable(p + q, t) == OnTable(p, t) + OnTable(q, t)
    decreases |p|
  {
    if p == [] {
      assert p + q == q;
    } else {
      var h := if p[0].table == t then [p[0]] else [];
      assert (p + q)[0] == p[0] && (p + q)[1..] == p[1..] + q;
      assert OnTable(p + q, t) == h + OnTable(p[1..] + q, t);
      OnTableAppend(p[1..], q, t);
      assert OnTable(p, t) == h + OnTable(p[1..], t);
      assert h + (OnTable(p[1..], t) + OnTable(q, t)) == (h + OnTable(p[1..], t)) + OnTable(q, t);
    }
  }

  /** The rows left after running ss, in order, on a table holding rows. */
  function ApplyAll(ss: seq<Statement>, rows: seq<Row>): seq<Row>
    decreases |ss|
  {
    if ss == [] then rows else ApplyAll(ss[1..], Apply(ss[0], rows))
  }

  lemma {:induction false} ApplyAllAppend(p: seq<Statement>, q: seq<Statement>, rows: seq<Row>)
    ensures ApplyAll(p + q, rows) == ApplyAll(q, ApplyAll(p, rows))
    decreases |p|
  {
    if p == [] {
      assert p + q == q;
    } else {
      assert (p + q)[0] == p[0] && (p + q)[1..] == p[1..] + q;
      ApplyAllAppend(p[1..], q, Apply(p[0], rows));
    }
  }

  /**
   * Each table evolves on its own: after a run, table t holds what the executed
   * statements on t, applied in order, make of its initial rows.
   */
  lemma {:induction false} RunPerTable(db: Db, plan: seq<Statement>, t: string)
    requires t in db
    ensures Run(db, plan).tables[t] == ApplyAll(OnTable(plan[..Run(db, plan).executed], t), db[t])
    decreases |plan|
  {
    if plan == [] || plan[0].table !in db {
      assert plan[..Run(db, plan).executed] == [];
    } else {
      var s := plan[0];
      var db' := db[s.table := Apply(s, db[s.table])];
      RunPerTable(db', plan[1..], t);
      var k := Run(db', plan[1..]).executed;
      var ys := OnTable(plan[1..][..k], t);
      assert plan[..k + 1] == [s] + plan[1..][..k];
      OnTableAppend([s], plan[1..][..k], t);
      if s.table == t {
        assert OnTable([s], t) == [s];
        var zs := [s] + ys;
        assert zs[0] == s && zs[1..] == ys;
        assert ApplyAll(zs, db[t]) == ApplyAll(ys, db'[t]);
      } else {
        assert OnTable([s], t) == [];
        assert [] + ys == ys;
      }
    }
  }

  /** A table no statement of plan names keeps its rows, however far the run gets. */
  lemma RunUntouched(db: Db, plan: seq<Statement>, t: string)
    requires t in db
    requires forall s <- plan :: s.table != t
    ensures Run(db, plan).tables[t] == db[t]
  {
    RunPerTable(db, plan, t);
    var o := Run(db, plan);
    assert forall s <- plan[..o.executed] :: s in plan;
    OnTableMembers(plan[..o.executed], t);
    assert OnTable(plan[..o.executed], t) == [];
  }

  /** On a completed run, table t holds its rows under the statements on t. */
  lemma RunCompleted(db: Db, plan: seq<Statement>, t: string)
    requires t in db
    requires Completes(db, plan)
    ensures Run(db, plan).tables[t] == ApplyAll(OnTable(plan, t), db[t])
  {
    RunPerTable(db, plan, t);
    assert plan[..|plan|] == plan;
  }

  // ---------------------------------------------------------------------------
  // What survives a sequence of statements on one table

  lemma {:induction false} ApplyAllOfEmpty(ss: seq<Statement>)
    ensures ApplyAll(ss, []) == []
    decreases |ss|
  {
    if ss != [] {
      ApplyAllOfEmpty(ss[1..]);
    }
  }

  /** A table that is truncated at some point of ss is empty at the end of ss. */
  lemma {:induction false} ApplyAllTruncated(ss: seq<Statement>, rows: seq<Row>, t: string)
    requires Truncate(t) in ss
    ensures ApplyAll(ss, rows) == []
    decreases |ss|
  {
    if ss[0] == Truncate(t) {
      ApplyAllOfEmpty(ss[1..]);
    } else {
      assert Truncate(t) in ss[1..];
      ApplyAllTruncated(ss[1..], Apply(ss[0], rows), t);
    }
  }

  /** Every row of rows has one of the allowed values in column c. */
  ghost predicate ColumnWithin(rows: seq<Row>, c: string, allowed: set<Option<Value>>) {
    forall row <- rows :: Column(row, c) in allowed
  }

  /** s cannot put a value outside allowed into column c. */
  predicate Keeps(s: Statement, c: string, allowed: set<Option<Value>>) {
    !(s.UpdateAll? && s.column == c && Some(s.value) !in allowed)
  }

  /** After s, every remaining row has one of the allowed values in column c. */
  predicate Establishes(s: Statement, c: string, allowed: set<Option<Value>>) {
    || s.Truncate?
    || (s.DeleteWhereNotEquals? && s.column == c && None in allowed && Some(s.value) in allowed)
    || (s.UpdateAll? && s.column == c && Some(s.value) in allowed)
  }

  lemma ApplyKeeps(s: Statement, rows: seq<Row>, c: string, allowed: set<Option<Value>>)
    requires ColumnWithin(rows, c, allowed) && Keeps(s, c, allowed)
    ensures ColumnWithin(Apply(s, rows), c, allowed)
  {
    var r := Apply(s, rows);
    ApplyContents(s, rows);
    if s.UpdateAll? {
      forall row <- r ensures Column(row, c) in allowed {
        var i :| 0 <= i < |r| && r[i] == row;
        assert Column(rows[i], c) in allowed;
      }
    }
  }

  lemma ApplyEstablishes(s: Statement, rows: seq<Row>, c: string, allowed: set<Option<Value>>)
    requires Establishes(s, c, allowed)
    ensures ColumnWithin(Apply(s, rows), c, allowed)
  {
    var r := Apply(s, rows);
    ApplyContents(s, rows);
    if s.UpdateAll? {
      forall row <- r ensures Column(row, c) in allowed {
        var i :| 0 <= i < |r| && r[i] == row;
      }
    }
  }

  lemma {:induction false} ApplyAllKeeps(ss: seq<Statement>, rows: seq<Row>, c: string, allowed: set<Option<Value>>)
    requires ColumnWithin(rows, c, allowed)
    requires forall s <- ss :: Keeps(s, c, allowed)
    ensures ColumnWithin(ApplyAll(ss, rows), c, allowed)
    decreases |ss|
  {
    if ss != [] {
      ApplyKeeps(ss[0], rows, c, allowed);
      assert forall s <- ss[1..] :: s in ss;
      ApplyAllKeeps(ss[1..], Apply(ss[0], rows), c, allowed);
    }
  }

  /**
   * If some statement of ss leaves only allowed values in column c and none puts
   * another value there, every row left at the end has an allowed value in c.
   */
  lemma {:induction false} ApplyAllEstablishes(ss: seq<Statement>, rows: seq<Row>, c: string, allowed: set<Option<Value>>, s0: Statement)
    requires s0 in ss && Establishes(s0, c, allowed)
    requires forall s <- ss :: Keeps(s, c, allowed)
    ensures ColumnWithin(ApplyAll(ss, rows), c, allowed)
    decreases |ss|
  {
    assert forall s <- ss[1..] :: s in ss;
    if ss[0] == s0 {
      ApplyEstablishes(s0, rows, c, allowed);
      ApplyAllKeeps(ss[1..], Apply(s0, rows), c, allowed);
    } else {
      assert s0 in ss[1..];
      ApplyAllEstablishes(ss[1..], Apply(ss[0], rows), c, allowed, s0);
    }
  }

  // ---------------------------------------------------------------------------
  // The connection

  /**
   * A connection to the store. Execute runs one statement against the current tables;
   * Commit makes the work so far durable. Both append to the journal, which records
   * the order in which statements ran and commits happened.
   */
  class Connection {
    var tables: Db
    var journal: seq<Event>

    constructor (tables: Db)
      ensures this.tables == tables && journal == []
    {
      this.tables := tables;
      journal := [];
    }

    /** Executes s; the store rejects a statement on a table that does not exist. */
    method Execute(s: Statement) returns (ok: bool)
      modifies this
      ensures ok <==> s.table in old(tables)
      ensures tables == if ok then old(tables)[s.table := Apply(s, old(tables)[s.table])] else old(tables)
      ensures journal == if ok then old(journal) + [Executed(s)] else old(journal)
    {
      ok := s.table in tables;
      if ok {
        tables := tables[s.table := Apply(s, tables[s.table])];
        journal := journal + [Executed(s)];
      }
    }

    method Commit()
      modifies this
      ensures tables == old(tables) && journal == old(journal) + [Committed]
    {
      journal := journal + [Committed];
    }
  }
}
