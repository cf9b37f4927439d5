/**
 internal/service/postgres.go, run call by call: each request picks its
 connection, prints and executes its statement, and closes what it opened on every path.
 */
module PostgresService {
  import opened Text
  import opened Wrappers
  import opened Values
  import opened Errors
  import opened ConnectionString
  import opened Endpoints
  import opened SqlBuilder
  import opened SqlSyntax
  import opened SqlRoundTrip
  import opened SqlSemantics
  import opened RowAssembly
  import opened QueryText
  import opened Convert
  import opened Manager
  import Lifecycle
  import opened Sessions
  import Requests

  /** One database replaced by what a statement made of it. */
  ghost predicate Became(before: map<Endpoint, Database>, after: map<Endpoint, Database>, name: Option<Endpoint>,
                         out: Option<(Database, Reply)>, affected: nat)
  {
    name.Some? && out.Some? && after == before[name.value := out.value.0] && affected == out.value.1.affected
  }

  /** The same without the count. */
  ghost predicate BecameOf(before: map<Endpoint, Database>, after: map<Endpoint, Database>, name: Option<Endpoint>,
                           out: Option<(Database, Reply)>)
  {
    out.Some? && Became(before, after, name, out, out.value.1.affected)
  }

  /** One more row, and the id reported for it. */
  ghost predicate Inserted(before: map<Endpoint, Database>, after: map<Endpoint, Database>, name: Option<Endpoint>,
                           table: string, row: Row, returning: bool, id: string, server: Server, format: Format)
  {
    && var out := Inserting(before, name, table, row, returning, server);
    && Became(before, after, name, out, 1)
    && id == if returning then format(out.value.1.returned.value) else ""
  }

  ghost function Find(dbs: map<Endpoint, Database>, name: Option<Endpoint>): Option<Database> {
    if name.Some? && name.value in dbs then Some(dbs[name.value]) else None
  }

  ghost function Inserting(dbs: map<Endpoint, Database>, name: Option<Endpoint>, table: string, row: Row,
                           returning: bool, server: Server): (out: Option<(Database, Reply)>)
    ensures out.Some? && returning ==> out.value.1.returned.Some?
  {
    match Find(dbs, name) case None => None case Some(db) => InsertEffect(db, table, row, returning, server.how)
  }

  ghost function Updating(dbs: map<Endpoint, Database>, name: Option<Endpoint>, table: string, id: string, row: Row,
                          server: Server): Option<(Database, Reply)> {
    match Find(dbs, name) case None => None case Some(db) => UpdateEffect(db, table, Str(id), row, server.how)
  }

  ghost function Deleting(dbs: map<Endpoint, Database>, name: Option<Endpoint>, table: string, id: string,
                          server: Server): Option<(Database, Reply)> {
    match Find(dbs, name) case None => None case Some(db) => DeleteEffect(db, table, Str(id), server.how)
  }

  ghost function Running(dbs: map<Endpoint, Database>, name: Option<Endpoint>, text: string, args: seq<Native>,
                         server: Server): Option<(Database, Reply)> {
    match Find(dbs, name) case None => None case Some(db) => Serve(server, db, text, args)
  }

  // ----- what is sent -----

  ghost predicate InsertSentIn(order: seq<string>, before: seq<Sent>, after: seq<Sent>, to: Option<Endpoint>,
                               table: string, row: Row, fallback: bool)
  {
    && IsOrderOf(order, row)
    && var vals := ValuesOf(order, row);
       after == before + [Sent(to, InsertText(table, order, true), vals)]
                + if fallback then [Sent(to, InsertText(table, order, false), vals)] else []
  }

  /** The printed INSERT, for one iteration order, and after a failure the fallback. */
  ghost predicate InsertSent(before: seq<Sent>, after: seq<Sent>, to: Option<Endpoint>, table: string, row: Row,
                             fallback: bool)
  {
    exists order :: InsertSentIn(order, before, after, to, table, row, fallback)
  }

  /** The printed UPDATE, for one iteration order, once. */
  ghost predicate UpdateSent(before: seq<Sent>, after: seq<Sent>, to: Option<Endpoint>, table: string, id: string,
                             row: Row)
  {
    exists order ::
      && IsOrderOf(order, row)
      && after == before + [Sent(to, UpdateText(table, order), ValuesOf(order, row) + [Str(id)])]
  }

  ghost predicate HasIdColumn(dbs: map<Endpoint, Database>, name: Option<Endpoint>, table: string) {
    match Find(dbs, name) case None => false case Some(db) => table in db && "id" in db[table].defaults
  }

  // ----- the printed statements do what is meant on the database they reach -----

  lemma PrintedInsertRuns(dbs: map<Endpoint, Database>, name: Option<Endpoint>, table: string, row: Row,
                          text: string, fallback: string, vals: seq<Native>, server: Server)
    requires IsValidIdentifier(table)
    requires exists order ::
               && IsOrderOf(order, row)
               && text == InsertText(table, order, true)
               && fallback == InsertText(table, order, false)
               && vals == ValuesOf(order, row)
    ensures Running(dbs, name, text, vals, server) == Inserting(dbs, name, table, row, true, server)
    ensures Running(dbs, name, fallback, vals, server) == Inserting(dbs, name, table, row, false, server)
  {
    hide Serve, InsertEffect, InsertText;
    var order :|
      && IsOrderOf(order, row)
      && text == InsertText(table, order, true)
      && fallback == InsertText(table, order, false)
      && vals == ValuesOf(order, row);
    if name.Some? && name.value in dbs {
      PrintedInsertIsRead(server, dbs[name.value], table, row, order, true);
      PrintedInsertIsRead(server, dbs[name.value], table, row, order, false);
    }
  }

  lemma PrintedUpdateRuns(dbs: map<Endpoint, Database>, name: Option<Endpoint>, table: string, id: string, row: Row,
                          text: string, vals: seq<Native>, server: Server)
    requires IsValidIdentifier(table) && row != map[]
    requires exists order ::
               && IsOrderOf(order, row)
               && text == UpdateText(table, order)
               && vals == ValuesOf(order, row) + [Str(id)]
    ensures Running(dbs, name, text, vals, server) == Updating(dbs, name, table, id, row, server)
  {
    hide Run, UpdateEffect, UpdateText, Parse, IsMalformed;
    var order :|
      && IsOrderOf(order, row)
      && text == UpdateText(table, order)
      && vals == ValuesOf(order, row) + [Str(id)];
    if name.Some? && name.value in dbs {
      UpdateRuns(dbs[name.value], table, id, row, order, server.how);
    }
  }

  lemma PrintedDeleteRuns(dbs: map<Endpoint, Database>, name: Option<Endpoint>, table: string, id: string,
                          server: Server)
    requires IsValidIdentifier(table)
    ensures Running(dbs, name, DeleteText(table), [Str(id)], server) == Deleting(dbs, name, table, id, server)
  {
    hide Run, DeleteEffect, DeleteText, Parse, IsMalformed;
    if name.Some? && name.value in dbs {
      DeleteRuns(dbs[name.value], table, id, server.how);
    }
  }

  lemma SelectRuns(db: Database, table: string, limit: Int64, server: Server)
    requires IsValidIdentifier(table) && 0 <= limit
    ensures var out := Serve(server, db, SelectText(table), [Int(limit)]);
            && (out.Some? <==> table in db)
            && (out.Some? ==> out.value == (db, Reply(Min(limit, |db[table].rows|), None)))
  {
    hide Parse, SelectText, IsMalformed;
    SelectRoundTrip(table);
  }

  lemma RowsHaveColumns(db: Database, table: string)
    requires WellFormed(db) && table in db
    ensures forall row | row in db[table].rows :: row.Keys == db[table].defaults.Keys
  {
  }

  // ----- rows read through a cursor are the stored rows -----

  /** The cursor lost no record: it has as many as there are, or as the limit allows, and all can be scanned. */
  predicate IsWhole(cursor: Contents, t: Table, limit: nat) {
    && |cursor.1| == Min(limit, |t.rows|)
    && forall i | 0 <= i < |cursor.1| :: IsScannable(cursor.0, cursor.1[i])
  }

  /** At most `limit` stored rows, each as it is stored, and as many as there are exactly if the cursor is whole. */
  ghost predicate Selects(results: seq<Row>, t: Table, limit: nat, cursor: Contents) {
    && AreRowsOf(results, t.rows)
    && |results| <= limit
    && (|results| == Min(limit, |t.rows|) <==> IsWhole(cursor, t, limit))
  }

  lemma HeldRow(result: Row, columns: seq<string>, record: Record, row: Row, defaults: Row)
    requires IsOrderOf(columns, defaults) && row.Keys == defaults.Keys
    requires Holds(record, columns, row) && IsRowOf(result, columns, record.value)
    ensures result == row
  {
    forall k | k in row ensures k in result && result[k] == row[k] {
      var i := IndexOf(columns, k);
      assert forall j | i < j < |columns| :: columns[j] != columns[i];
    }
    hide IsOrderOf, IsRowOf, Holds;
    assert forall k :: k in result <==> k in row.Keys by { SameColumns(result, columns, record, row, defaults); }
  }

  lemma SameColumns(result: Row, columns: seq<string>, record: Record, row: Row, defaults: Row)
    requires IsOrderOf(columns, defaults) && row.Keys == defaults.Keys
    requires record.Some? && |record.value| == |columns| && IsRowOf(result, columns, record.value)
    ensures forall k :: k in result <==> k in row.Keys
  {
    forall k ensures k in result <==> k in row.Keys {
      assert k in result <==> k in columns;
      assert k in columns <==> k in defaults;
    }
  }

  lemma IndexOf(columns: seq<string>, k: string) returns (i: nat)
    requires k in columns
    ensures i < |columns| && columns[i] == k
  {
    i :| i < |columns| && columns[i] == k;
  }

  lemma PickedRow(results: seq<Row>, cursor: Contents, t: Table, limit: nat, faulty: bool,
                  order: seq<string>, picks: seq<nat>, i: nat)
    requires DeliversBy(cursor, t, limit, faulty, order, picks) && cursor.0 == order
    requires Assembles(results, cursor.0, cursor.1) && i < |results|
    requires forall row | row in t.rows :: row.Keys == t.defaults.Keys
    ensures var at := Scanned(cursor.0, cursor.1)[i];
            at < |picks| && picks[at] < |t.rows| && results[i] == t.rows[picks[at]]
  {
    var at := Scanned(cursor.0, cursor.1)[i];
    assert Holds(cursor.1[at], order, t.rows[picks[at]]);
    hide Scanned, IsRowOf, Holds, IsOrderOf;
    HeldRow(results[i], order, cursor.1[at], t.rows[picks[at]], t.defaults);
  }

  /** A cursor that lost its columns scans nothing. */
  lemma NothingScanned(columns: seq<string>, records: seq<Record>)
    requires forall i | 0 <= i < |records| :: !IsScannable(columns, records[i])
    ensures Scanned(columns, records) == []
  {
  }

  lemma PickedRowsAreStored(results: seq<Row>, cursor: Contents, t: Table, limit: nat, faulty: bool,
                            order: seq<string>, picks: seq<nat>)
    requires DeliversBy(cursor, t, limit, faulty, order, picks) && Assembles(results, cursor.0, cursor.1)
    requires forall row | row in t.rows :: row.Keys == t.defaults.Keys
    ensures AreRowsOf(results, t.rows)
  {
    var p := Scanned(cursor.0, cursor.1);
    if cursor.0 == order {
      forall i | 0 <= i < |results|
        ensures p[i] < |picks| && picks[p[i]] < |t.rows| && results[i] == t.rows[picks[p[i]]]
      {
        PickedRow(results, cursor, t, limit, faulty, order, picks, i);
      }
      assert forall i, j | 0 <= i < j < |picks| :: picks[i] != picks[j];
      assert |p| == |results|;
      hide Scanned, DeliversBy, Assembles;
      ThroughPositions(results, t.rows, picks, p);
    } else {
      forall i | 0 <= i < |cursor.1| ensures !IsScannable(cursor.0, cursor.1[i]) {
        assert Holds(cursor.1[i], order, t.rows[picks[i]]) || cursor.1[i].None?;
      }
      NothingScanned(cursor.0, cursor.1);
      hide DeliversBy, Scanned, IsScannable;
      assert ArePicked(results, t.rows, []);
    }
  }

  lemma ThroughPositions(results: seq<Row>, rows: seq<Row>, picks: seq<nat>, p: seq<nat>)
    requires |p| == |results|
    requires forall i | 0 <= i < |p| :: p[i] < |picks| && picks[p[i]] < |rows| && results[i] == rows[picks[p[i]]]
    requires forall i, j | 0 <= i < j < |p| :: p[i] < p[j]
    requires forall i, j | 0 <= i < j < |picks| :: picks[i] != picks[j]
    ensures AreRowsOf(results, rows)
  {
    var stored := seq(|p|, i requires 0 <= i < |p| => picks[p[i]]);
    forall i, j | 0 <= i < j < |stored| ensures stored[i] != stored[j] {
      assert picks[p[i]] != picks[p[j]];
    }
    assert ArePicked(results, rows, stored);
  }

  lemma PickedRowCount(results: seq<Row>, cursor: Contents, t: Table, limit: nat, faulty: bool,
                       order: seq<string>, picks: seq<nat>)
    requires DeliversBy(cursor, t, limit, faulty, order, picks) && Assembles(results, cursor.0, cursor.1)
    ensures |results| <= limit && (|results| == Min(limit, |t.rows|) <==> IsWhole(cursor, t, limit))
    ensures !faulty ==> IsWhole(cursor, t, limit)
  {
    ScannedSize(cursor.0, cursor.1);
    hide Scanned, IsRowOf;
  }

  /**
   Whatever the cursor gives, the assembled rows are stored rows, and they are as many as the limit
   and the table allow exactly if the cursor lost no record; a cursor without faults loses none.
   */
  lemma CursorRowsAreStoredRows(results: seq<Row>, cursor: Contents, t: Table, limit: nat, faulty: bool)
    requires Delivers(cursor, t, limit, faulty) && Assembles(results, cursor.0, cursor.1)
    requires forall row | row in t.rows :: row.Keys == t.defaults.Keys
    ensures Selects(results, t, limit, cursor)
    ensures !faulty ==> IsWhole(cursor, t, limit)
  {
    hide Assembles, DeliversBy, AreRowsOf, IsWhole;
    var order, picks :| DeliversBy(cursor, t, limit, faulty, order, picks);
    PickedRowsAreStored(results, cursor, t, limit, faulty, order, picks);
    PickedRowCount(results, cursor, t, limit, faulty, order, picks);
  }

  lemma {:induction false} ScannedSize(columns: seq<string>, records: seq<Record>)
    ensures |Scanned(columns, records)| <= |records|
    ensures (forall i | 0 <= i < |records| :: IsScannable(columns, records[i])) <==>
              |Scanned(columns, records)| == |records|
  {
    if records != [] {
      var n := |records| - 1;
      var before := records[..n];
      ScannedSize(columns, before);
      assert records == before + [records[n]];
      hide IsScannable;
    }
  }

  lemma ColumnsLost(cursor: Contents, t: Table, limit: nat, faulty: bool)
    requires Delivers(cursor, t, limit, faulty)
    ensures Delivers(([], cursor.1), t, limit, true)
  {
    var order, picks :| DeliversBy(cursor, t, limit, faulty, order, picks);
    assert DeliversBy(([], cursor.1), t, limit, true, order, picks);
  }

  /** When the column names cannot be read, a table that has columns answers with no rows, and with no error. */
  lemma LostColumnsHideEveryRow(results: seq<Row>, records: seq<Record>, t: Table, limit: nat)
    requires Delivers(([], records), t, limit, true) && Assembles(results, [], records)
    requires t.defaults != map[]
    ensures results == []
  {
    var order, picks :| DeliversBy(([], records), t, limit, true, order, picks);
    var k :| k in t.defaults;
    assert k in order;
    forall i | 0 <= i < |records| ensures !IsScannable([], records[i]) {
      assert Holds(records[i], order, t.rows[picks[i]]) || records[i].None?;
    }
    NothingScanned([], records);
  }

  lemma LostColumns(results: seq<Row>, cursor: Contents, t: Table, limit: nat, faulty: bool)
    requires Delivers(cursor, t, limit, faulty) && Assembles(results, [], cursor.1)
    ensures Delivers(([], cursor.1), t, limit, true)
    ensures t.defaults != map[] ==> results == []
  {
    hide Delivers, Assembles;
    ColumnsLost(cursor, t, limit, faulty);
    if t.defaults != map[] { LostColumnsHideEveryRow(results, cursor.1, t, limit); }
  }

  /** And there is such a cursor for every table with rows, so the short answer does occur. */
  lemma ColumnsCanBeLost(t: Table, limit: nat, order: seq<string>, picks: seq<nat>) returns (records: seq<Record>)
    requires IsOrderOf(order, t.defaults) && IsSelection(picks, t.rows, limit)
    requires forall row | row in t.rows :: row.Keys == t.defaults.Keys
    ensures |records| == Min(limit, |t.rows|) && Delivers(([], records), t, limit, true)
  {
    records := seq(|picks|, i requires 0 <= i < |picks| => RecordOf(order, t, picks[i]));
    forall i | 0 <= i < |records| ensures Holds(records[i], order, t.rows[picks[i]]) {}
    assert DeliversBy(([], records), t, limit, true, order, picks);
  }

  function RecordOf(order: seq<string>, t: Table, pick: nat): Record
    requires IsOrderOf(order, t.defaults) && pick < |t.rows|
    requires forall row | row in t.rows :: row.Keys == t.defaults.Keys
  {
    var row := t.rows[pick];
    Some(seq(|order|, i requires 0 <= i < |order| =>
      assert order[i] in t.defaults.Keys && row in t.rows;
      row[order[i]]))
  }

  /**
   Calling a function that changes the database is a reading query. If that is sent and the column
   names cannot be read, the request answers with an error although the database has changed.
   */
  lemma ErrorCanHaveEffect(before: map<Endpoint, Database>, after: map<Endpoint, Database>, at: Endpoint, name: string,
                           changed: Database, affected: nat, server: Server)
    requires name != "" && IsWordStart(name[0]) && forall i | 0 <= i < |name| :: IsWordPart(name[i])
    requires at in before && changed != before[at]
    requires server.other(before[at], CallText(name)) == Some((changed, affected))
    requires BecameOf(before, after, Some(at), Running(before, Some(at), TrimSpace(CallText(name)), [], server))
    ensures IsSelect(CallText(name)) && after == before[at := changed] && after != before
  {
    hide Serve, TrimSpace, IsSelect, CallText;
    CallIsReading(name);
    CallRuns(server, before[at], name, changed, affected);
    assert after[at] != before[at];
  }

  /** What ExecuteQuery returns: the rows of a cursor, or the number of rows affected. */
  datatype QueryResult = Selection(columns: seq<string>, rows: seq<Row>, count: nat) | Affected(rowsAffected: nat)

  class PostgresService {
    const db: Manager

    constructor (db: Manager)
      ensures this.db == db
    {
      this.db := db;
    }

    /** The server and database a request for `database` works on. */
    function Target(database: string): Option<Endpoint> {
      EndpointOf(Print(db.config.postgres, if database == "" then db.config.postgres.database else database))
    }

    predicate Valid()
      reads db, db.driver
    {
      db.Valid()
    }

    /** The connections are as they were. */
    twostate predicate Restored()
      reads db, db.driver
    {
      Valid() && db.driver.s.open == old(db.driver.s.open) && db.driver.s.cursors == old(db.driver.s.cursors)
    }

    /** Since the old state, everything the request asked of the drivers was done. */
    twostate predicate NoFaults()
      reads db, db.driver
    {
      db.driver.faults == old(db.driver.faults)
    }

    /** Nothing was sent, or just this. */
    twostate predicate SentAtMost(sent: Sent)
      reads db.driver
    {
      db.driver.log == old(db.driver.log) || db.driver.log == old(db.driver.log) + [sent]
    }

    /** The statement got through, and a cursor was opened on its rows. */
    twostate predicate Queried()
      reads db.driver
    {
      db.driver.queried > old(db.driver.queried)
    }

    /** Since the old state the handles and cursors went through what such a request does in the state machine. */
    twostate predicate Performed(database: string, shape: Lifecycle.Shape, refused: bool)
      reads db, db.driver
    {
      Requests.Performs(Requests.Ask(database, shape, refused), db.postgresDB, db.config.postgres.database,
                        old(db.driver.s), db.driver.s)
    }

    /** The name of the database that the shared handle is connected to. */
    function Default(): string { db.config.postgres.database }

    /** A connection for the request, open, and connected to its target. */
    method Acquire(database: string) returns (r: Result<(nat, bool), ServiceError>)
      requires Valid() && db.postgresDB.Some?
      modifies db.driver`s, db.driver`target, db.driver`dialed, db.driver`pinged
      modifies db.driver`faults
      ensures Valid() && db.driver.s.cursors == old(db.driver.s.cursors) && db.driver.faults >= old(db.driver.faults)
      ensures r.Ok? <==> NoFaults()
      ensures r.Err? ==> db.driver.s.open == old(db.driver.s.open) && r.error.Worded?
      ensures r.Err? ==> Requests.NotAcquired(database, Default(), old(db.driver.s), db.driver.s)
      ensures r.Ok? ==>
                && r.value.0 in db.driver.s.open && r.value.0 in db.driver.target
                && db.driver.target[r.value.0] == Target(database)
                && r.value.1 == Requests.NeedsOwn(database, Default())
                && r.value.0 == (if r.value.1 then old(db.driver.s.next) else db.postgresDB.value)
                && db.driver.s == Requests.Acquired(old(db.driver.s), r.value.1)
    {
      var got := db.GetPostgresConnection(database);
      match got {
        case Err(msg) => return Err(Worded(msg));
        case Ok(conn) => return Ok(conn);
      }
    }

    /** The deferred `conn.Close()`, after which the connections are as they were before the request. */
    method Release(conn: (nat, bool), ghost database: string, ghost before: Sessions, ghost cursor: bool)
      requires db.postgresDB.Some? && db.postgresDB.value in before.open && Requests.AllOld(before)
      requires db.DefaultTarget()
      requires conn.1 == Requests.NeedsOwn(database, Default())
      requires conn.0 == if conn.1 then before.next else db.postgresDB.value
      requires db.driver.s == Requests.WithCursor(Requests.Acquired(before, conn.1), conn.0, cursor)
      modifies db.driver`s
      ensures db.driver.s == Requests.UsedAndReleased(database, Default(), db.postgresDB.value, before, cursor)
      ensures Valid() && db.driver.s.open == before.open && db.driver.s.cursors == before.cursors
    {
      hide Print, EndpointOf;
      Requests.UseRestores(database, Default(), db.postgresDB.value, before, cursor);
      if conn.1 {
        db.driver.Close(conn.0);
      }
    }

    method DriverError() returns (e: ServiceError)
      ensures e.Worded?
    {
      var msg := db.driver.ErrorText();
      e := Worded(msg);
    }

    /** Prints the INSERT for the row, executes it, and on a failure executes it without RETURNING. */
    method ExecuteInsert(h: nat, table: string, data: Row, format: Format) returns (r: Result<string, ServiceError>)
      requires h in db.driver.s.open && h in db.driver.target
      requires IsValidIdentifier(table)
      modifies db.driver`databases, db.driver`faults, db.driver`log
      ensures db.driver.faults >= old(db.driver.faults)
      ensures r.Err? ==>
                && r.error.Worded? && db.driver.databases == old(db.driver.databases)
                && InsertSent(old(db.driver.log), db.driver.log, db.driver.target[h], table, data, true)
      ensures r.Err? && NoFaults() ==>
                Inserting(old(db.driver.databases), db.driver.target[h], table, data, false, db.driver.server).None?
      ensures r.Ok? ==> exists returning ::
                && Inserted(old(db.driver.databases), db.driver.databases, db.driver.target[h], table, data, returning,
                            r.value, db.driver.server, format)
                && InsertSent(old(db.driver.log), db.driver.log, db.driver.target[h], table, data, !returning)
                && (NoFaults() ==> returning == HasIdColumn(old(db.driver.databases), db.driver.target[h], table))
    {
      var text, fallback, vals := BuildInsert(table, data);
      ghost var before, name, sent := db.driver.databases, db.driver.target[h], db.driver.log;
      PrintedInsertRuns(before, name, table, data, text, fallback, vals, db.driver.server);
      IdColumnDecides(before, name, table, data, db.driver.server);
      hide Serve, InsertText, ValuesOf, IsOrderOf, InsertEffect, InsertSent, HasIdColumn;
      ghost var out := Inserting(before, name, table, data, true, db.driver.server);
      var reply := db.driver.Exec(h, text, vals);
      if reply.Some? {
        r := Ok(format(reply.value.returned.value));
        AffectsOne(before, name, table, data, true, db.driver.server);
        assert Inserted(before, db.driver.databases, name, table, data, true, r.value, db.driver.server, format);
        InsertWasSent(sent, db.driver.log, name, table, data, text, fallback, vals, false);
      } else {
        reply := db.driver.Exec(h, fallback, vals);
        InsertWasSent(sent, db.driver.log, name, table, data, text, fallback, vals, true);
        if reply.Some? {
          r := Ok("");
          AffectsOne(before, name, table, data, false, db.driver.server);
          assert Inserted(before, db.driver.databases, name, table, data, false, r.value, db.driver.server, format);
        } else {
          var e := DriverError();
          r := Err(e);
        }
      }
    }

    static lemma InsertWasSent(before: seq<Sent>, after: seq<Sent>, to: Option<Endpoint>, table: string, row: Row,
                               text: string, fallback: string, vals: seq<Native>, second: bool)
      requires exists order ::
                 && IsOrderOf(order, row)
                 && text == InsertText(table, order, true)
                 && fallback == InsertText(table, order, false)
                 && vals == ValuesOf(order, row)
      requires if second then after == before + [Sent(to, text, vals)] + [Sent(to, fallback, vals)]
               else after == before + [Sent(to, text, vals)]
      ensures InsertSent(before, after, to, table, row, second)
    {
      hide InsertText, ValuesOf;
      var order :|
        && IsOrderOf(order, row)
        && text == InsertText(table, order, true)
        && fallback == InsertText(table, order, false)
        && vals == ValuesOf(order, row);
      var one := [Sent(to, text, vals)];
      assert one + [] == one;
      assert one + [Sent(to, fallback, vals)] == [Sent(to, text, vals)] + [Sent(to, fallback, vals)];
      assert before + one + [Sent(to, fallback, vals)] == before + (one + [Sent(to, fallback, vals)]);
      assert InsertSentIn(order, before, after, to, table, row, second);
    }

    static lemma AffectsOne(dbs: map<Endpoint, Database>, name: Option<Endpoint>, table: string, row: Row,
                            returning: bool, server: Server)
      ensures Inserting(dbs, name, table, row, returning, server).Some? ==>
                Inserting(dbs, name, table, row, returning, server).value.1.affected == 1
    {
    }

    static lemma IdColumnDecides(dbs: map<Endpoint, Database>, name: Option<Endpoint>, table: string, row: Row,
                                 server: Server)
      ensures Inserting(dbs, name, table, row, true, server).Some?
         <==> Inserting(dbs, name, table, row, false, server).Some? && HasIdColumn(dbs, name, table)
    {
    }

    /**
     On success one more row in one table of the request's database; on an error nothing changed;
     the connections as they were on every path. Without faults it fails only if the row does not
     fit the table, and reports an id exactly if the table has an id column. The fallback is sent
     only after the first statement failed, and nothing else is.
     */
    method InsertData(database: string, table: string, data: Row, format: Format)
      returns (r: Result<string, ServiceError>)
      requires Valid()
      modifies db.driver`s, db.driver`target, db.driver`dialed, db.driver`pinged
      modifies db.driver`databases, db.driver`faults, db.driver`log
      ensures Restored() && Performed(database, Lifecycle.Inserts, !IsValidIdentifier(table))
      ensures db.postgresDB.None? ==> r == Err(NotEnabled("PostgreSQL"))
      ensures db.postgresDB.Some? && !IsValidIdentifier(table) ==> r == Err(Worded("invalid table name"))
      ensures db.postgresDB.None? || !IsValidIdentifier(table) ==> db.driver.log == old(db.driver.log)
      ensures r.Err? ==>
                && db.driver.databases == old(db.driver.databases)
                && (|| db.driver.log == old(db.driver.log)
                    || InsertSent(old(db.driver.log), db.driver.log, Target(database), table, data, true))
      ensures r.Err? && NoFaults() && db.postgresDB.Some? && IsValidIdentifier(table) ==>
                Inserting(old(db.driver.databases), Target(database), table, data, false, db.driver.server).None?
      ensures r.Ok? ==> exists returning ::
                && Inserted(old(db.driver.databases), db.driver.databases, Target(database), table, data, returning,
                            r.value, db.driver.server, format)
                && InsertSent(old(db.driver.log), db.driver.log, Target(database), table, data, !returning)
                && (NoFaults() ==> returning == HasIdColumn(old(db.driver.databases), Target(database), table))
    {
      hide Inserted, Inserting, InsertSent, HasIdColumn, IsValidIdentifier, Print, EndpointOf, Requests.Performs;
      if db.postgresDB.None? {
        Requests.NothingPerforms(database, Lifecycle.Inserts, !IsValidIdentifier(table), db.postgresDB, Default(),
                                 db.driver.s);
        return Err(NotEnabled("PostgreSQL"));
      }
      if !IsValidIdentifier(table) {
        Requests.NothingPerforms(database, Lifecycle.Inserts, true, db.postgresDB, Default(), db.driver.s);
        return Err(Worded("invalid table name"));
      }
      var acquired := Acquire(database);
      if acquired.Err? {
        Requests.FailurePerforms(database, Lifecycle.Inserts, db.postgresDB, Default(), old(db.driver.s), db.driver.s);
        return Err(acquired.error);
      }
      ghost var before, sent := db.driver.databases, db.driver.log;
      label Acquired:
      r := ExecuteInsert(acquired.value.0, table, data, format);
      ghost var after := db.driver.databases;
      ghost var faultless := NoFaults@Acquired();
      Release(acquired.value, database, old(db.driver.s), false);
      Requests.UsePerforms(database, Lifecycle.Inserts, db.postgresDB, Default(), old(db.driver.s), false);
      if r.Ok? {
        ghost var returning :|
          && Inserted(before, after, Target(database), table, data, returning, r.value, db.driver.server, format)
          && InsertSent(sent, db.driver.log, Target(database), table, data, !returning)
          && (faultless ==> returning == HasIdColumn(before, Target(database), table));
        assert Inserted(old(db.driver.databases), db.driver.databases, Target(database), table, data, returning,
                        r.value, db.driver.server, format);
      }
    }

    /** One statement on the request's database, and the count it affects. */
    method Execute(h: nat, text: string, args: seq<Native>) returns (r: Result<nat, ServiceError>)
      requires h in db.driver.s.open && h in db.driver.target
      modifies db.driver`databases, db.driver`faults, db.driver`log
      ensures db.driver.faults >= old(db.driver.faults)
      ensures db.driver.log == old(db.driver.log) + [Sent(db.driver.target[h], text, args)]
      ensures r.Err? ==> r.error.Worded? && db.driver.databases == old(db.driver.databases)
      ensures r.Err? && NoFaults() ==>
                Running(old(db.driver.databases), db.driver.target[h], text, args, db.driver.server).None?
      ensures r.Ok? ==>
                Became(old(db.driver.databases), db.driver.databases, db.driver.target[h],
                       Running(old(db.driver.databases), db.driver.target[h], text, args, db.driver.server), r.value)
      ensures r.Ok? ==>
                BecameOf(old(db.driver.databases), db.driver.databases, db.driver.target[h],
                         Running(old(db.driver.databases), db.driver.target[h], text, args, db.driver.server))
    {
      hide Serve;
      var reply := db.driver.Exec(h, text, args);
      if reply.Some? {
        return Ok(reply.value.affected);
      }
      var e := DriverError();
      return Err(e);
    }

    /**
     The given row over exactly the rows of the old id in the request's database; an error changes
     nothing. The statement is sent once, unless no connection was had.
     */
    method UpdateData(database: string, table: string, id: string, data: Row) returns (r: Result<nat, ServiceError>)
      requires Valid()
      modifies db.driver`s, db.driver`target, db.driver`dialed, db.driver`pinged
      modifies db.driver`databases, db.driver`faults, db.driver`log
      ensures Restored() && Performed(database, Lifecycle.Writes, !IsValidIdentifier(table) || data == map[])
      ensures db.postgresDB.None? ==> r == Err(NotEnabled("PostgreSQL"))
      ensures db.postgresDB.Some? && !IsValidIdentifier(table) ==> r == Err(Worded("invalid table name"))
      ensures db.postgresDB.Some? && IsValidIdentifier(table) && data == map[] ==> r == Err(Worded("no data to update"))
      ensures db.postgresDB.None? || !IsValidIdentifier(table) || data == map[] ==> db.driver.log == old(db.driver.log)
      ensures r.Err? ==>
                && db.driver.databases == old(db.driver.databases)
                && (|| db.driver.log == old(db.driver.log)
                    || UpdateSent(old(db.driver.log), db.driver.log, Target(database), table, id, data))
      ensures r.Err? && NoFaults() && db.postgresDB.Some? && IsValidIdentifier(table) && data != map[] ==>
                Updating(old(db.driver.databases), Target(database), table, id, data, db.driver.server).None?
      ensures r.Ok? ==>
                && Became(old(db.driver.databases), db.driver.databases, Target(database),
                          Updating(old(db.driver.databases), Target(database), table, id, data, db.driver.server),
                          r.value)
                && UpdateSent(old(db.driver.log), db.driver.log, Target(database), table, id, data)
    {
      hide UpdateText, ValuesOf, IsOrderOf, Updating, Running, Became, UpdateSent, IsValidIdentifier, Print, EndpointOf;
      hide Requests.Performs;
      if db.postgresDB.None? {
        Requests.NothingPerforms(database, Lifecycle.Writes, !IsValidIdentifier(table) || data == map[], db.postgresDB,
                                 Default(), db.driver.s);
        return Err(NotEnabled("PostgreSQL"));
      }
      if !IsValidIdentifier(table) {
        Requests.NothingPerforms(database, Lifecycle.Writes, true, db.postgresDB, Default(), db.driver.s);
        return Err(Worded("invalid table name"));
      }
      if |data| == 0 {
        Requests.NothingPerforms(database, Lifecycle.Writes, true, db.postgresDB, Default(), db.driver.s);
        return Err(Worded("no data to update"));
      }
      var acquired := Acquire(database);
      if acquired.Err? {
        Requests.FailurePerforms(database, Lifecycle.Writes, db.postgresDB, Default(), old(db.driver.s), db.driver.s);
        return Err(acquired.error);
      }
      ghost var sent := db.driver.log;
      var text, vals := BuildUpdate(table, id, data);
      PrintedUpdateRuns(db.driver.databases, Target(database), table, id, data, text, vals, db.driver.server);
      r := Execute(acquired.value.0, text, vals);
      UpdateWasSent(sent, db.driver.log, Target(database), table, id, data, text, vals);
      Release(acquired.value, database, old(db.driver.s), false);
      Requests.UsePerforms(database, Lifecycle.Writes, db.postgresDB, Default(), old(db.driver.s), false);
    }

    static lemma UpdateWasSent(before: seq<Sent>, after: seq<Sent>, to: Option<Endpoint>, table: string, id: string,
                               row: Row, text: string, vals: seq<Native>)
      requires exists order ::
                 && IsOrderOf(order, row)
                 && text == UpdateText(table, order)
                 && vals == ValuesOf(order, row) + [Str(id)]
      requires after == before + [Sent(to, text, vals)]
      ensures UpdateSent(before, after, to, table, id, row)
    {
      hide UpdateText, ValuesOf, IsOrderOf;
    }

    /** Exactly the rows of the id are gone, and counted; an error changes nothing. Sent once, or not at all. */
    method DeleteData(database: string, table: string, id: string) returns (r: Result<nat, ServiceError>)
      requires Valid()
      modifies db.driver`s, db.driver`target, db.driver`dialed, db.driver`pinged
      modifies db.driver`databases, db.driver`faults, db.driver`log
      ensures Restored() && Performed(database, Lifecycle.Writes, !IsValidIdentifier(table))
      ensures db.postgresDB.None? ==> r == Err(NotEnabled("PostgreSQL"))
      ensures db.postgresDB.Some? && !IsValidIdentifier(table) ==> r == Err(Worded("invalid table name"))
      ensures db.postgresDB.None? || !IsValidIdentifier(table) ==> db.driver.log == old(db.driver.log)
      ensures SentAtMost(Sent(Target(database), DeleteText(table), [Str(id)]))
      ensures r.Err? ==> db.driver.databases == old(db.driver.databases)
      ensures r.Err? && NoFaults() && db.postgresDB.Some? && IsValidIdentifier(table) ==>
                Deleting(old(db.driver.databases), Target(database), table, id, db.driver.server).None?
      ensures r.Ok? ==>
                && Became(old(db.driver.databases), db.driver.databases, Target(database),
                          Deleting(old(db.driver.databases), Target(database), table, id, db.driver.server), r.value)
                && db.driver.log == old(db.driver.log) + [Sent(Target(database), DeleteText(table), [Str(id)])]
    {
      hide DeleteText, Deleting, Running, Became, IsValidIdentifier, Print, EndpointOf, Requests.Performs;
      if db.postgresDB.None? {
        Requests.NothingPerforms(database, Lifecycle.Writes, !IsValidIdentifier(table), db.postgresDB, Default(),
                                 db.driver.s);
        return Err(NotEnabled("PostgreSQL"));
      }
      if !IsValidIdentifier(table) {
        Requests.NothingPerforms(database, Lifecycle.Writes, true, db.postgresDB, Default(), db.driver.s);
        return Err(Worded("invalid table name"));
      }
      var acquired := Acquire(database);
      if acquired.Err? {
        Requests.FailurePerforms(database, Lifecycle.Writes, db.postgresDB, Default(), old(db.driver.s), db.driver.s);
        return Err(acquired.error);
      }
      PrintedDeleteRuns(db.driver.databases, Target(database), table, id, db.driver.server);
      r := Execute(acquired.value.0, DeleteText(table), [Str(id)]);
      Release(acquired.value, database, old(db.driver.s), false);
      Requests.UsePerforms(database, Lifecycle.Writes, db.postgresDB, Default(), old(db.driver.s), false);
    }

    /** The cursor that was opened last. */
    predicate HasCursor()
      reads db, db.driver
    {
      0 < db.driver.s.next && db.driver.s.next - 1 in db.driver.contents
    }

    function LastCursor(): Contents
      requires HasCursor()
      reads db, db.driver
    {
      db.driver.contents[db.driver.s.next - 1]
    }

    /** The rows of the last cursor, which is then closed; without its column names there are none to be named. */
    method Collect(c: nat) returns (named: bool, results: seq<Row>)
      requires Valid() && c in db.driver.s.cursors && c in db.driver.contents
      modifies db.driver`s, db.driver`contents, db.driver`faults, db.driver`unnamed
      ensures Valid() && db.driver.s == CloseCursor(old(db.driver.s), c)
      ensures db.driver.faults == old(db.driver.faults) + if named then 0 else 1
      ensures db.driver.unnamed == old(db.driver.unnamed) + if named then 0 else 1
      ensures c in db.driver.contents && db.driver.contents[c].1 == old(db.driver.contents)[c].1
      ensures db.driver.contents[c].0 == if named then old(db.driver.contents)[c].0 else []
      ensures Assembles(results, db.driver.contents[c].0, db.driver.contents[c].1)
    {
      hide Assembles, Print, EndpointOf;
      named := db.driver.Columns(c);
      results := AssembleRows(db.driver.contents[c].0, db.driver.contents[c].1);
      db.driver.CloseRows(c);
    }

    /**
     Queries, assembles and closes the cursor; the close comes before that of the handle. Once there
     is a cursor no failure is reported any more.
     */
    method ReadTable(h: nat, table: string, limit: nat) returns (r: Result<seq<Row>, ServiceError>)
      requires Valid() && h in db.driver.s.open && h in db.driver.target
      requires IsValidIdentifier(table) && limit <= 10000
      modifies db.driver`s, db.driver`contents, db.driver`databases, db.driver`faults, db.driver`log
      modifies db.driver`queried, db.driver`unnamed
      ensures Valid() && db.driver.s == Requests.WithCursor(old(db.driver.s), h, r.Ok?)
      ensures db.driver.faults >= old(db.driver.faults) && db.driver.unnamed >= old(db.driver.unnamed)
      ensures db.driver.databases == old(db.driver.databases)
      ensures db.driver.log == old(db.driver.log) + [Sent(db.driver.target[h], SelectText(table), [Int(limit)])]
      ensures r.Ok? <==> Queried()
      ensures r.Err? ==> r.error.Worded?
      ensures r.Err? && NoFaults() ==>
                var found := Find(db.driver.databases, db.driver.target[h]);
                found.None? || table !in found.value
      ensures r.Ok? ==>
                var found := Find(db.driver.databases, db.driver.target[h]);
                && found.Some? && table in found.value && HasCursor()
                && (WellFormed(found.value) ==>
                      && Selects(r.value, found.value[table], limit, LastCursor())
                      && (NoFaults() ==> IsWhole(LastCursor(), found.value[table], limit)))
                && (db.driver.unnamed > old(db.driver.unnamed) && found.value[table].defaults != map[] ==>
                      r.value == [])
    {
      hide Assembles, Delivers, Selects, IsWhole, WellFormed, Print, EndpointOf, Serve, Parse, SelectText;
      hide IsValidIdentifier;
      ghost var found := Find(db.driver.databases, db.driver.target[h]);
      SelectRoundTrip(table);
      if found.Some? {
        SelectRuns(found.value, table, limit, db.driver.server);
      }
      var c := db.driver.Query(h, SelectText(table), [Int(limit)]);
      if c.None? {
        var e := DriverError();
        return Err(e);
      }
      assert db.driver.databases == old(db.driver.databases);
      ghost var faulty, cursor := !NoFaults(), db.driver.contents[c.value];
      var named, results := Collect(c.value);
      if !named { LostColumns(results, cursor, found.value[table], limit, faulty); }
      if WellFormed(found.value) {
        RowsHaveColumns(found.value, table);
        CursorRowsAreStoredRows(results, LastCursor(), found.value[table], limit, !NoFaults());
      }
      return Ok(results);
    }

    /**
     At most `limit` of the table's rows, each exactly as stored and none more often, and as many as
     there are exactly if the cursor lost no record. There is an error exactly if no cursor was opened,
     without faults only because there is no such table; if the column names could not be read there is
     none, and a table with columns then has no rows in the answer.
     */
    method SelectData(database: string, table: string, limit: int) returns (r: Result<seq<Row>, ServiceError>)
      requires Valid()
      modifies db.driver`s, db.driver`target, db.driver`dialed, db.driver`pinged
      modifies db.driver`contents, db.driver`databases, db.driver`faults, db.driver`log
      modifies db.driver`queried, db.driver`unnamed
      ensures Restored() && Performed(database, Lifecycle.Reads, !IsValidIdentifier(table) || !(1 <= limit <= 10000))
      ensures db.driver.databases == old(db.driver.databases)
      ensures db.postgresDB.None? ==> r == Err(NotEnabled("PostgreSQL"))
      ensures db.postgresDB.Some? && !IsValidIdentifier(table) ==> r == Err(Worded("invalid table name"))
      ensures db.postgresDB.Some? && IsValidIdentifier(table) && !(1 <= limit <= 10000) ==>
                r == Err(Worded("limit must be between 1 and 10000"))
      ensures db.postgresDB.None? || !IsValidIdentifier(table) || !(1 <= limit <= 10000) ==>
                db.driver.log == old(db.driver.log)
      ensures 1 <= limit <= 10000 ==> SentAtMost(Sent(Target(database), SelectText(table), [Int(limit)]))
      ensures r.Ok? <==> Queried()
      ensures r.Err? && NoFaults() && db.postgresDB.Some? && IsValidIdentifier(table) && 1 <= limit <= 10000 ==>
                var found := Find(db.driver.databases, Target(database));
                found.None? || table !in found.value
      ensures r.Ok? ==>
                var found := Find(db.driver.databases, Target(database));
                && found.Some? && table in found.value && limit >= 0 && HasCursor()
                && (WellFormed(found.value) ==>
                      && Selects(r.value, found.value[table], limit, LastCursor())
                      && (NoFaults() ==> IsWhole(LastCursor(), found.value[table], limit)))
                && (db.driver.unnamed > old(db.driver.unnamed) && found.value[table].defaults != map[] ==>
                      r.value == [])
    {
      hide Selects, IsWhole, WellFormed, Find, IsValidIdentifier, Print, EndpointOf, SelectText, Requests.Performs;
      if db.postgresDB.None? {
        Requests.NothingPerforms(database, Lifecycle.Reads, !IsValidIdentifier(table) || !(1 <= limit <= 10000),
                                 db.postgresDB, Default(), db.driver.s);
        return Err(NotEnabled("PostgreSQL"));
      }
      if !IsValidIdentifier(table) {
        Requests.NothingPerforms(database, Lifecycle.Reads, true, db.postgresDB, Default(), db.driver.s);
        return Err(Worded("invalid table name"));
      }
      if limit < 1 || limit > 10000 {
        Requests.NothingPerforms(database, Lifecycle.Reads, true, db.postgresDB, Default(), db.driver.s);
        return Err(Worded("limit must be between 1 and 10000"));
      }
      var acquired := Acquire(database);
      if acquired.Err? {
        Requests.FailurePerforms(database, Lifecycle.Reads, db.postgresDB, Default(), old(db.driver.s), db.driver.s);
        return Err(acquired.error);
      }
      r := ReadTable(acquired.value.0, table, limit);
      Release(acquired.value, database, old(db.driver.s), r.Ok?);
      Requests.UsePerforms(database, Lifecycle.Reads, db.postgresDB, Default(), old(db.driver.s), r.Ok?);
    }

    /**
     Any SQL text, trimmed, is sent once to the request's database, and does there what the server
     makes of it; no other database changes. A reading query also returns the scannable records of
     its cursor, in order and counted. An error without faults is the server's. A reading query that
     got its cursor has run, and yet there is an error exactly if its column names could not be read;
     on every other error nothing changed.
     */
    method ExecuteQuery(query: string, database: string) returns (r: Result<QueryResult, ServiceError>)
      requires Valid()
      modifies db.driver`s, db.driver`target, db.driver`dialed, db.driver`pinged
      modifies db.driver`contents, db.driver`databases, db.driver`faults, db.driver`log
      modifies db.driver`queried, db.driver`unnamed
      ensures Restored()
      ensures Performed(database, if IsSelect(query) then Lifecycle.Reads else Lifecycle.Writes, false)
      ensures db.postgresDB.None? ==> r == Err(NotEnabled("PostgreSQL")) && db.driver.log == old(db.driver.log)
      ensures SentAtMost(Sent(Target(database), TrimSpace(query), []))
      ensures r.Err? && db.postgresDB.Some? ==> r.error.Worded?
      ensures IsSelect(query) ==> (r.Ok? <==> Queried() && db.driver.unnamed == old(db.driver.unnamed))
      ensures Queried() ==>
                && IsSelect(query)
                && BecameOf(old(db.driver.databases), db.driver.databases, Target(database),
                            Running(old(db.driver.databases), Target(database), TrimSpace(query), [], db.driver.server))
      ensures r.Err? && !Queried() ==> db.driver.databases == old(db.driver.databases)
      ensures r.Err? && NoFaults() && db.postgresDB.Some? ==>
                Running(old(db.driver.databases), Target(database), TrimSpace(query), [], db.driver.server).None?
      ensures r.Ok? ==>
                && r.value.Selection? == IsSelect(query)
                && db.driver.log == old(db.driver.log) + [Sent(Target(database), TrimSpace(query), [])]
                && BecameOf(old(db.driver.databases), db.driver.databases, Target(database),
                            Running(old(db.driver.databases), Target(database), TrimSpace(query), [], db.driver.server))
      ensures r.Ok? && r.value.Selection? ==>
                && r.value.count == |r.value.rows| && HasCursor() && r.value.columns == LastCursor().0
                && Assembles(r.value.rows, r.value.columns, LastCursor().1)
      ensures r.Ok? && r.value.Affected? ==>
                Became(old(db.driver.databases), db.driver.databases, Target(database),
                       Running(old(db.driver.databases), Target(database), TrimSpace(query), [], db.driver.server),
                       r.value.rowsAffected)
    {
      hide Running, Became, BecameOf, Assembles, Print, EndpointOf, IsSelect, TrimSpace, Requests.Performs;
      ghost var shape := if IsSelect(query) then Lifecycle.Reads else Lifecycle.Writes;
      if db.postgresDB.None? {
        Requests.NothingPerforms(database, shape, false, db.postgresDB, Default(), db.driver.s);
        return Err(NotEnabled("PostgreSQL"));
      }
      var acquired := Acquire(database);
      if acquired.Err? {
        Requests.FailurePerforms(database, shape, db.postgresDB, Default(), old(db.driver.s), db.driver.s);
        return Err(acquired.error);
      }
      var trimmed := TrimSpace(query);
      r := RunQuery(acquired.value.0, trimmed, IsSelect(query));
      Release(acquired.value, database, old(db.driver.s), Queried());
      Requests.UsePerforms(database, shape, db.postgresDB, Default(), old(db.driver.s), Queried());
    }

    /** For its rows or not, the text is run once; the result has the form that was asked for. */
    method RunQuery(h: nat, query: string, reading: bool) returns (r: Result<QueryResult, ServiceError>)
      requires Valid() && h in db.driver.s.open && h in db.driver.target
      modifies db.driver`s, db.driver`contents, db.driver`databases, db.driver`faults, db.driver`log
      modifies db.driver`queried, db.driver`unnamed
      ensures Valid() && db.driver.s == Requests.WithCursor(old(db.driver.s), h, Queried())
      ensures db.driver.faults >= old(db.driver.faults) && (Queried() ==> reading)
      ensures db.driver.log == old(db.driver.log) + [Sent(db.driver.target[h], query, [])]
      ensures reading ==> (r.Ok? <==> Queried() && db.driver.unnamed == old(db.driver.unnamed))
      ensures if r.Ok? || Queried() then
                BecameOf(old(db.driver.databases), db.driver.databases, db.driver.target[h],
                         Running(old(db.driver.databases), db.driver.target[h], query, [], db.driver.server))
              else
                db.driver.databases == old(db.driver.databases)
      ensures r.Err? ==> r.error.Worded?
      ensures r.Err? && NoFaults() ==>
                Running(old(db.driver.databases), db.driver.target[h], query, [], db.driver.server).None?
      ensures r.Ok? ==> r.value.Selection? == reading
      ensures r.Ok? && r.value.Selection? ==>
                && r.value.count == |r.value.rows| && HasCursor() && r.value.columns == LastCursor().0
                && Assembles(r.value.rows, r.value.columns, LastCursor().1)
      ensures r.Ok? && r.value.Affected? ==>
                Became(old(db.driver.databases), db.driver.databases, db.driver.target[h],
                       Running(old(db.driver.databases), db.driver.target[h], query, [], db.driver.server),
                       r.value.rowsAffected)
    {
      hide Running, Became, BecameOf, Assembles, Print, EndpointOf;
      if reading {
        r := Read(h, query);
      } else {
        var affected := Execute(h, query, []);
        r := match affected case Ok(n) => Ok(Affected(n)) case Err(e) => Err(e);
      }
    }

    /** The cursor is closed whether its columns can be read or not. */
    method Read(h: nat, query: string) returns (r: Result<QueryResult, ServiceError>)
      requires Valid() && h in db.driver.s.open && h in db.driver.target
      modifies db.driver`s, db.driver`contents, db.driver`databases, db.driver`faults, db.driver`log
      modifies db.driver`queried, db.driver`unnamed
      ensures Valid() && db.driver.s == Requests.WithCursor(old(db.driver.s), h, Queried())
      ensures db.driver.faults >= old(db.driver.faults) && db.driver.unnamed >= old(db.driver.unnamed)
      ensures db.driver.log == old(db.driver.log) + [Sent(db.driver.target[h], query, [])]
      ensures r.Ok? <==> Queried() && db.driver.unnamed == old(db.driver.unnamed)
      ensures r.Err? ==> r.error.Worded?
      ensures if Queried() then
                BecameOf(old(db.driver.databases), db.driver.databases, db.driver.target[h],
                         Running(old(db.driver.databases), db.driver.target[h], query, [], db.driver.server))
              else
                db.driver.databases == old(db.driver.databases)
      ensures r.Err? && NoFaults() ==>
                Running(old(db.driver.databases), db.driver.target[h], query, [], db.driver.server).None?
      ensures r.Ok? ==>
                && r.value.Selection? && r.value.count == |r.value.rows| && HasCursor()
                && r.value.columns == LastCursor().0
                && Assembles(r.value.rows, r.value.columns, LastCursor().1)
    {
      hide Assembles, Delivers, Parse, Serve, Print, EndpointOf;
      var e := DriverError();
      var c := db.driver.Query(h, query, []);
      if c.None? {
        return Err(e);
      }
      var named, results := Collect(c.value);
      if !named {
        return Err(e);
      }
      return Ok(Selection(db.driver.contents[c.value].0, results, |results|));
    }
  }
}
