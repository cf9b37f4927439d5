/**
 What a parsed statement does to the tables of one database, and the theorem that the statements
 the router prints, run with the values it binds, are the intended map updates for every
 iteration order of the row.
 */
module SqlSemantics {
  import Text
  import opened Wrappers
  import opened Values
  import opened SqlBuilder
  import opened SqlSyntax
  import opened SqlRoundTrip

  /** The columns of a table are the keys of `defaults`, which also gives each column's default. */
  datatype Table = Table(defaults: Row, rows: seq<Row>)

  type Database = map<string, Table>

  /**
   What the driver and the server make of bound values: whether a stored one equals a bound one, after
   casts, and which maps, lists and values of other types can be bound at all.
   */
  datatype Binding = Binding(equal: (Native, Native) -> bool, accepts: Native -> bool)

  predicate Takes(how: Binding, v: Native) {
    v.Record? || v.List? || v.Other? ==> how.accepts(v)
  }

  predicate TakesAll(how: Binding, row: Row) { forall k | k in row :: Takes(how, row[k]) }

  datatype Reply = Reply(affected: nat, returned: Option<Native>)

  // ----- running one statement with bound values -----

  predicate ParamsInRange(params: seq<nat>, n: nat) {
    forall i | 0 <= i < |params| :: 1 <= params[i] <= n
  }

  /** The column values a list of names and parameter numbers stands for; a later name wins. */
  function Bind(names: seq<string>, params: seq<nat>, args: seq<Native>): (r: Row)
    requires |names| == |params|
    requires ParamsInRange(params, |args|)
  {
    if names == [] then map[]
    else map[names[0] := args[params[0] - 1]] + Bind(names[1..], params[1..], args)
  }

  /** Names and parameters fit the table, and no column is named twice. */
  predicate Fits(names: seq<string>, params: seq<nat>, columns: set<string>, args: seq<Native>) {
    && |names| == |params|
    && Distinct(names)
    && (forall k | k in names :: k in columns)
    && ParamsInRange(params, |args|)
  }

  /** The statement fits its table, every value can be bound, and every value is used. */
  predicate Accepts(db: Database, stmt: Statement, args: seq<Native>, how: Binding) {
    && stmt.table in db
    && (forall i | 0 <= i < |args| :: Takes(how, args[i]))
    && match stmt
       case Insert(table, columns, params, returning) =>
         && Fits(columns, params, db[table].defaults.Keys, args)
         && (forall i | 1 <= i <= |args| :: i in params)
         && (returning.Some? ==> returning.value in db[table].defaults)
       case Update(table, columns, params, key, keyParam) =>
         && Fits(columns, params, db[table].defaults.Keys, args)
         && (forall i | 1 <= i <= |args| :: i in params || i == keyParam)
         && key in db[table].defaults && 1 <= keyParam <= |args|
       case Delete(table, key, keyParam) =>
         key in db[table].defaults && keyParam == |args| == 1
       case Select(_, limitParam) =>
         limitParam == |args| == 1 && args[0].Int? && args[0].n >= 0
  }

  predicate Selected(row: Row, key: string, value: Native, how: Binding) {
    key in row && how.equal(row[key], value)
  }

  /** Overlays `values` on the rows selected by their old key; every other row stays as it is. */
  function Overlay(rows: seq<Row>, key: string, value: Native, values: Row, how: Binding): (r: seq<Row>)
    ensures |r| == |rows|
  {
    seq(|rows|, i requires 0 <= i < |rows| =>
      if Selected(rows[i], key, value, how) then rows[i] + values else rows[i])
  }

  /** The rows whose key is another one, in their order. */
  function Unselected(rows: seq<Row>, key: string, value: Native, how: Binding): (r: seq<Row>)
    ensures |r| <= |rows| && forall row | row in r :: row in rows
  {
    if rows == [] then []
    else (if Selected(rows[0], key, value, how) then [] else [rows[0]]) + Unselected(rows[1..], key, value, how)
  }

  function CountSelected(rows: seq<Row>, key: string, value: Native, how: Binding): nat {
    if rows == [] then 0
    else (if Selected(rows[0], key, value, how) then 1 else 0) + CountSelected(rows[1..], key, value, how)
  }

  function Execute(db: Database, stmt: Statement, args: seq<Native>, how: Binding): (Database, Reply)
    requires Accepts(db, stmt, args, how)
  {
    var t := db[stmt.table];
    match stmt
    case Insert(table, columns, params, returning) =>
      var row := t.defaults + Bind(columns, params, args);
      (db[table := t.(rows := t.rows + [row])],
       Reply(1, if returning.Some? then Some(row[returning.value]) else None))
    case Update(table, columns, params, key, keyParam) =>
      var values := Bind(columns, params, args);
      (db[table := t.(rows := Overlay(t.rows, key, args[keyParam - 1], values, how))],
       Reply(CountSelected(t.rows, key, args[keyParam - 1], how), None))
    case Select(table, _) =>
      (db, Reply(Min(args[0].n, |t.rows|), None))
    case Delete(table, key, keyParam) =>
      (db[table := t.(rows := Unselected(t.rows, key, args[keyParam - 1], how))],
       Reply(CountSelected(t.rows, key, args[keyParam - 1], how), None))
  }

  function Min(a: nat, b: nat): (m: nat)
    ensures m <= a && m <= b && (m == a || m == b)
  {
    if a < b then a else b
  }

  /** A choice of at most `limit` rows, and of as many as there are: what LIMIT leaves, in any order. */
  predicate IsSelection(picks: seq<nat>, rows: seq<Row>, limit: nat) {
    && |picks| == Min(limit, |rows|)
    && (forall i | 0 <= i < |picks| :: picks[i] < |rows|)
    && forall i, j | 0 <= i < j < |picks| :: picks[i] != picks[j]
  }

  /** Stored rows, none of them more often than it is stored. */
  ghost predicate AreRowsOf(results: seq<Row>, rows: seq<Row>) {
    exists picks: seq<nat> :: ArePicked(results, rows, picks)
  }

  ghost predicate ArePicked(results: seq<Row>, rows: seq<Row>, picks: seq<nat>) {
    && |picks| == |results|
    && (forall i | 0 <= i < |picks| :: picks[i] < |rows| && results[i] == rows[picks[i]])
    && forall i, j | 0 <= i < j < |picks| :: picks[i] != picks[j]
  }

  /** None when the server answers with an error; the tables are then as they were. */
  function Run(db: Database, text: string, args: seq<Native>, how: Binding): Option<(Database, Reply)> {
    match Parse(text)
    case None => None
    case Some(stmt) => if Accepts(db, stmt, args, how) then Some(Execute(db, stmt, args, how)) else None
  }

  // ----- any text a client sends -----

  /** What a server does with SQL that the router does not print: the new database and the rows affected. */
  type OtherSql = (Database, string) -> Option<(Database, nat)>

  datatype Server = Server(how: Binding, other: OtherSql)

  /** Text without bound values that is outside the reader's subset, and not for being no SQL at all. */
  predicate IsOther(text: string, args: seq<Native>) {
    args == [] && Parse(text).None? && !IsMalformed(text)
  }

  function Serve(server: Server, db: Database, text: string, args: seq<Native>): Option<(Database, Reply)> {
    if !IsOther(text, args) then Run(db, text, args, server.how)
    else match server.other(db, text)
      case None => None
      case Some((db', affected)) => Some((db', Reply(affected, None)))
  }

  /** Every statement of the subset needs a value, so without one only other SQL does anything. */
  lemma WithoutValuesOnlyOtherRuns(server: Server, db: Database, text: string)
    ensures Serve(server, db, text, []).Some? ==> IsOther(text, []) && server.other(db, text).Some?
  {
    hide Parse, IsMalformed;
    if Parse(text).Some? { StatementNeedsValues(db, text, Parse(text).value, server.how); }
  }

  lemma StatementNeedsValues(db: Database, text: string, stmt: Statement, how: Binding)
    requires Parse(text) == Some(stmt)
    ensures !Accepts(db, stmt, [], how)
  {
    if stmt.Insert? {
      InsertHasValues(text);
      hide Parse;
      assert !(1 <= stmt.params[0] <= 0);
    }
  }

  lemma InsertHasValues(text: string)
    requires Parse(text).Some? && Parse(text).value.Insert?
    ensures |Parse(text).value.params| > 0
  {
    hide Lex, ReadName, ReadNames;
  }

  lemma DropRuns(server: Server, db: Database, table: string)
    requires table != ""
    requires server.other(db, DropText(table)) == Some((db - {table}, 0))
    ensures Serve(server, db, DropText(table), []) == Some((db - {table}, Reply(0, None)))
  {
    hide Parse, IsMalformed;
    DropIsOtherText(table);
  }

  lemma CallRuns(server: Server, db: Database, name: string, changed: Database, affected: nat)
    requires name != "" && IsWordStart(name[0]) && forall i | 0 <= i < |name| :: IsWordPart(name[i])
    requires server.other(db, CallText(name)) == Some((changed, affected))
    ensures Serve(server, db, CallText(name), []) == Some((changed, Reply(affected, None)))
  {
    hide Parse, IsMalformed;
    SelectCallIsOtherText(name, Text.ToLower(name));
    hide CallText;
  }

  // ----- what the router means, without text, order or numbers -----

  ghost predicate Writable(db: Database, table: string, row: Row, how: Binding) {
    row != map[] && "" !in row && table in db && row.Keys <= db[table].defaults.Keys && TakesAll(how, row)
  }

  /** One more row: the given values over the table's defaults. */
  ghost function InsertEffect(db: Database, table: string, row: Row, returning: bool, how: Binding):
    Option<(Database, Reply)>
  {
    if Writable(db, table, row, how) && (returning ==> "id" in db[table].defaults) then
      var t := db[table];
      var added := t.defaults + row;
      Some((db[table := t.(rows := t.rows + [added])],
            Reply(1, if returning then Some(added["id"]) else None)))
    else None
  }

  /** The given values over exactly the rows whose old id is the given one. */
  ghost function UpdateEffect(db: Database, table: string, id: Native, row: Row, how: Binding):
    Option<(Database, Reply)>
  {
    if Writable(db, table, row, how) && "id" in db[table].defaults then
      var t := db[table];
      Some((db[table := t.(rows := Overlay(t.rows, "id", id, row, how))],
            Reply(CountSelected(t.rows, "id", id, how), None)))
    else None
  }

  ghost function DeleteEffect(db: Database, table: string, id: Native, how: Binding): Option<(Database, Reply)> {
    if table in db && "id" in db[table].defaults then
      var t := db[table];
      Some((db[table := t.(rows := Unselected(t.rows, "id", id, how))],
            Reply(CountSelected(t.rows, "id", id, how), None)))
    else None
  }

  // ----- the two agree -----

  lemma {:induction false} BindIsRow(names: seq<string>, params: seq<nat>, args: seq<Native>, row: Row)
    requires |names| == |params| && ParamsInRange(params, |args|)
    requires forall i | 0 <= i < |names| :: names[i] in row && args[params[i] - 1] == row[names[i]]
    ensures Bind(names, params, args) == map k | k in names :: row[k]
  {
    if names != [] {
      BindIsRow(names[1..], params[1..], args, row);
      assert Bind(names, params, args) == map[names[0] := row[names[0]]] + Bind(names[1..], params[1..], args);
      hide *;
      FirstName(names, row);
    }
  }

  lemma FirstName(names: seq<string>, row: Row)
    requires names != [] && forall i | 0 <= i < |names| :: names[i] in row
    ensures map[names[0] := row[names[0]]] + (map k | k in names[1..] :: row[k]) == map k | k in names :: row[k]
  {
    assert forall k :: k in names <==> k == names[0] || k in names[1..];
  }

  lemma OrderCoversRow(order: seq<string>, row: Row)
    requires IsOrderOf(order, row)
    ensures (map k | k in order :: row[k]) == row
  {
  }

  lemma BoundValue(order: seq<string>, row: Row, args: seq<Native>, i: nat)
    requires IsOrderOf(order, row) && i < |order|
    requires |order| <= |args| && args[..|order|] == ValuesOf(order, row)
    ensures Count(1, |order|)[i] == i + 1
    ensures order[i] in row && args[i] == row[order[i]]
  {
    assert args[..|order|][i] == args[i];
  }

  lemma OrderBinds(order: seq<string>, row: Row, args: seq<Native>)
    requires IsOrderOf(order, row)
    requires |order| <= |args| && args[..|order|] == ValuesOf(order, row)
    ensures ParamsInRange(Count(1, |order|), |args|)
    ensures Bind(order, Count(1, |order|), args) == row
  {
    var params := Count(1, |order|);
    forall i: nat | i < |order| ensures params[i] == i + 1 && order[i] in row && args[i] == row[order[i]] {
      BoundValue(order, row, args, i);
    }
    OrderCoversRow(order, row);
    hide *;
    BoundInOrder(order, params, args, row);
  }

  lemma BoundInOrder(order: seq<string>, params: seq<nat>, args: seq<Native>, row: Row)
    requires |order| == |params| <= |args|
    requires forall i: nat | i < |order| :: params[i] == i + 1 && order[i] in row && args[i] == row[order[i]]
    ensures ParamsInRange(params, |args|)
    ensures Bind(order, params, args) == map k | k in order :: row[k]
  {
    hide Bind;
    BindIsRow(order, params, args, row);
  }

  lemma CountCovers(n: nat, i: nat)
    requires 1 <= i <= n
    ensures i in Count(1, n)
  {
    assert Count(1, n)[i - 1] == i;
  }

  lemma OrderTakes(order: seq<string>, row: Row, how: Binding)
    requires IsOrderOf(order, row)
    ensures TakesAll(how, row) <==> forall i | 0 <= i < |order| :: Takes(how, ValuesOf(order, row)[i])
  {
    hide Takes;
    var vals := ValuesOf(order, row);
    if forall i | 0 <= i < |order| :: Takes(how, vals[i]) {
      forall k | k in row ensures Takes(how, row[k]) {
        var i :| 0 <= i < |order| && order[i] == k;
        assert vals[i] == row[k];
      }
    }
  }

  /** Running the printed INSERT is the intended insertion, for every iteration order. */
  lemma InsertRuns(db: Database, table: string, row: Row, order: seq<string>, returning: bool, how: Binding)
    requires IsValidIdentifier(table) && IsOrderOf(order, row)
    ensures Run(db, InsertText(table, order, returning), ValuesOf(order, row), how)
         == InsertEffect(db, table, row, returning, how)
  {
    hide Parse, Takes, TakesAll;
    var args := ValuesOf(order, row);
    InsertRoundTrip(table, order, returning);
    OrderTakes(order, row, how);
    if order == [] {
      assert row == map[];
    } else if "" !in order {
      assert order[0] in row;
      var stmt := InsertOf(table, order, returning);
      OrderBinds(order, row, args);
      forall i | 1 <= i <= |args| ensures i in stmt.params { CountCovers(|order|, i); }
      if table in db {
        var columns := db[table].defaults.Keys;
        assert row.Keys <= columns <==> forall k | k in order :: k in columns;
      }
      assert Accepts(db, stmt, args, how) <==> InsertEffect(db, table, row, returning, how).Some?;
    }
  }

  lemma TakesWithId(vals: seq<Native>, id: string, how: Binding)
    ensures (forall i | 0 <= i < |vals| + 1 :: Takes(how, (vals + [Str(id)])[i]))
       <==> forall i | 0 <= i < |vals| :: Takes(how, vals[i])
  {
    var all := vals + [Str(id)];
    assert forall i | 0 <= i < |vals| :: all[i] == vals[i];
    assert Takes(how, all[|vals|]);
    hide Takes;
  }

  lemma UpdateIsAccepted(db: Database, table: string, id: string, row: Row, order: seq<string>, how: Binding)
    requires IsOrderOf(order, row) && row != map[] && "" !in row
    ensures var args := ValuesOf(order, row) + [Str(id)];
            Accepts(db, UpdateOf(table, order), args, how) <==> UpdateEffect(db, table, Str(id), row, how).Some?
  {
    var args := ValuesOf(order, row) + [Str(id)];
    assert args[..|order|] == ValuesOf(order, row);
    OrderTakes(order, row, how);
    TakesWithId(ValuesOf(order, row), id, how);
    var stmt := UpdateOf(table, order);
    OrderBinds(order, row, args);
    hide Takes, TakesAll, Bind, Overlay, CountSelected;
    forall i | 1 <= i <= |args| ensures i in stmt.params || i == stmt.keyParam {
      if i <= |order| { CountCovers(|order|, i); }
    }
    if table in db {
      var columns := db[table].defaults.Keys;
      assert row.Keys <= columns <==> forall k | k in order :: k in columns;
    }
  }

  /** Running the printed UPDATE is the intended overlay, for every iteration order. */
  lemma UpdateRuns(db: Database, table: string, id: string, row: Row, order: seq<string>, how: Binding)
    requires IsValidIdentifier(table) && IsOrderOf(order, row)
    requires row != map[]
    ensures Run(db, UpdateText(table, order), ValuesOf(order, row) + [Str(id)], how)
         == UpdateEffect(db, table, Str(id), row, how)
  {
    hide Parse, TakesAll, Takes;
    var args := ValuesOf(order, row) + [Str(id)];
    assert args[..|order|] == ValuesOf(order, row);
    var k :| k in row;
    assert k in order;
    UpdateRoundTrip(table, order);
    if "" !in order {
      UpdateIsAccepted(db, table, id, row, order, how);
      OrderBinds(order, row, args);
      hide Bind, Overlay, CountSelected, UpdateText;
    }
  }

  lemma DeleteRuns(db: Database, table: string, id: string, how: Binding)
    requires IsValidIdentifier(table)
    ensures Run(db, DeleteText(table), [Str(id)], how) == DeleteEffect(db, table, Str(id), how)
  {
    hide Parse;
    DeleteRoundTrip(table);
  }

  /** The server runs what the router prints, the empty INSERT included, as the reader reads it. */
  lemma PrintedInsertIsRead(server: Server, db: Database, table: string, row: Row, order: seq<string>, returning: bool)
    requires IsValidIdentifier(table) && IsOrderOf(order, row)
    ensures Serve(server, db, InsertText(table, order, returning), ValuesOf(order, row))
         == InsertEffect(db, table, row, returning, server.how)
  {
    hide Run, Parse, IsMalformed;
    if order == [] { EmptyInsertIsMalformed(table, order, returning); }
    InsertRuns(db, table, row, order, returning, server.how);
  }

  /** Two iteration orders of one row: different text and values, the same effect on every database. */
  lemma OrderDoesNotMatter(db: Database, table: string, id: string, row: Row, a: seq<string>, b: seq<string>,
                           returning: bool, how: Binding)
    requires IsValidIdentifier(table) && IsOrderOf(a, row) && IsOrderOf(b, row)
    ensures Run(db, InsertText(table, a, returning), ValuesOf(a, row), how)
         == Run(db, InsertText(table, b, returning), ValuesOf(b, row), how)
    ensures row != map[] ==>
      Run(db, UpdateText(table, a), ValuesOf(a, row) + [Str(id)], how)
      == Run(db, UpdateText(table, b), ValuesOf(b, row) + [Str(id)], how)
  {
    hide Run;
    InsertRuns(db, table, row, a, returning, how);
    InsertRuns(db, table, row, b, returning, how);
    if row != map[] {
      UpdateRuns(db, table, id, row, a, how);
      UpdateRuns(db, table, id, row, b, how);
    }
  }

  /** Where the first INSERT would have succeeded, the fallback without RETURNING leaves the same database. */
  lemma FallbackInsertsTheSameRow(db: Database, table: string, row: Row, order: seq<string>, how: Binding)
    requires IsValidIdentifier(table) && IsOrderOf(order, row)
    requires Run(db, InsertText(table, order, true), ValuesOf(order, row), how).Some?
    ensures var first := Run(db, InsertText(table, order, true), ValuesOf(order, row), how);
            var second := Run(db, InsertText(table, order, false), ValuesOf(order, row), how);
            second.Some? && second.value.0 == first.value.0
  {
    hide Run;
    InsertRuns(db, table, row, order, true, how);
    InsertRuns(db, table, row, order, false, how);
  }

  /** On a table without an id column the first INSERT always fails, and the fallback fails unless the row fits. */
  lemma FallbackServesTablesWithoutId(db: Database, table: string, row: Row, order: seq<string>, how: Binding)
    requires IsValidIdentifier(table) && IsOrderOf(order, row)
    requires table in db && "id" !in db[table].defaults
    ensures Run(db, InsertText(table, order, true), ValuesOf(order, row), how).None?
    ensures Run(db, InsertText(table, order, false), ValuesOf(order, row), how).Some? <==> Writable(db, table, row, how)
  {
    hide Run;
    InsertRuns(db, table, row, order, true, how);
    InsertRuns(db, table, row, order, false, how);
  }

  // ----- what the effects leave, row by row and column by column -----

  ghost predicate HasId(row: Row, id: Native, how: Binding) { "id" in row && how.equal(row["id"], id) }

  ghost predicate CanBind(v: Native, how: Binding) {
    match v
    case Record(_) => how.accepts(v)
    case List(_) => how.accepts(v)
    case Other(_) => how.accepts(v)
    case _ => true
  }

  /** The row has columns of the table only, at least one, none without a name, and values that can be bound. */
  ghost predicate CanStore(db: Database, table: string, row: Row, how: Binding) {
    && table in db && |row| > 0
    && forall k | k in row :: k != "" && k in db[table].defaults && CanBind(row[k], how)
  }

  lemma WritableIsStorable(db: Database, table: string, row: Row, how: Binding)
    ensures Writable(db, table, row, how) <==> CanStore(db, table, row, how)
    ensures CanStore(db, table, row, how) ==> table in db
  {
    assert row != map[] <==> |row| > 0;
    forall k | k in row ensures Takes(how, row[k]) <==> CanBind(row[k], how) {}
    hide Takes, CanBind;
  }

  lemma OneTableChanges(db: Database, table: string, rows: seq<Row>)
    requires table in db
    ensures OnlyRowsChange(db, db[table := db[table].(rows := rows)], table)
  {
  }

  ghost predicate OnlyRowsChange(before: Database, after: Database, table: string) {
    && table in before && after.Keys == before.Keys
    && after[table].defaults == before[table].defaults
    && forall name | name in before && name != table :: after[name] == before[name]
  }

  /** Every column that is given has the given value, every other one its value from below. */
  ghost predicate LaidOver(result: Row, given: Row, below: Row) {
    && (forall k :: k in result <==> k in given || k in below)
    && (forall k | k in given :: k in result && result[k] == given[k])
    && (forall k | k in below && k !in given :: k in result && result[k] == below[k])
  }

  /** An insertion succeeds exactly for a row the table can store, and puts one row behind the others. */
  lemma InsertLeaves(db: Database, table: string, row: Row, returning: bool, how: Binding)
    ensures var out := InsertEffect(db, table, row, returning, how);
            && (out.Some? <==> CanStore(db, table, row, how) && (returning ==> "id" in db[table].defaults))
            && (out.Some? ==>
                  && var rows, after := db[table].rows, out.value.0;
                  && OnlyRowsChange(db, after, table)
                  && |after[table].rows| == |rows| + 1 && after[table].rows[..|rows|] == rows
                  && var added := after[table].rows[|rows|];
                  && LaidOver(added, row, db[table].defaults)
                  && out.value.1.affected == 1
                  && out.value.1.returned == if returning then Some(added["id"]) else None)
  {
    WritableIsStorable(db, table, row, how);
    hide Writable, CanStore;
  }

  /**
   An update succeeds exactly for a row that a table with an id column can store. It keeps the rows'
   number and order, lays the given values over exactly the rows of the id, and counts those.
   */
  lemma UpdateLeaves(db: Database, table: string, id: Native, row: Row, how: Binding)
    ensures var out := UpdateEffect(db, table, id, row, how);
            && (out.Some? <==> CanStore(db, table, row, how) && "id" in db[table].defaults)
            && (out.Some? ==>
                  && var rows, after := db[table].rows, out.value.0;
                  && OnlyRowsChange(db, after, table)
                  && |after[table].rows| == |rows|
                  && (forall i | 0 <= i < |rows| ::
                        if HasId(rows[i], id, how) then LaidOver(after[table].rows[i], row, rows[i])
                        else after[table].rows[i] == rows[i])
                  && out.value.1.affected == |Holders(rows, id, how)|)
  {
    WritableIsStorable(db, table, row, how);
    hide Writable, CanStore;
    if table in db {
      OneTableChanges(db, table, Overlay(db[table].rows, "id", id, row, how));
      CountIsSize(db[table].rows, "id", id, how);
      OverlayLaysOver(db[table].rows, "id", id, row, how);
    }
    hide CountSelected, Overlay, Holders, HasId, LaidOver, OnlyRowsChange;
  }

  lemma OverlayLaysOver(rows: seq<Row>, key: string, id: Native, row: Row, how: Binding)
    requires key == "id"
    ensures forall i | 0 <= i < |rows| ::
              if HasId(rows[i], id, how) then LaidOver(Overlay(rows, key, id, row, how)[i], row, rows[i])
              else Overlay(rows, key, id, row, how)[i] == rows[i]
  {
    forall i | 0 <= i < |rows| ensures Selected(rows[i], key, id, how) <==> HasId(rows[i], id, how) {}
    hide HasId, Selected;
  }

  lemma {:induction false} CountAppended(rows: seq<Row>, row: Row, key: string, value: Native, how: Binding)
    ensures CountSelected(rows + [row], key, value, how)
         == CountSelected(rows, key, value, how) + if Selected(row, key, value, how) then 1 else 0
  {
    hide Selected;
    if rows == [] {
      assert (rows + [row])[1..] == [];
    } else {
      assert (rows + [row])[1..] == rows[1..] + [row];
      CountAppended(rows[1..], row, key, value, how);
    }
  }

  ghost function Holders(rows: seq<Row>, id: Native, how: Binding): set<int> {
    set i | 0 <= i < |rows| && HasId(rows[i], id, how)
  }

  lemma HoldersAppended(rows: seq<Row>, row: Row, id: Native, how: Binding)
    ensures |Holders(rows + [row], id, how)| == |Holders(rows, id, how)| + if HasId(row, id, how) then 1 else 0
  {
    hide HasId;
    var n, all := |rows|, rows + [row];
    var before, after := Holders(rows, id, how), Holders(all, id, how);
    forall i ensures i in after <==> i in before || (i == n && HasId(row, id, how)) {
      if 0 <= i < n { assert all[i] == rows[i]; }
    }
    hide Holders;
    if HasId(row, id, how) { assert after == before + {n}; } else { assert after == before; }
    assert n !in before by { NotBeyond(rows, id, how); }
  }

  lemma NotBeyond(rows: seq<Row>, id: Native, how: Binding)
    ensures |rows| !in Holders(rows, id, how)
  {
  }

  lemma {:induction false} CountIsSize(rows: seq<Row>, key: string, id: Native, how: Binding)
    requires key == "id"
    ensures CountSelected(rows, key, id, how) == |Holders(rows, id, how)|
  {
    if rows == [] {
      assert Holders(rows, id, how) == {};
    } else {
      var n := |rows| - 1;
      var before := rows[..n];
      assert before + [rows[n]] == rows;
      assert Selected(rows[n], key, id, how) <==> HasId(rows[n], id, how);
      hide *;
      CountIsSize(before, key, id, how);
      CountAppended(before, rows[n], key, id, how);
      HoldersAppended(before, rows[n], id, how);
    }
  }

  /** The kept rows are those at the given positions, in order, and these are all that lack the id. */
  ghost predicate KeepsOthers(kept: seq<Row>, rows: seq<Row>, id: Native, how: Binding, p: seq<nat>) {
    && |p| == |kept|
    && (forall i | 0 <= i < |p| :: p[i] < |rows| && kept[i] == rows[p[i]] && !HasId(rows[p[i]], id, how))
    && (forall i, j | 0 <= i < j < |p| :: p[i] < p[j])
    && (forall i: nat | i < |rows| && !HasId(rows[i], id, how) :: i in p)
  }

  lemma {:induction false} KeptAppended(rows: seq<Row>, row: Row, key: string, value: Native, how: Binding)
    ensures Unselected(rows + [row], key, value, how)
         == Unselected(rows, key, value, how) + if Selected(row, key, value, how) then [] else [row]
  {
    hide Selected;
    if rows == [] {
      assert (rows + [row])[1..] == [];
    } else {
      assert (rows + [row])[1..] == rows[1..] + [row];
      KeptAppended(rows[1..], row, key, value, how);
    }
  }

  lemma KeepsSkipping(kept: seq<Row>, rows: seq<Row>, row: Row, id: Native, how: Binding, p: seq<nat>)
    requires KeepsOthers(kept, rows, id, how, p) && HasId(row, id, how)
    ensures KeepsOthers(kept, rows + [row], id, how, p)
  {
    hide HasId;
    var all := rows + [row];
    forall i: nat | i < |all| && !HasId(all[i], id, how) ensures i in p {
      assert i < |rows| && all[i] == rows[i];
    }
    forall i | 0 <= i < |p| ensures all[p[i]] == rows[p[i]] {}
  }

  lemma KeepsOneMore(kept: seq<Row>, rows: seq<Row>, row: Row, id: Native, how: Binding, p: seq<nat>)
    requires KeepsOthers(kept, rows, id, how, p) && !HasId(row, id, how)
    ensures KeepsOthers(kept + [row], rows + [row], id, how, p + [|rows|])
  {
    hide HasId;
    var n, all, q, more := |rows|, rows + [row], p + [|rows|], kept + [row];
    forall i | 0 <= i < |q| ensures q[i] < |all| && more[i] == all[q[i]] && !HasId(all[q[i]], id, how) {
      if i < |p| { assert q[i] == p[i] && more[i] == kept[i] && all[p[i]] == rows[p[i]]; }
    }
    forall i, j | 0 <= i < j < |q| ensures q[i] < q[j] {
      assert q[i] == p[i] && p[i] < n;
    }
    forall i: nat | i < |all| && !HasId(all[i], id, how) ensures i in q {
      if i < n { assert all[i] == rows[i] && i in p; } else { assert q[|p|] == i; }
    }
  }

  lemma KeepsAppended(kept: seq<Row>, rows: seq<Row>, row: Row, id: Native, how: Binding, p: seq<nat>)
    requires KeepsOthers(kept, rows, id, how, p)
    ensures HasId(row, id, how) ==> KeepsOthers(kept, rows + [row], id, how, p)
    ensures !HasId(row, id, how) ==> KeepsOthers(kept + [row], rows + [row], id, how, p + [|rows|])
  {
    hide HasId, KeepsOthers;
    if HasId(row, id, how) {
      KeepsSkipping(kept, rows, row, id, how, p);
    } else {
      KeepsOneMore(kept, rows, row, id, how, p);
    }
  }

  lemma {:induction false} KeptPositions(rows: seq<Row>, key: string, id: Native, how: Binding) returns (p: seq<nat>)
    requires key == "id"
    ensures KeepsOthers(Unselected(rows, key, id, how), rows, id, how, p)
  {
    if rows == [] {
      p := [];
    } else {
      var n := |rows| - 1;
      var before := rows[..n];
      assert before + [rows[n]] == rows;
      assert Selected(rows[n], key, id, how) <==> HasId(rows[n], id, how);
      var none: seq<Row> := [];
      var kept := Unselected(before, key, id, how);
      assert kept + none == kept;
      hide *;
      p := KeptPositions(before, key, id, how);
      KeptAppended(before, rows[n], key, id, how);
      KeepsAppended(kept, before, rows[n], id, how, p);
      if !HasId(rows[n], id, how) { p := p + [n]; }
    }
  }

  /** A deletion succeeds exactly on a table with an id column, and leaves exactly the rows of other ids, in order. */
  lemma DeleteLeaves(db: Database, table: string, id: Native, how: Binding) returns (p: seq<nat>)
    ensures var out := DeleteEffect(db, table, id, how);
            && (out.Some? <==> table in db && "id" in db[table].defaults)
            && (out.Some? ==>
                  && var rows, after := db[table].rows, out.value.0;
                  && OnlyRowsChange(db, after, table)
                  && KeepsOthers(after[table].rows, rows, id, how, p)
                  && out.value.1.affected == |Holders(rows, id, how)|)
  {
    p := [];
    if table in db {
      OneTableChanges(db, table, Unselected(db[table].rows, "id", id, how));
      p := KeptPositions(db[table].rows, "id", id, how);
      CountIsSize(db[table].rows, "id", id, how);
    }
    hide CountSelected, Unselected, HasId, Holders, KeepsOthers, OnlyRowsChange;
  }

  lemma OrderHasRowsSize(order: seq<string>, row: Row)
    requires IsOrderOf(order, row)
    ensures |order| == |row|
  {
    NamesAreAsManyAs(order, row.Keys);
  }

  lemma {:induction false} NamesAreAsManyAs(names: seq<string>, all: set<string>)
    requires Distinct(names) && forall k :: k in names <==> k in all
    ensures |names| == |all|
  {
    if names != [] {
      var n := |names| - 1;
      forall k ensures k in names[..n] <==> k in all - {names[n]} {
        if k in names && k != names[n] {
          var i :| 0 <= i < |names| && names[i] == k;
          assert names[..n][i] == k;
        }
      }
      NamesAreAsManyAs(names[..n], all - {names[n]});
    } else {
      assert all == {};
    }
  }

  // ----- what a deletion removes -----

  /** Every row is kept or counted as deleted; an unselected one is kept as often as it is stored, no other one is. */
  lemma {:induction false} DeletionPartitions(rows: seq<Row>, key: string, value: Native, how: Binding)
    ensures |Unselected(rows, key, value, how)| + CountSelected(rows, key, value, how) == |rows|
    ensures forall row :: multiset(Unselected(rows, key, value, how))[row]
                       == if Selected(row, key, value, how) then 0 else multiset(rows)[row]
  {
    if rows != [] {
      hide Selected;
      DeletionPartitions(rows[1..], key, value, how);
      assert rows == [rows[0]] + rows[1..];
    }
  }

  // ----- one call undoes another -----

  lemma {:induction false} NothingSelected(rows: seq<Row>, added: Row, key: string, value: Native, how: Binding)
    requires forall row | row in rows :: !Selected(row, key, value, how)
    requires Selected(added, key, value, how)
    ensures Unselected(rows + [added], key, value, how) == rows
    ensures CountSelected(rows + [added], key, value, how) == 1
  {
    if rows == [] {
      assert (rows + [added])[1..] == [];
    } else {
      assert (rows + [added])[1..] == rows[1..] + [added];
      NothingSelected(rows[1..], added, key, value, how);
    }
  }

  /** Deleting the id of a row just inserted under an unused id gives back the database before. */
  lemma DeleteUndoesInsert(db: Database, table: string, row: Row, order: seq<string>, returning: bool, id: string,
                           how: Binding)
    requires IsValidIdentifier(table) && IsOrderOf(order, row)
    requires Run(db, InsertText(table, order, returning), ValuesOf(order, row), how).Some?
    requires "id" in row && how.equal(row["id"], Str(id))
    requires table in db
    requires forall present | present in db[table].rows :: !Selected(present, "id", Str(id), how)
    ensures var db' := Run(db, InsertText(table, order, returning), ValuesOf(order, row), how).value.0;
            var undone := Run(db', DeleteText(table), [Str(id)], how);
            undone.Some? && undone.value.0 == db && undone.value.1.affected == 1
  {
    hide Run;
    InsertRuns(db, table, row, order, returning, how);
    var db' := InsertEffect(db, table, row, returning, how).value.0;
    DeleteRuns(db', table, id, how);
    var rows := db[table].rows;
    var added := db[table].defaults + row;
    NothingSelected(rows, added, "id", Str(id), how);
    assert db'[table := db'[table].(rows := rows)] == db;
  }

  // ----- what no statement can do -----

  /** Every row has exactly its table's columns. */
  ghost predicate WellFormed(db: Database) {
    forall name, i | name in db && 0 <= i < |db[name].rows| :: db[name].rows[i].Keys == db[name].defaults.Keys
  }

  lemma {:induction false} BoundNames(names: seq<string>, params: seq<nat>, args: seq<Native>)
    requires |names| == |params| && ParamsInRange(params, |args|)
    ensures Bind(names, params, args).Keys == set k | k in names
  {
    if names != [] {
      BoundNames(names[1..], params[1..], args);
      assert forall k :: k in names <==> k == names[0] || k in names[1..];
    }
  }

  /** If the statement runs, only its table changes, and that keeps its columns, in every row. */
  ghost predicate KeepsShape(db: Database, table: string, out: Option<(Database, Reply)>) {
    out.Some? ==>
      && var db' := out.value.0;
      && WellFormed(db') && db'.Keys == db.Keys
      && (forall name | name in db :: db'[name].defaults == db[name].defaults)
      && (forall name | name in db && name != table :: db'[name] == db[name])
  }

  /** A statement of the subset keeps the shape of the database. */
  lemma RunKeepsShape(db: Database, text: string, args: seq<Native>, how: Binding)
    requires WellFormed(db) && Parse(text).Some?
    ensures KeepsShape(db, Parse(text).value.table, Run(db, text, args, how))
  {
    hide Parse;
    var stmt := Parse(text).value;
    if Accepts(db, stmt, args, how) {
      if stmt.Insert? || stmt.Update? {
        BoundNames(stmt.columns, stmt.params, args);
      } else if stmt.Delete? {
        var db' := Run(db, text, args, how).value.0;
        forall i | 0 <= i < |db'[stmt.table].rows|
          ensures db'[stmt.table].rows[i].Keys == db[stmt.table].defaults.Keys
        {
          assert db'[stmt.table].rows[i] in db[stmt.table].rows;
        }
      }
    }
  }

  /**
   Whatever the row and its iteration order, the statements the router prints change no table but
   the one that is named, and leave every row with exactly its table's columns.
   */
  lemma RouterKeepsShape(db: Database, table: string, id: string, row: Row, order: seq<string>, returning: bool,
                         how: Binding)
    requires WellFormed(db) && IsValidIdentifier(table) && IsOrderOf(order, row)
    ensures KeepsShape(db, table, Run(db, InsertText(table, order, returning), ValuesOf(order, row), how))
    ensures row != map[] ==>
              KeepsShape(db, table, Run(db, UpdateText(table, order), ValuesOf(order, row) + [Str(id)], how))
    ensures KeepsShape(db, table, Run(db, DeleteText(table), [Str(id)], how))
  {
    InsertRoundTrip(table, order, returning);
    if order != [] { UpdateRoundTrip(table, order); }
    assert row != map[] ==> order != [] by { if k :| k in row { assert k in order; } }
    DeleteRoundTrip(table);
    var insert, update, delete := InsertText(table, order, returning), UpdateText(table, order), DeleteText(table);
    Unreadable(db, insert, ValuesOf(order, row), how);
    Unreadable(db, update, ValuesOf(order, row) + [Str(id)], how);
    hide Run, Parse, KeepsShape, InsertText, UpdateText, DeleteText;
    if Parse(insert).Some? { RunKeepsShape(db, insert, ValuesOf(order, row), how); }
    if order != [] && Parse(update).Some? { RunKeepsShape(db, update, ValuesOf(order, row) + [Str(id)], how); }
    RunKeepsShape(db, delete, [Str(id)], how);
  }

  lemma Unreadable(db: Database, text: string, args: seq<Native>, how: Binding)
    ensures forall table | Parse(text).None? :: KeepsShape(db, table, Run(db, text, args, how))
  {
    hide Parse;
  }
}
