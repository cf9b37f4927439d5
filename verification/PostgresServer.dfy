/**
 internal/server/postgres_server.go: the service calls behind the wire, with requests unpacked,
 defaults applied, errors classified and results packed.
 */
module PostgresServer {
  import Text
  import opened Wrappers
  import opened Values
  import opened Errors
  import opened Convert
  import opened RowAssembly
  import opened ConnectionString
  import opened Endpoints
  import opened SqlBuilder
  import opened SqlSemantics
  import opened Manager
  import Lifecycle
  import Requests
  import opened QueryText
  import opened PostgresService

  datatype QueryResponse = QueryResponse(columns: seq<string>, rows: Rows, rowsAffected: nat, message: string)

  datatype InsertResponse = InsertResponse(insertedId: string, message: string)

  /** The phrase is looked for anywhere in the message. */
  lemma BadInputCode(phrase: string, after: string)
    requires phrase == "invalid table name" || phrase == "no data to update" || phrase == "limit must be"
    ensures ToStatus(Worded(phrase + after)).code == InvalidArgument
  {
    hide Text.Contains;
    Text.ContainsInContext("", phrase, after);
    assert "" + phrase + after == phrase + after;
  }

  lemma RefusalCodes()
    ensures ToStatus(Worded("invalid table name")).code == InvalidArgument
    ensures ToStatus(Worded("no data to update")).code == InvalidArgument
    ensures ToStatus(Worded("limit must be between 1 and 10000")).code == InvalidArgument
  {
    hide ToStatus;
    var table, data, limit, range := "invalid table name", "no data to update", "limit must be", " between 1 and 10000";
    BadInputCode(table, "");
    BadInputCode(data, "");
    BadInputCode(limit, range);
    assert table + "" == table && data + "" == data;
    assert limit + range == "limit must be between 1 and 10000";
  }

  /** The response packs rows that were selected, in order. */
  ghost predicate Reports(response: Rows, t: Table, limit: nat, cursor: Contents, format: Format) {
    exists rows :: Selects(rows, t, limit, cursor) && Packs(response.data, rows, format)
  }

  /** The response packs the scannable records of a cursor, in order, and counts them. */
  ghost predicate ReportsCursor(response: QueryResponse, cursor: Contents, format: Format) {
    && response.columns == cursor.0 && response.rows.count == |response.rows.data|
    && exists rows :: Assembles(rows, cursor.0, cursor.1) && Packs(response.rows.data, rows, format)
  }

  class PostgresServer {
    const svc: PostgresService

    constructor (svc: PostgresService)
      ensures this.svc == svc
    {
      this.svc := svc;
    }

    /** Rows for a reading query, the affected count and a message for any other one. */
    method ExecuteQuery(query: string, database: string, format: Format) returns (r: Result<QueryResponse, Status>)
      requires svc.Valid()
      modifies svc.db.driver`s, svc.db.driver`target, svc.db.driver`dialed, svc.db.driver`pinged
      modifies svc.db.driver`contents, svc.db.driver`databases
      modifies svc.db.driver`faults, svc.db.driver`log, svc.db.driver`queried, svc.db.driver`unnamed
      ensures svc.Restored()
      ensures svc.Performed(database, if IsSelect(query) then Lifecycle.Reads else Lifecycle.Writes, false)
      ensures svc.db.postgresDB.None? ==>
                r.Err? && r.error.code == Unavailable && svc.db.driver.log == old(svc.db.driver.log)
      ensures svc.SentAtMost(Sent(svc.Target(database), Text.TrimSpace(query), []))
      ensures IsSelect(query) ==> (r.Ok? <==> svc.Queried() && svc.db.driver.unnamed == old(svc.db.driver.unnamed))
      ensures svc.Queried() ==>
                && IsSelect(query)
                && BecameOf(old(svc.db.driver.databases), svc.db.driver.databases, svc.Target(database),
                            Running(old(svc.db.driver.databases), svc.Target(database), Text.TrimSpace(query), [],
                                    svc.db.driver.server))
      ensures r.Err? && !svc.Queried() ==> svc.db.driver.databases == old(svc.db.driver.databases)
      ensures r.Err? && svc.NoFaults() && svc.db.postgresDB.Some? ==>
                Running(old(svc.db.driver.databases), svc.Target(database), Text.TrimSpace(query), [],
                        svc.db.driver.server).None?
      ensures r.Ok? ==>
                && r.value.message == (if IsSelect(query) then "" else "Command executed successfully")
                && svc.db.driver.log == old(svc.db.driver.log) + [Sent(svc.Target(database), Text.TrimSpace(query), [])]
                && BecameOf(old(svc.db.driver.databases), svc.db.driver.databases, svc.Target(database),
                            Running(old(svc.db.driver.databases), svc.Target(database), Text.TrimSpace(query), [],
                                    svc.db.driver.server))
      ensures r.Ok? && IsSelect(query) ==>
                r.value.rowsAffected == 0 && svc.HasCursor() && ReportsCursor(r.value, svc.LastCursor(), format)
      ensures r.Ok? && !IsSelect(query) ==>
                && r.value.rows == Rows([], 0)
                && Became(old(svc.db.driver.databases), svc.db.driver.databases, svc.Target(database),
                          Running(old(svc.db.driver.databases), svc.Target(database), Text.TrimSpace(query), [],
                                  svc.db.driver.server),
                          r.value.rowsAffected)
    {
      hide IsSelect, Assembles, Packs, Running, Became, BecameOf, Text.TrimSpace, IsBadInput, Print, EndpointOf;
      hide Requests.Performs;
      var got := svc.ExecuteQuery(query, database);
      match got {
        case Err(e) => return Err(ToStatus(e));
        case Ok(Selection(columns, rows, _)) =>
          var packed := ToResponse(rows, format);
          return Ok(QueryResponse(columns, packed, 0, ""));
        case Ok(Affected(n)) =>
          return Ok(QueryResponse([], Rows([], 0), n, "Command executed successfully"));
      }
    }

    /**
     On success the row of the wire fields was inserted, and the id or, without one, a message is
     reported; an error without faults means a refusal or a row that does not fit the table.
     */
    method InsertData(database: string, table: string, data: Fields, format: Format)
      returns (r: Result<InsertResponse, Status>)
      requires svc.Valid()
      modifies svc.db.driver`s, svc.db.driver`target, svc.db.driver`dialed, svc.db.driver`pinged
      modifies svc.db.driver`databases, svc.db.driver`faults, svc.db.driver`log
      ensures svc.Restored() && svc.Performed(database, Lifecycle.Inserts, !IsValidIdentifier(table))
      ensures r.Err? ==> svc.db.driver.databases == old(svc.db.driver.databases)
      ensures svc.db.postgresDB.None? ==> r.Err? && r.error.code == Unavailable
      ensures svc.db.postgresDB.Some? && !IsValidIdentifier(table) ==> r.Err? && r.error.code == InvalidArgument
      ensures r.Err? && svc.NoFaults() && svc.db.postgresDB.Some? && IsValidIdentifier(table) ==>
                Inserting(old(svc.db.driver.databases), svc.Target(database), table, ProtoToRow(data), false,
                          svc.db.driver.server).None?
      ensures r.Ok? ==>
                && r.value.message == (if r.value.insertedId == "" then "Row inserted successfully" else "")
                && exists returning ::
                     && Inserted(old(svc.db.driver.databases), svc.db.driver.databases, svc.Target(database), table,
                                 ProtoToRow(data), returning, r.value.insertedId, svc.db.driver.server, format)
                     && (svc.NoFaults() ==>
                           returning == HasIdColumn(old(svc.db.driver.databases), svc.Target(database), table))
    {
      var row := ProtoFieldsToRow(data);
      var got := svc.InsertData(database, table, row, format);
      hide Requests.Performs, Print, EndpointOf, IsValidIdentifier, Inserted, Inserting, HasIdColumn, IsBadInput;
      match got {
        case Err(e) =>
          RefusalCodes();
          return Err(ToStatus(e));
        case Ok(id) =>
          return if id != "" then Ok(InsertResponse(id, "")) else Ok(InsertResponse("", "Row inserted successfully"));
      }
    }

    /** On success the row of the wire fields was laid over the rows of the id. */
    method UpdateData(database: string, table: string, id: string, data: Fields) returns (r: Result<nat, Status>)
      requires svc.Valid()
      modifies svc.db.driver`s, svc.db.driver`target, svc.db.driver`dialed, svc.db.driver`pinged
      modifies svc.db.driver`databases, svc.db.driver`faults, svc.db.driver`log
      ensures svc.Restored()
      ensures svc.Performed(database, Lifecycle.Writes, !IsValidIdentifier(table) || data == map[])
      ensures r.Err? ==> svc.db.driver.databases == old(svc.db.driver.databases)
      ensures svc.db.postgresDB.None? ==> r.Err? && r.error.code == Unavailable
      ensures svc.db.postgresDB.Some? && (!IsValidIdentifier(table) || data == map[]) ==>
                r.Err? && r.error.code == InvalidArgument
      ensures r.Err? && svc.NoFaults() && svc.db.postgresDB.Some? && IsValidIdentifier(table) && data != map[] ==>
                Updating(old(svc.db.driver.databases), svc.Target(database), table, id, ProtoToRow(data),
                         svc.db.driver.server).None?
      ensures r.Ok? ==>
                Became(old(svc.db.driver.databases), svc.db.driver.databases, svc.Target(database),
                       Updating(old(svc.db.driver.databases), svc.Target(database), table, id, ProtoToRow(data),
                                svc.db.driver.server), r.value)
    {
      var row := ProtoFieldsToRow(data);
      assert row.Keys == data.Keys;
      assert data == map[] <==> row == map[];
      var affected := svc.UpdateData(database, table, id, row);
      hide Requests.Performs, Print, EndpointOf, IsValidIdentifier, Updating, Became, IsBadInput;
      match affected {
        case Err(e) =>
          RefusalCodes();
          return Err(ToStatus(e));
        case Ok(n) => return Ok(n);
      }
    }

    /** An omitted limit means 100 rows; the response packs and counts the selected rows, in order. */
    method SelectData(database: string, table: string, limit: Int32, format: Format) returns (r: Result<Rows, Status>)
      requires svc.Valid()
      modifies svc.db.driver`s, svc.db.driver`target, svc.db.driver`dialed, svc.db.driver`pinged
      modifies svc.db.driver`contents, svc.db.driver`databases
      modifies svc.db.driver`faults, svc.db.driver`log, svc.db.driver`queried, svc.db.driver`unnamed
      ensures svc.Performed(database, Lifecycle.Reads, !IsValidIdentifier(table) || !(0 <= limit <= 10000))
      ensures r.Ok? <==> svc.Queried()
      ensures svc.Restored() && svc.db.driver.databases == old(svc.db.driver.databases)
      ensures svc.db.postgresDB.None? ==> r.Err? && r.error.code == Unavailable
      ensures svc.db.postgresDB.Some? && (!IsValidIdentifier(table) || !(0 <= limit <= 10000)) ==>
                r.Err? && r.error.code == InvalidArgument
      ensures r.Err? && svc.NoFaults() && svc.db.postgresDB.Some? && IsValidIdentifier(table) && 0 <= limit <= 10000 ==>
                var found := Find(svc.db.driver.databases, svc.Target(database));
                found.None? || table !in found.value
      ensures r.Ok? ==>
                var found := Find(svc.db.driver.databases, svc.Target(database));
                var n := if limit == 0 then 100 else limit;
                && found.Some? && table in found.value && 0 <= limit && svc.HasCursor()
                && r.value.count == |r.value.data|
                && (WellFormed(found.value) ==>
                      && Reports(r.value, found.value[table], n, svc.LastCursor(), format)
                      && (svc.NoFaults() ==> IsWhole(svc.LastCursor(), found.value[table], n)))
                && (svc.db.driver.unnamed > old(svc.db.driver.unnamed) && found.value[table].defaults != map[] ==>
                      r.value.data == [])
    {
      hide Requests.Performs, Print, EndpointOf, IsValidIdentifier, Selects, IsWhole, WellFormed, Packs, IsBadInput;
      var n: int := limit;
      if n == 0 {
        n := 100;
      }
      var got := svc.SelectData(database, table, n);
      match got {
        case Err(e) =>
          RefusalCodes();
          return Err(ToStatus(e));
        case Ok(rows) =>
          var response := ToResponse(rows, format);
          return Ok(response);
      }
    }

    /** On success exactly the rows of the id are gone. */
    method DeleteData(database: string, table: string, id: string) returns (r: Result<nat, Status>)
      requires svc.Valid()
      modifies svc.db.driver`s, svc.db.driver`target, svc.db.driver`dialed, svc.db.driver`pinged
      modifies svc.db.driver`databases, svc.db.driver`faults, svc.db.driver`log
      ensures svc.Restored() && svc.Performed(database, Lifecycle.Writes, !IsValidIdentifier(table))
      ensures r.Err? ==> svc.db.driver.databases == old(svc.db.driver.databases)
      ensures svc.db.postgresDB.None? ==> r.Err? && r.error.code == Unavailable
      ensures svc.db.postgresDB.Some? && !IsValidIdentifier(table) ==> r.Err? && r.error.code == InvalidArgument
      ensures r.Err? && svc.NoFaults() && svc.db.postgresDB.Some? && IsValidIdentifier(table) ==>
                Deleting(old(svc.db.driver.databases), svc.Target(database), table, id, svc.db.driver.server).None?
      ensures r.Ok? ==>
                Became(old(svc.db.driver.databases), svc.db.driver.databases, svc.Target(database),
                       Deleting(old(svc.db.driver.databases), svc.Target(database), table, id, svc.db.driver.server),
                       r.value)
    {
      hide Requests.Performs, Print, EndpointOf, IsValidIdentifier, Deleting, Became, IsBadInput;
      var affected := svc.DeleteData(database, table, id);
      match affected {
        case Err(e) =>
          RefusalCodes();
          return Err(ToStatus(e));
        case Ok(n) => return Ok(n);
      }
    }
  }
}
