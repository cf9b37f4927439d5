/**
 internal/db/database.go: the Manager that opens the shared handles at start-up, hands out shared
 or temporary PostgreSQL handles, and closes the shared ones, over drivers that can fail anywhere.
 */
module Manager {
  import opened Wrappers
  import opened Values
  import opened Sessions
  import opened ConnectionString
  import opened Endpoints
  import opened SqlBuilder
  import opened SqlSyntax
  import opened SqlSemantics
  import opened RowAssembly
  import Lifecycle

  datatype Config = Config(postgres: PostgresConfig, mongoEnabled: bool, redisEnabled: bool)

  /** One statement or query sent to the server and database behind a handle. */
  datatype Sent = Sent(to: Option<Endpoint>, text: string, args: seq<Native>)

  /** A cursor's columns and its records. */
  type Contents = (seq<string>, seq<Record>)

  /**
   What a cursor over a table gives: the columns in some order, and for each chosen row a record of
   its values. A faulty cursor may lose its columns, fail to scan a record or break off early.
   */
  ghost predicate Delivers(cursor: Contents, t: Table, limit: nat, faulty: bool) {
    exists order: seq<string>, picks: seq<nat> :: DeliversBy(cursor, t, limit, faulty, order, picks)
  }

  predicate DeliversBy(cursor: Contents, t: Table, limit: nat, faulty: bool, order: seq<string>, picks: seq<nat>) {
    var (columns, records) := cursor;
    && IsOrderOf(order, t.defaults)
    && IsSelection(picks, t.rows, limit)
    && (columns == order || (faulty && columns == []))
    && (|records| == |picks| || (faulty && |records| < |picks|))
    && forall i | 0 <= i < |records| :: Holds(records[i], order, t.rows[picks[i]]) || (faulty && records[i].None?)
  }

  /** The record is the row, column by column. */
  predicate Holds(record: Record, order: seq<string>, row: Row) {
    && record.Some? && |record.value| == |order|
    && forall i | 0 <= i < |order| :: order[i] in row && record.value[i] == row[order[i]]
  }

  lemma SelectReads(server: Server, db: Database, text: string, args: seq<Native>)
    requires Serve(server, db, text, args).Some? && Parse(text).Some? && Parse(text).value.Select?
    ensures Parse(text).value.table in db && |args| == 1 && args[0].Int? && args[0].n >= 0
  {
    hide Parse, IsMalformed;
  }

  /** The drivers and the servers behind them. A call that fails has no effect on the tables. */
  class Driver {
    var s: Sessions
    var target: map<nat, Option<Endpoint>>   // where each SQL handle is connected to
    var databases: map<Endpoint, Database>
    var contents: map<nat, Contents>         // what each cursor gives
    var faults: nat                          // how often something failed that the server would have done
    ghost var dialed: seq<string>            // the connection strings that were opened, or tried
    ghost var pinged: seq<nat>               // the handles that were asked whether they answer
    ghost var log: seq<Sent>                 // what the drivers were given to run
    ghost var queried: nat                   // how many cursors were opened
    ghost var unnamed: nat                   // how often column names could not be read
    const server: Server

    constructor (databases: map<Endpoint, Database>, server: Server)
      ensures s == Sessions(0, {}, map[], map[]) && target == map[] && faults == 0 && log == []
      ensures queried == 0 && unnamed == 0 && dialed == [] && pinged == []
      ensures this.databases == databases && this.server == server
    {
      this.s := Sessions(0, {}, map[], map[]);
      this.target := map[];
      this.databases := databases;
      this.contents := map[];
      this.faults := 0;
      this.dialed := [];
      this.pinged := [];
      this.log := [];
      this.queried := 0;
      this.unnamed := 0;
      this.server := server;
    }

    /** sql.Open, mongo.Connect or redis.NewClient */
    method Open(dsn: string, canFail: bool) returns (h: Option<nat>)
      modifies this`s, this`target, this`faults, this`dialed
      ensures dialed == old(dialed) + [dsn]
      ensures !canFail ==> h.Some?
      ensures h.None? ==> s == old(s) && target == old(target) && faults == old(faults) + 1
      ensures h.Some? ==>
                && (s, h.value) == OpenHandle(old(s)) && target == old(target)[h.value := EndpointOf(dsn)]
                && faults == old(faults)
    {
      dialed := dialed + [dsn];
      if canFail {
        if * {
          faults := faults + 1;
          return None;
        }
      }
      var (s', id) := OpenHandle(s);
      s := s';
      target := target[id := EndpointOf(dsn)];
      return Some(id);
    }

    method Ping(h: nat) returns (ok: bool)
      requires h in s.open
      modifies this`faults, this`pinged
      ensures faults == old(faults) + (if ok then 0 else 1) && pinged == old(pinged) + [h]
    {
      pinged := pinged + [h];
      ok := *;
      if !ok {
        faults := faults + 1;
      }
    }

    method Close(h: nat)
      requires h in s.open
      modifies this`s
      ensures s == CloseHandle(old(s), h)
    {
      s := CloseHandle(s, h);
    }

    function At(h: nat): Option<Endpoint>
      reads this`target
    {
      if h in target then target[h] else None
    }

    /** The database a handle reaches. */
    function Reached(h: nat): Option<Database>
      reads this`target, this`databases
    {
      if At(h).Some? && At(h).value in databases then Some(databases[At(h).value]) else None
    }

    /** What a statement would do on the database a handle reaches. */
    function Outcome(h: nat, text: string, args: seq<Native>): Option<(Database, Reply)>
      reads this`target, this`databases
    {
      match Reached(h)
      case None => None
      case Some(db) => Serve(server, db, text, args)
    }

    /** One statement with its bound values on the database the handle is connected to. */
    method Exec(h: nat, text: string, args: seq<Native>) returns (r: Option<Reply>)
      requires h in s.open
      modifies this`databases, this`faults, this`log
      ensures faults >= old(faults) && log == old(log) + [Sent(At(h), text, args)]
      ensures r.None? ==> databases == old(databases) && (faults > old(faults) || old(Outcome(h, text, args)).None?)
      ensures r.Some? ==>
                && old(Outcome(h, text, args)).Some? && faults == old(faults)
                && r.value == old(Outcome(h, text, args)).value.1
                && databases == old(databases)[target[h].value := old(Outcome(h, text, args)).value.0]
    {
      hide Serve;
      log := log + [Sent(At(h), text, args)];
      if * {
        faults := faults + 1;
        return None;
      }
      match Outcome(h, text, args) {
        case None => return None;
        case Some((db, reply)) =>
          databases := databases[target[h].value := db];
          return Some(reply);
      }
    }

    /** Some rows of a table, in some order, with or without a fault. */
    method Choose(t: Table, limit: nat) returns (cursor: Option<Contents>)
      modifies this`faults
      ensures faults >= old(faults) && (cursor.None? ==> faults > old(faults))
      ensures cursor.Some? ==> Delivers(cursor.value, t, limit, faults > old(faults))
    {
      var columns: seq<string>, records: seq<Record> := *, *;
      var order: seq<string>, picks: seq<nat>, faulty: bool := *, *, *;
      if !DeliversBy((columns, records), t, limit, faulty, order, picks) {
        faults := faults + 1;
        return None;
      }
      if faulty {
        faults := faults + 1;
      }
      return Some((columns, records));
    }

    /**
     The same for text that is run for its rows: a cursor on the chosen rows of a SELECT, or on
     whatever other SQL gives.
     */
    method Query(h: nat, text: string, args: seq<Native>) returns (c: Option<nat>)
      requires h in s.open
      modifies this`s, this`contents, this`databases, this`faults, this`log, this`queried
      ensures faults >= old(faults) && log == old(log) + [Sent(At(h), text, args)]
      ensures queried == old(queried) + if c.Some? then 1 else 0
      ensures c.None? ==>
                && s == old(s) && databases == old(databases)
                && (faults > old(faults) || old(Outcome(h, text, args)).None?)
      ensures c.Some? ==>
                && (s, c.value) == OpenCursor(old(s), h) && c.value in contents
                && old(Outcome(h, text, args)).Some?
                && databases == old(databases)[target[h].value := old(Outcome(h, text, args)).value.0]
      ensures c.Some? && Parse(text).Some? && Parse(text).value.Select? ==>
                Delivers(contents[c.value], old(Reached(h)).value[Parse(text).value.table], args[0].n,
                         faults > old(faults))
    {
      hide Serve, Parse, Delivers;
      log := log + [Sent(At(h), text, args)];
      var out := Outcome(h, text, args);
      if * {
        faults := faults + 1;
        return None;
      }
      if out.None? {
        return None;
      }
      var cursor: Contents := *;
      var statement := Parse(text);
      if statement.Some? && statement.value.Select? {
        SelectReads(server, Reached(h).value, text, args);
        var chosen := Choose(Reached(h).value[statement.value.table], args[0].n);
        if chosen.None? {
          return None;
        }
        cursor := chosen.value;
      }
      databases := databases[target[h].value := out.value.0];
      var (s', id) := OpenCursor(s, h);
      s := s';
      queried := queried + 1;
      contents := contents[id := cursor];
      return Some(id);
    }

    /** Reads a cursor's column names; where that fails, the cursor has given none. */
    method Columns(c: nat) returns (ok: bool)
      requires c in s.cursors && c in contents
      modifies this`contents, this`faults, this`unnamed
      ensures faults == old(faults) + if ok then 0 else 1
      ensures unnamed == old(unnamed) + if ok then 0 else 1
      ensures contents == if ok then old(contents) else old(contents)[c := ([], old(contents)[c].1)]
    {
      ok := *;
      if !ok {
        faults := faults + 1;
        unnamed := unnamed + 1;
        contents := contents[c := ([], contents[c].1)];
      }
    }

    /** Drivers word their errors as they like. */
    method ErrorText() returns (msg: string)
    {
      msg := *;
    }

    method CloseRows(c: nat)
      requires c in s.cursors
      modifies this`s
      ensures s == CloseCursor(old(s), c)
    {
      s := CloseCursor(s, c);
    }
  }

  /** The handles a Manager keeps, by backend. */
  function ByBackend(postgres: Option<nat>, mongo: Option<nat>, redis: Option<nat>): (m: map<Lifecycle.Backend, nat>)
    ensures forall h :: h in m.Values <==> postgres == Some(h) || mongo == Some(h) || redis == Some(h)
    ensures Lifecycle.Postgres in m <==> postgres.Some?
    ensures Lifecycle.Mongo in m <==> mongo.Some?
    ensures Lifecycle.Redis in m <==> redis.Some?
    ensures postgres.Some? ==> m[Lifecycle.Postgres] == postgres.value
    ensures mongo.Some? ==> m[Lifecycle.Mongo] == mongo.value
    ensures redis.Some? ==> m[Lifecycle.Redis] == redis.value
  {
    var m := (if postgres.Some? then map[Lifecycle.Postgres := postgres.value] else map[])
             + (if mongo.Some? then map[Lifecycle.Mongo := mongo.value] else map[])
             + (if redis.Some? then map[Lifecycle.Redis := redis.value] else map[]);
    assert postgres.Some? ==> m[Lifecycle.Postgres] == postgres.value;
    assert mongo.Some? ==> m[Lifecycle.Mongo] == mongo.value;
    assert redis.Some? ==> m[Lifecycle.Redis] == redis.value;
    m
  }

  class Manager {
    const config: Config
    const driver: Driver
    var postgresDB: Option<nat>
    var mongoDB: Option<nat>
    var redisClient: Option<nat>
    ghost var leaked: set<nat>   // opened at start-up, never stored: the ping failed

    ghost function Stored(): map<Lifecycle.Backend, nat>
      reads this
    {
      ByBackend(postgresDB, mongoDB, redisClient)
    }

    /** The connections that New has to try, in order. */
    function Wanted(): seq<string> {
      (if config.postgres.enabled then [Print(config.postgres, config.postgres.database)] else [])
      + (if config.mongoEnabled then ["mongo"] else [])
      + (if config.redisEnabled then ["redis"] else [])
    }

    /** What holds between the steps of New. */
    ghost predicate Starting()
      reads this, driver
    {
      Lifecycle.Started(Stored(), leaked, driver.s)
    }

    /**
     New: whatever the drivers answer, the process starts with exactly the stored and the leaked
     handles open; PostgreSQL and MongoDB are stored only if they answered, Redis in any case.
     Without a fault every enabled backend is stored and nothing leaks.
     */
    constructor (config: Config, driver: Driver)
      requires driver.s == Sessions(0, {}, map[], map[])
      modifies driver`s, driver`target, driver`dialed, driver`pinged, driver`faults
      ensures this.config == config && this.driver == driver
      ensures Lifecycle.Started(Stored(), leaked, driver.s) && Valid()
      ensures driver.dialed == old(driver.dialed) + Wanted()
      ensures AllPinged()
      ensures postgresDB.Some? ==> config.postgres.enabled
      ensures mongoDB.Some? ==> config.mongoEnabled
      ensures redisClient.Some? <==> config.redisEnabled
      ensures driver.faults == old(driver.faults) ==>
                && (postgresDB.Some? <==> config.postgres.enabled)
                && (mongoDB.Some? <==> config.mongoEnabled)
                && leaked == {}
    {
      this.config := config;
      this.driver := driver;
      this.postgresDB := None;
      this.mongoDB := None;
      this.redisClient := None;
      this.leaked := {};
      new;
      assert AllPinged() && Starting();
      hide Print, EndpointOf, AllPinged, Lifecycle.Started, ByBackend;
      if config.postgres.enabled {
        InitPostgres();
      }
      if config.mongoEnabled {
        InitMongo();
      }
      if config.redisEnabled {
        InitRedis();
      }
      StartedIsValid();
    }

    lemma StartedIsValid()
      requires Starting() && DefaultTarget()
      ensures Valid()
    {
      hide Print, EndpointOf;
    }

    predicate DefaultTarget()
      reads this, driver
    {
      postgresDB.Some? ==>
        postgresDB.value in driver.target
        && driver.target[postgresDB.value] == EndpointOf(Print(config.postgres, config.postgres.database))
    }

    /** The connection was tried, and what was opened was pinged. */
    twostate predicate Asked(dsns: seq<string>)
      reads driver
    {
      && driver.dialed == old(driver.dialed) + dsns
      && driver.pinged == old(driver.pinged) + (if driver.s == old(driver.s) then [] else [old(driver.s.next)])
      && driver.s.open <= old(driver.s.open) + if driver.s == old(driver.s) then {} else {old(driver.s.next)}
    }

    /** Every open handle was pinged. */
    ghost predicate AllPinged()
      reads driver
    {
      forall h | h in driver.s.open :: h in driver.pinged
    }

    /** Stores the handle exactly if it answers the ping; one that does not stays open. */
    method InitPostgres()
      requires Starting() && postgresDB.None? && AllPinged()
      modifies this`postgresDB, this`leaked, driver`s, driver`target, driver`dialed, driver`pinged, driver`faults
      ensures Starting() && DefaultTarget() && AllPinged()
      ensures Asked([Print(config.postgres, config.postgres.database)])
      ensures postgresDB.Some? <==> driver.faults == old(driver.faults)
      ensures driver.faults >= old(driver.faults)
      ensures leaked == if postgresDB.Some? || driver.s == old(driver.s) then old(leaked)
                        else old(leaked) + {old(driver.s.next)}
    {
      hide EndpointOf, Print, ByBackend;
      var handle := driver.Open(Print(config.postgres, config.postgres.database), true);
      if handle.Some? {
        var ok := driver.Ping(handle.value);
        if ok {
          postgresDB := handle;
        } else {
          leaked := leaked + {handle.value};
        }
      }
    }

    /** As for PostgreSQL. */
    method InitMongo()
      requires Starting() && mongoDB.None? && DefaultTarget() && AllPinged()
      modifies this`mongoDB, this`leaked, driver`s, driver`target, driver`dialed, driver`pinged, driver`faults
      ensures Starting() && DefaultTarget() && AllPinged() && Asked(["mongo"])
      ensures mongoDB.Some? <==> driver.faults == old(driver.faults)
      ensures driver.faults >= old(driver.faults)
      ensures leaked == if mongoDB.Some? || driver.s == old(driver.s) then old(leaked)
                        else old(leaked) + {old(driver.s.next)}
    {
      hide EndpointOf, Print, ByBackend;
      var handle := driver.Open("mongo", true);
      if handle.Some? {
        var ok := driver.Ping(handle.value);
        if ok {
          mongoDB := handle;
        } else {
          leaked := leaked + {handle.value};
        }
      }
    }

    /** The client is kept before the ping, and after a failed one. */
    method InitRedis()
      requires Starting() && redisClient.None? && DefaultTarget() && AllPinged()
      modifies this`redisClient, driver`s, driver`target, driver`dialed, driver`pinged, driver`faults
      ensures Starting() && DefaultTarget() && redisClient.Some? && AllPinged() && Asked(["redis"])
      ensures driver.faults >= old(driver.faults)
    {
      hide EndpointOf, Print, ByBackend;
      var handle := driver.Open("redis", false);
      redisClient := handle;
      var ok := driver.Ping(handle.value);
    }

    /** The close of the state machine, on the drivers. */
    method Close()
      requires forall h | h in Stored().Values :: h in driver.s.open
      requires forall a, b | a in Stored() && b in Stored() && a != b :: Stored()[a] != Stored()[b]
      modifies driver`s
      ensures driver.s == Lifecycle.CloseStored(Stored(), old(driver.s))
      ensures driver.s.open == old(driver.s.open) - Stored().Values
    {
      Lifecycle.CloseStoredCloses(Stored(), driver.s);
      if postgresDB.Some? {
        driver.Close(postgresDB.value);
      }
      if mongoDB.Some? {
        driver.Close(mongoDB.value);
      }
      if redisClient.Some? {
        driver.Close(redisClient.value);
      }
    }

    /** Between requests: the default handle is open, and every known handle and cursor is an old one. */
    predicate Valid()
      reads this, driver
    {
      && (postgresDB.Some? ==> postgresDB.value in driver.s.open)
      && DefaultTarget()
      && (forall h | h in driver.s.open :: h < driver.s.next)
      && (forall c | c in driver.s.cursors :: c < driver.s.next)
    }

    /**
     Shared for the empty or the default name, else a new handle that its caller has to close. It
     fails exactly if PostgreSQL is not there or something faults, and then leaves nothing open.
     */
    method GetPostgresConnection(dbname: string) returns (r: Result<(nat, bool), string>)
      requires Valid()
      modifies driver`s, driver`target, driver`dialed, driver`pinged, driver`faults
      ensures Valid()
      ensures postgresDB.None? ==> r == Err("PostgreSQL not enabled")
      ensures (dbname == "" || dbname == config.postgres.database) && postgresDB.Some? ==>
                r == Ok((postgresDB.value, false)) && driver.s == old(driver.s) && driver.target == old(driver.target)
      ensures dbname != "" && dbname != config.postgres.database && r.Ok? ==>
                && r.value == (old(driver.s.next), true)
                && driver.s == OpenHandle(old(driver.s)).0
                && driver.target == old(driver.target)[r.value.0 := EndpointOf(Print(config.postgres, dbname))]
      ensures r.Err? ==>
                && driver.s.open == old(driver.s.open) && driver.s.cursors == old(driver.s.cursors)
                && (|| driver.s == old(driver.s)
                    || driver.s == CloseHandle(OpenHandle(old(driver.s)).0, old(driver.s.next)))
      ensures driver.faults >= old(driver.faults)
      ensures r.Ok? <==> postgresDB.Some? && driver.faults == old(driver.faults)
      ensures if postgresDB.Some? && dbname != "" && dbname != config.postgres.database
              then Asked([Print(config.postgres, dbname)])
              else driver.dialed == old(driver.dialed) && driver.pinged == old(driver.pinged)
    {
      hide EndpointOf, Print;
      if postgresDB.None? {
        return Err("PostgreSQL not enabled");
      }
      if dbname == "" || dbname == config.postgres.database {
        return Ok((postgresDB.value, false));
      }
      var handle := driver.Open(Print(config.postgres, dbname), true);
      if handle.None? {
        var msg := driver.ErrorText();
        return Err(msg);
      }
      var ok := driver.Ping(handle.value);
      if !ok {
        driver.Close(handle.value);
        var msg := driver.ErrorText();
        return Err(msg);
      }
      return Ok((handle.value, true));
    }
  }
}
