/**
 The Redis path as the source runs it: the client that prefixes keys (core/go/client.go), the gRPC
 server that widens and narrows the TTL (internal/server/redis_server.go), the service that turns
 it into a duration (internal/service/redis.go), and the driver over the shared store.
 */
module RedisService {
  import opened Wrappers
  import opened Values
  import opened Errors
  import opened RedisStore

  const SECOND: Int64 := 1_000_000_000  // time.Second, in nanoseconds

  /** Conversion of a mathematical integer to a signed machine word. */
  function Wrap64(x: int): Int64 {
    (x + 0x8000_0000_0000_0000) % 0x1_0000_0000_0000_0000 - 0x8000_0000_0000_0000
  }

  function Wrap32(x: int): Int32 {
    (x + 0x8000_0000) % 0x1_0000_0000 - 0x8000_0000
  }

  /** time.Duration(ttl) * time.Second */
  function Duration(ttl: Int64): Int64 { Wrap64(ttl * SECOND) }

  /** int(d.Seconds()), which truncates towards zero */
  function WholeSeconds(d: int): int {
    if d < 0 then -(-d / SECOND) else d / SECOND
  }

  /** The duration is the TTL, and converts back to it, exactly when it fits a 64-bit word; every int32 does. */
  lemma DurationFits(ttl: Int64)
    ensures Duration(ttl) == ttl * SECOND <==> -9_223_372_036 <= ttl <= 9_223_372_036
    ensures Duration(ttl) == ttl * SECOND ==> WholeSeconds(Duration(ttl)) == ttl
    ensures -0x8000_0000 <= ttl < 0x8000_0000 ==> Duration(ttl) == ttl * SECOND
  {
  }

  /** A machine word keeps the number up to a multiple of its range. */
  lemma WrapIsCongruent(x: int) returns (j: int, k: int)
    ensures Wrap64(x) == x + j * 0x1_0000_0000_0000_0000
    ensures Wrap32(x) == x + k * 0x1_0000_0000
  {
    j := -((x + 0x8000_0000_0000_0000) / 0x1_0000_0000_0000_0000);
    k := -((x + 0x8000_0000) / 0x1_0000_0000);
  }

  // ----- the driver -----

  /** go-redis on the shared store. Every call can fail, is then counted as a fault, and has no effect. */
  class Driver {
    var store: Store
    var faults: nat

    constructor (store: Store)
      ensures this.store == store && faults == 0
    {
      this.store := store;
      this.faults := 0;
    }

    method Reach() returns (ok: bool)
      modifies this`faults
      ensures faults == old(faults) + if ok then 0 else 1
    {
      ok := *;
      if !ok {
        faults := faults + 1;
      }
    }

    /** SET; a duration that is not positive asks for no expiry. */
    method Set(key: string, value: string, expiration: Int64) returns (ok: bool)
      modifies this
      ensures faults == old(faults) + if ok then 0 else 1
      ensures !ok ==> store == old(store)
      ensures ok ==> store == old(store.(entries := store.entries[key := Entry(value, Expiry(store.now, expiration))]))
    {
      ok := Reach();
      if ok {
        store := store.(entries := store.entries[key := Entry(value, Expiry(store.now, expiration))]);
      }
    }

    static function Expiry(now: nat, expiration: Int64): Option<nat> {
      if expiration <= 0 then None
      else if expiration < 1_000_000 then Some(now + 1)
      else Some(now + expiration / 1_000_000)
    }

    /** GET; a missing key is an error of its own, not a fault. */
    method Get(key: string) returns (value: Option<string>)
      modifies this`faults
      ensures old(faults) <= faults <= old(faults) + 1
      ensures value.Some? <==> Live(store, key) && faults == old(faults)
      ensures value.Some? ==> value.value == store.entries[key].value
    {
      var ok := Reach();
      return if ok && Live(store, key) then Some(store.entries[key].value) else None;
    }

    /** TTL: -2 without a key, -1 without an expiry, else whole seconds; with an error, 0. */
    method TimeToLive(key: string) returns (d: Int64)
      modifies this`faults
      ensures old(faults) <= faults <= old(faults) + 1
      ensures TtlsInRange(store) ==> WholeSeconds(d) == if faults == old(faults) then ReportedTtl(store, key) else 0
    {
      var ok := Reach();
      d := if !ok then 0
           else if !Live(store, key) then -2
           else if store.entries[key].deadline.None? then -1
           else Wrap64(ReportedTtl(store, key) * SECOND);
    }

    method Del(key: string) returns (count: Option<nat>)
      modifies this
      ensures faults == old(faults) + if count.Some? then 0 else 1
      ensures count.None? ==> store == old(store)
      ensures count.Some? ==>
                && store == Apply(old(store), RedisStore.Del(key)).0
                && count.value == if Live(old(store), key) then 1 else 0
    {
      var ok := Reach();
      if !ok {
        return None;
      }
      count := Some(if Live(store, key) then 1 else 0);
      store := store.(entries := store.entries - {key});
    }

    /** Drivers word their errors as they like. */
    method ErrorText() returns (msg: string)
    {
      msg := *;
    }

    /** What the other clients do, and the time that passes, between two round trips. */
    method Others() returns (ghost events: seq<Event>)
      modifies this`store
      ensures store == FinalStore(old(store), events)
    {
      var run: seq<Event> := *;
      events := run;
      store := FinalStore(store, run);
    }
  }

  /** An entry that has not expired. */
  predicate IsThere(s: Store, key: string) {
    && key in s.entries
    && match s.entries[key].deadline case None => true case Some(deadline) => s.now <= deadline
  }

  /** The entry a write leaves, from seconds to milliseconds. */
  function Written(s: Store, value: string, ttl: int): Entry {
    Entry(value, if ttl > 0 then Some(s.now + 1000 * ttl) else None)
  }

  // ----- TTLs stay in range -----

  const MAX_TTL: nat := 0x7FFF_FFFF

  /** No key outlives the largest int32 TTL. */
  ghost predicate TtlsInRange(s: Store) {
    forall k | k in s.entries && s.entries[k].deadline.Some? ::
      s.entries[k].deadline.value <= s.now + 1000 * MAX_TTL
  }

  /** Kept by every run of router commands, so every reported TTL is an int32. */
  lemma {:induction false} RunsKeepTtlsInRange(s: Store, events: seq<Event>)
    requires TtlsInRange(s)
    ensures TtlsInRange(FinalStore(s, events))
    ensures forall k :: ReportedTtl(FinalStore(s, events), k) <= MAX_TTL
    decreases |events|
  {
    if events != [] {
      match events[0] {
        case Tick(ms) => RunsKeepTtlsInRange(Advance(s, ms), events[1..]);
        case Call(n, c) => RunsKeepTtlsInRange(Apply(s, Namespaced(n, c)).0, events[1..]);
      }
    }
  }

  // ----- service, server and client -----

  class Service {
    const client: Driver?  // nil when the backend is not enabled

    constructor (client: Driver?)
      ensures this.client == client
    {
      this.client := client;
    }

    function Footprint(): set<object> { if client == null then {} else {client} }

    /** It fails exactly if the backend is not there or the call faults. */
    method SetValue(key: string, value: string, ttl: Int64) returns (err: Option<ServiceError>)
      modifies Footprint()
      ensures client == null ==> err == Some(NotEnabled("Redis"))
      ensures client != null ==> (err.None? <==> client.faults == old(client.faults))
      ensures client != null && err.Some? ==> err.value.Worded? && client.store == old(client.store)
      ensures client != null && err.None? && Duration(ttl) == ttl * SECOND ==>
                client.store
                == old(client.store.(entries := client.store.entries[key := Written(client.store, value, ttl)]))
    {
      if client == null {
        return Some(NotEnabled("Redis"));
      }
      var expiration: Int64 := 0;
      if ttl > 0 {
        expiration := Duration(ttl);
      }
      var ok := client.Set(key, value, expiration);
      if ok {
        return None;
      }
      var msg := client.ErrorText();
      return Some(Worded(msg));
    }

    /**
     The value is the one at the first read, whose failure and whose miss look the same; the TTL is
     read later, after whatever happened in between, and is 0 if that read fails.
     */
    method GetValue(key: string) returns (r: Result<(string, int), ServiceError>)
      modifies Footprint()
      ensures client == null ==> r == Err(NotEnabled("Redis"))
      ensures client != null && old(Live(client.store, key)) && r.Err? ==> client.faults > old(client.faults)
      ensures client != null && r.Err? ==> r == Err(Worded("key not found")) && client.store == old(client.store)
      ensures r.Ok? ==>
                && client != null
                && old(Live(client.store, key)) && r.value.0 == old(client.store).entries[key].value
                && (old(TtlsInRange(client.store)) ==>
                      r.value.1 == if client.faults == old(client.faults) then ReportedTtl(client.store, key) else 0)
                && exists events :: client.store == FinalStore(old(client.store), events)
      ensures client != null && old(TtlsInRange(client.store)) ==> TtlsInRange(client.store)
    {
      if client == null {
        return Err(NotEnabled("Redis"));
      }
      var value := client.Get(key);
      if value.None? {
        return Err(Worded("key not found"));
      }
      ghost var events := client.Others();
      if old(TtlsInRange(client.store)) { RunsKeepTtlsInRange(old(client.store), events); }
      var ttl := client.TimeToLive(key);
      return Ok((value.value, WholeSeconds(ttl)));
    }

    method DeleteKey(key: string) returns (r: Result<bool, ServiceError>)
      modifies Footprint()
      ensures client == null ==> r == Err(NotEnabled("Redis"))
      ensures client != null ==> (r.Ok? <==> client.faults == old(client.faults))
      ensures client != null && r.Err? ==> r.error.Worded? && client.store == old(client.store)
      ensures r.Ok? ==> client != null && (client.store, Deleted(r.value)) == Apply(old(client.store), Del(key))
      ensures r.Ok? ==>
                && client.store.entries == old(client.store).entries - {key}
                && r.value == IsThere(old(client.store), key)
    {
      if client == null {
        return Err(NotEnabled("Redis"));
      }
      var count := client.Del(key);
      if count.None? {
        var msg := client.ErrorText();
        return Err(Worded(msg));
      }
      return Ok(count.value > 0);
    }
  }

  class Server {
    const svc: Service

    constructor (svc: Service)
      ensures this.svc == svc
    {
      this.svc := svc;
    }

    method SetValue(key: string, value: string, ttl: Int32) returns (err: Option<Status>)
      modifies svc.Footprint()
      ensures svc.client == null ==> err == Some(ToStatus(NotEnabled("Redis")))
      ensures svc.client != null ==>
                && (err.None? <==> svc.client.faults == old(svc.client.faults))
                && svc.client.store == (if err.None? then Apply(old(svc.client.store), Set(key, value, ttl)).0
                                        else old(svc.client.store))
                && (err.None? ==>
                      svc.client.store.entries
                      == old(svc.client.store).entries[key := Written(old(svc.client.store), value, ttl)])
    {
      DurationFits(ttl);
      var e := svc.SetValue(key, value, ttl);
      return if e.Some? then Some(ToStatus(e.value)) else None;
    }

    /** int32(ttl) is the TTL itself, on a store that only router commands have written. */
    method GetValue(key: string) returns (r: Result<(string, Int32), Status>)
      modifies svc.Footprint()
      ensures svc.client == null ==> r == Err(ToStatus(NotEnabled("Redis")))
      ensures svc.client != null && r.Err? ==>
                && r == Err(Status(NotFound, "key not found"))
                && (old(Live(svc.client.store, key)) ==> svc.client.faults > old(svc.client.faults))
      ensures r.Ok? ==>
                && svc.client != null
                && old(Live(svc.client.store, key)) && r.value.0 == old(svc.client.store).entries[key].value
                && (old(TtlsInRange(svc.client.store)) ==>
                      r.value.1 == if svc.client.faults == old(svc.client.faults)
                                   then ReportedTtl(svc.client.store, key)
                                   else 0)
      ensures svc.client != null && old(TtlsInRange(svc.client.store)) ==> TtlsInRange(svc.client.store)
    {
      var got := svc.GetValue(key);
      match got {
        case Err(e) =>
          KeyNotFoundStatus("key not found");
          return Err(ToStatus(e));
        case Ok((value, ttl)) =>
          if TtlsInRange(svc.client.store) { RunsKeepTtlsInRange(svc.client.store, []); }
          return Ok((value, Wrap32(ttl)));
      }
    }

    /** The delete command of the store; a key that was not there is no error. */
    method DeleteKey(key: string) returns (r: Result<bool, Status>)
      modifies svc.Footprint()
      ensures svc.client == null ==> r == Err(ToStatus(NotEnabled("Redis")))
      ensures svc.client != null ==> (r.Ok? <==> svc.client.faults == old(svc.client.faults))
      ensures svc.client != null && r.Err? ==> svc.client.store == old(svc.client.store)
      ensures r.Ok? ==> (svc.client.store, Deleted(r.value)) == Apply(old(svc.client.store), Del(key))
      ensures r.Ok? ==>
                && svc.client.store.entries == old(svc.client.store).entries - {key}
                && r.value == IsThere(old(svc.client.store), key)
    {
      var deleted := svc.DeleteKey(key);
      match deleted {
        case Err(e) => return Err(ToStatus(e));
        case Ok(hit) => return Ok(hit);
      }
    }
  }

  class Client {
    const appNamespace: string
    const redisPrefix: string
    const server: Server

    constructor (appNamespace: string, server: Server)
      ensures this.appNamespace == appNamespace && this.redisPrefix == appNamespace + ":" && this.server == server
    {
      this.appNamespace := appNamespace;
      this.redisPrefix := appNamespace + ":";
      this.server := server;
    }

    /** Refuses the empty namespace, and fails if there is no connection to the router. */
    static method New(appNamespace: string, server: Server, connects: bool) returns (c: Client?)
      ensures c == null <==> appNamespace == "" || !connects
      ensures c != null ==> fresh(c) && c.appNamespace == appNamespace && c.server == server
      ensures c != null ==> c.redisPrefix == c.appNamespace + ":"
    {
      if appNamespace == "" {
        return null;
      }
      if !connects {
        return null;
      }
      c := new Client(appNamespace, server);
    }

    /** On the shared store, exactly the namespaced command of the isolation theorem. */
    method RedisSet(key: string, value: string, ttl: Int32) returns (err: Option<Status>)
      requires redisPrefix == appNamespace + ":"
      modifies server.svc.Footprint()
      ensures server.svc.client == null ==> err.Some?
      ensures server.svc.client != null ==>
                && (err.None? <==> server.svc.client.faults == old(server.svc.client.faults))
                && server.svc.client.store
                   == if err.None?
                      then Apply(old(server.svc.client.store), Namespaced(appNamespace, Set(key, value, ttl))).0
                      else old(server.svc.client.store)
      ensures server.svc.client != null && err.None? ==>
                var before := old(server.svc.client.store);
                server.svc.client.store.entries
                == before.entries[appNamespace + ":" + key := Written(before, value, ttl)]
    {
      err := server.SetValue(redisPrefix + key, value, ttl);
    }

    /** Absence, and any failed read, is the empty string; only a disabled backend is an error. */
    method RedisGet(key: string) returns (r: Result<string, Status>)
      requires redisPrefix == appNamespace + ":"
      modifies server.svc.Footprint()
      ensures r.Err? <==> server.svc.client == null
      ensures server.svc.client != null ==>
                var reply := Apply(old(server.svc.client.store), Namespaced(appNamespace, Get(key))).1;
                || r.value == (if reply.Found? then reply.value else "")
                || (r.value == "" && server.svc.client.faults > old(server.svc.client.faults))
      ensures server.svc.client != null ==>
                var before, full := old(server.svc.client.store), appNamespace + ":" + key;
                || r.value == (if IsThere(before, full) then before.entries[full].value else "")
                || (r.value == "" && server.svc.client.faults > old(server.svc.client.faults))
    {
      var got := server.GetValue(redisPrefix + key);
      match got {
        case Ok((value, _)) => return Ok(value);
        case Err(st) =>
          RedisGetOutcome(server.svc.client != null, None);
          KeyNotFoundStatus("key not found");
          return if ReadsAsAbsent(st) then Ok("") else Err(st);
      }
    }
  }
}
