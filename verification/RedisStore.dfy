/**
 One flat Redis store shared by every application, and the namespaces the client lays over it by
 prefixing keys (core/go/client.go). The theorem: over every interleaved run, a namespace behaves
 like a store of its own, exactly when no prefix of another one can produce its keys.
 */
module RedisStore {
  import opened Wrappers
  import opened Values

  // ----- the flat store, with expiry -----

  /** Times are in milliseconds. */
  datatype Entry = Entry(value: string, deadline: Option<nat>)

  datatype Store = Store(now: nat, entries: map<string, Entry>)

  datatype Command =
    | Set(key: string, value: string, ttl: Int32)
    | Get(key: string)
    | Ttl(key: string)
    | Del(key: string)

  datatype Reply = Done | Found(value: string) | Missing | Seconds(n: nat) | Deleted(hit: bool)

  predicate Live(s: Store, key: string) {
    key in s.entries && (s.entries[key].deadline.Some? ==> s.now <= s.entries[key].deadline.value)
  }

  /** A non-positive TTL means no expiry. */
  function Deadline(now: nat, ttl: Int32): Option<nat> {
    if ttl > 0 then Some(now + 1000 * ttl) else None
  }

  /** Redis reports the remaining time to the nearest second; no expiry and no key both come out as 0. */
  function ReportedTtl(s: Store, key: string): nat {
    if Live(s, key) && s.entries[key].deadline.Some?
    then (s.entries[key].deadline.value - s.now + 500) / 1000
    else 0
  }

  function Apply(s: Store, c: Command): (Store, Reply) {
    match c
    case Set(key, value, ttl) => (s.(entries := s.entries[key := Entry(value, Deadline(s.now, ttl))]), Done)
    case Get(key) => (s, if Live(s, key) then Found(s.entries[key].value) else Missing)
    case Ttl(key) => (s, Seconds(ReportedTtl(s, key)))
    case Del(key) => (s.(entries := s.entries - {key}), Deleted(Live(s, key)))
  }

  function Advance(s: Store, ms: nat): Store { s.(now := s.now + ms) }

  const EMPTY := Store(0, map[])

  // ----- namespaces -----

  /** c.RedisPrefix + key */
  function NamespacedKey(ns: string, key: string): string { ns + ":" + key }

  function Namespaced(ns: string, c: Command): Command { c.(key := NamespacedKey(ns, c.key)) }

  predicate ColonFree(ns: string) { ':' !in ns }

  /** Neither prefix extends the other. */
  predicate Separate(p: string, q: string) {
    !(p + ":" <= q + ":") && !(q + ":" <= p + ":")
  }

  /** A client of some namespace issues a command, or time passes. */
  datatype Event = Call(ns: string, command: Command) | Tick(ms: nat)

  /** What the clients of `ns` are told when everybody's commands run on the one shared store. */
  function SharedReplies(ns: string, s: Store, events: seq<Event>): seq<Reply>
    decreases |events|
  {
    if events == [] then []
    else match events[0]
      case Tick(ms) => SharedReplies(ns, Advance(s, ms), events[1..])
      case Call(n, c) =>
        var (s', reply) := Apply(s, Namespaced(n, c));
        (if n == ns then [reply] else []) + SharedReplies(ns, s', events[1..])
  }

  /** The part of a run that the clients of `ns` know about: their own commands and the clock. */
  function History(ns: string, events: seq<Event>): seq<Event> {
    if events == [] then []
    else if events[0].Call? && events[0].ns != ns then History(ns, events[1..])
    else [events[0]] + History(ns, events[1..])
  }

  /** What a store that nobody else uses, with keys as the client writes them, answers. */
  function PrivateReplies(s: Store, history: seq<Event>): seq<Reply>
    decreases |history|
  {
    if history == [] then []
    else match history[0]
      case Tick(ms) => PrivateReplies(Advance(s, ms), history[1..])
      case Call(_, c) =>
        var (s', reply) := Apply(s, c);
        [reply] + PrivateReplies(s', history[1..])
  }

  // ----- keys do not meet -----

  lemma KeysMeetIffNotSeparate(p: string, q: string)
    ensures (exists k, l :: NamespacedKey(p, k) == NamespacedKey(q, l)) <==> !Separate(p, q)
  {
    forall k, l | NamespacedKey(p, k) == NamespacedKey(q, l) ensures !Separate(p, q) {
      var full := NamespacedKey(p, k);
      assert p + ":" == full[..|p| + 1] && q + ":" == full[..|q| + 1];
      if |p| <= |q| {
        assert p + ":" == (q + ":")[..|p| + 1];
      } else {
        assert q + ":" == (p + ":")[..|q| + 1];
      }
    }
    if p + ":" <= q + ":" {
      var rest := (q + ":")[|p| + 1..];
      assert NamespacedKey(p, rest) == NamespacedKey(q, "");
    } else if q + ":" <= p + ":" {
      var rest := (p + ":")[|q| + 1..];
      assert NamespacedKey(p, "") == NamespacedKey(q, rest);
    }
  }

  lemma KeysOfOneNamespace(ns: string, k: string, l: string)
    requires NamespacedKey(ns, k) == NamespacedKey(ns, l)
    ensures k == l
  {
    assert NamespacedKey(ns, k)[|ns| + 1..] == k && NamespacedKey(ns, l)[|ns| + 1..] == l;
  }

  lemma ColonFreePrefix(p: string, q: string)
    requires ColonFree(q) && p + ":" <= q + ":"
    ensures p == q
  {
    var full := q + ":";
    assert full[|p|] == (p + ":")[|p|] == ':';
    assert forall i | 0 <= i < |q| :: full[i] == q[i] && q[i] != ':';
    assert p == full[..|p|] && q == full[..|q|];
  }

  /** Different colon-free namespaces are separate. */
  lemma ColonFreeAreSeparate(p: string, q: string)
    requires ColonFree(p) && ColonFree(q) && p != q
    ensures Separate(p, q)
  {
    if p + ":" <= q + ":" { ColonFreePrefix(p, q); }
    if q + ":" <= p + ":" { ColonFreePrefix(q, p); }
  }

  // ----- refinement -----

  /** The shared store, seen through the keys of `ns`, is the private one. */
  ghost predicate Agrees(ns: string, shared: Store, own: Store) {
    && shared.now == own.now
    && forall k ::
         && (NamespacedKey(ns, k) in shared.entries <==> k in own.entries)
         && (k in own.entries ==> shared.entries[NamespacedKey(ns, k)] == own.entries[k])
  }

  lemma OwnPut(ns: string, shared: Store, own: Store, key: string, e: Entry)
    requires Agrees(ns, shared, own)
    ensures Agrees(ns, shared.(entries := shared.entries[NamespacedKey(ns, key) := e]),
                   own.(entries := own.entries[key := e]))
  {
    hide NamespacedKey;
    forall k | NamespacedKey(ns, k) == NamespacedKey(ns, key) ensures k == key { KeysOfOneNamespace(ns, k, key); }
  }

  lemma OwnRemove(ns: string, shared: Store, own: Store, key: string)
    requires Agrees(ns, shared, own)
    ensures Agrees(ns, shared.(entries := shared.entries - {NamespacedKey(ns, key)}),
                   own.(entries := own.entries - {key}))
  {
    hide NamespacedKey;
    forall k | NamespacedKey(ns, k) == NamespacedKey(ns, key) ensures k == key { KeysOfOneNamespace(ns, k, key); }
  }

  lemma OwnEntry(ns: string, shared: Store, own: Store, key: string)
    requires Agrees(ns, shared, own)
    ensures var full := NamespacedKey(ns, key);
            && shared.now == own.now
            && (full in shared.entries <==> key in own.entries)
            && (key in own.entries ==> shared.entries[full] == own.entries[key])
  {
  }

  lemma OwnCommand(ns: string, shared: Store, own: Store, c: Command)
    requires Agrees(ns, shared, own)
    ensures Agrees(ns, Apply(shared, Namespaced(ns, c)).0, Apply(own, c).0)
    ensures Apply(shared, Namespaced(ns, c)).1 == Apply(own, c).1
  {
    hide Agrees, NamespacedKey;
    OwnEntry(ns, shared, own, c.key);
    match c {
      case Set(key, value, ttl) => OwnPut(ns, shared, own, key, Entry(value, Deadline(own.now, ttl)));
      case Del(key) => OwnRemove(ns, shared, own, key);
      case _ =>
    }
  }

  lemma ForeignCommand(ns: string, other: string, shared: Store, own: Store, c: Command)
    requires Agrees(ns, shared, own) && Separate(ns, other)
    ensures Agrees(ns, Apply(shared, Namespaced(other, c)).0, own)
  {
    KeysMeetIffNotSeparate(ns, other);
  }

  lemma {:induction false} RunsAgree(ns: string, shared: Store, own: Store, events: seq<Event>)
    requires Agrees(ns, shared, own)
    requires forall e | e in events && e.Call? && e.ns != ns :: Separate(ns, e.ns)
    ensures SharedReplies(ns, shared, events) == PrivateReplies(own, History(ns, events))
    decreases |events|
  {
    if events != [] {
      match events[0] {
        case Tick(ms) => RunsAgree(ns, Advance(shared, ms), Advance(own, ms), events[1..]);
        case Call(n, c) =>
          var shared' := Apply(shared, Namespaced(n, c)).0;
          if n == ns {
            OwnCommand(ns, shared, own, c);
            RunsAgree(ns, shared', Apply(own, c).0, events[1..]);
          } else {
            ForeignCommand(ns, n, shared, own, c);
            RunsAgree(ns, shared', own, events[1..]);
          }
      }
      assert ([events[0]] + History(ns, events[1..]))[1..] == History(ns, events[1..]);
    }
  }

  /**
   Every interleaved run by any number of clients of colon-free namespaces: each client reads
   exactly what its own namespace's history predicts.
   */
  lemma NamespacesAreIsolated(ns: string, events: seq<Event>)
    requires ColonFree(ns) && forall e | e in events && e.Call? :: ColonFree(e.ns)
    ensures SharedReplies(ns, EMPTY, events) == PrivateReplies(EMPTY, History(ns, events))
  {
    forall e | e in events && e.Call? && e.ns != ns ensures Separate(ns, e.ns) {
      ColonFreeAreSeparate(ns, e.ns);
    }
    RunsAgree(ns, EMPTY, EMPTY, events);
  }

  ghost predicate OnlyUses(events: seq<Event>, p: string, q: string) {
    forall e | e in events && e.Call? :: e.ns == p || e.ns == q
  }

  ghost predicate Isolated(p: string, q: string) {
    forall events | OnlyUses(events, p, q) ::
      SharedReplies(p, EMPTY, events) == PrivateReplies(EMPTY, History(p, events))
  }

  lemma MeetingKeysInterfere(p: string, q: string, k: string, l: string)
    requires p != q && NamespacedKey(p, k) == NamespacedKey(q, l)
    ensures !Isolated(p, q)
  {
    var write, get := Call(q, Set(l, "x", 0)), Call(p, Get(k));
    var events := [write, get];
    assert events[1..] == [get] && events[1..][1..] == [];
    var s := Apply(EMPTY, Namespaced(q, write.command)).0;
    assert SharedReplies(p, s, [get]) == [Found("x")];
    assert SharedReplies(p, EMPTY, events) == [Found("x")];
    assert History(p, [get]) == [get] + History(p, []) == [get];
    assert History(p, events) == [get];
    assert PrivateReplies(EMPTY, [get]) == [Missing];
    assert OnlyUses(events, p, q);
  }

  /** For names of any form, colons included: two namespaces are isolated exactly when they are separate. */
  lemma IsolatedIffSeparate(p: string, q: string)
    requires p != q
    ensures Isolated(p, q) <==> Separate(p, q)
  {
    KeysMeetIffNotSeparate(p, q);
    if Separate(p, q) {
      forall events | OnlyUses(events, p, q)
        ensures SharedReplies(p, EMPTY, events) == PrivateReplies(EMPTY, History(p, events))
      {
        RunsAgree(p, EMPTY, EMPTY, events);
      }
    } else {
      var k, l :| NamespacedKey(p, k) == NamespacedKey(q, l);
      MeetingKeysInterfere(p, q, k, l);
    }
  }

  // ----- reported TTL -----

  function FinalStore(s: Store, events: seq<Event>): Store
    decreases |events|
  {
    if events == [] then s
    else match events[0]
      case Tick(ms) => FinalStore(Advance(s, ms), events[1..])
      case Call(n, c) => FinalStore(Apply(s, Namespaced(n, c)).0, events[1..])
  }

  /** Nothing in the run writes or deletes `key`. */
  ghost predicate Leaves(events: seq<Event>, key: string) {
    forall e | e in events && e.Call? && (e.command.Set? || e.command.Del?) :: NamespacedKey(e.ns, e.command.key) != key
  }

  ghost function Elapsed(events: seq<Event>): nat {
    if events == [] then 0 else (if events[0].Tick? then events[0].ms else 0) + Elapsed(events[1..])
  }

  lemma {:induction false} UntouchedKey(s: Store, events: seq<Event>, key: string)
    requires Leaves(events, key)
    ensures FinalStore(s, events).now == s.now + Elapsed(events)
    ensures key in FinalStore(s, events).entries <==> key in s.entries
    ensures key in s.entries ==> FinalStore(s, events).entries[key] == s.entries[key]
    decreases |events|
  {
    if events != [] {
      var s' := match events[0] case Tick(ms) => Advance(s, ms) case Call(n, c) => Apply(s, Namespaced(n, c)).0;
      assert events[0] in events;
      UntouchedKey(s', events[1..], key);
    }
  }

  /**
   After a write with any int32 TTL and any run that leaves the key alone: the key is there exactly
   while its time lasts, and the reported TTL is between 0 and the TTL that was set, so narrowing
   it to int32 loses nothing.
   */
  lemma TtlAfterWrite(s: Store, key: string, value: string, ttl: Int32, events: seq<Event>)
    requires Leaves(events, key)
    ensures var end := FinalStore(Apply(s, Set(key, value, ttl)).0, events);
            && (Live(end, key) <==> ttl <= 0 || Elapsed(events) <= 1000 * ttl)
            && (Live(end, key) ==> end.entries[key].value == value)
            && ReportedTtl(end, key) <= (if ttl > 0 then ttl else 0)
            && (Live(end, key) && ttl > 0 ==> 1000 * ttl - Elapsed(events) - 500 <= 1000 * ReportedTtl(end, key))
  {
    UntouchedKey(Apply(s, Set(key, value, ttl)).0, events, key);
  }

  /** After a delete and any run that leaves the key alone, the key is gone, and a second delete says so. */
  lemma GoneAfterDelete(s: Store, key: string, events: seq<Event>)
    requires Leaves(events, key)
    ensures var end := FinalStore(Apply(s, Del(key)).0, events);
            Apply(end, Get(key)).1 == Missing && Apply(end, Del(key)).1 == Deleted(false)
  {
    UntouchedKey(Apply(s, Del(key)).0, events, key);
  }

  /** What is answered about a key after a write and any run that leaves the key alone. */
  lemma RepliesAfterWrite(s: Store, key: string, value: string, ttl: Int32, events: seq<Event>)
    requires Leaves(events, key)
    ensures var end := FinalStore(Apply(s, Set(key, value, ttl)).0, events);
            var lasts := ttl <= 0 || Elapsed(events) <= 1000 * ttl;
            && Apply(end, Get(key)) == (end, if lasts then Found(value) else Missing)
            && Apply(end, Ttl(key))
               == (end, Seconds(if ttl > 0 && lasts then (1000 * ttl - Elapsed(events) + 500) / 1000 else 0))
            && Apply(end, Del(key)).1 == Deleted(lasts)
  {
    UntouchedKey(Apply(s, Set(key, value, ttl)).0, events, key);
  }

  /** Of a key that nobody has written there is nothing. */
  lemma RepliesWithoutWrite(key: string, events: seq<Event>)
    requires Leaves(events, key)
    ensures var end := FinalStore(EMPTY, events);
            && Apply(end, Get(key)).1 == Missing && Apply(end, Ttl(key)).1 == Seconds(0)
            && Apply(end, Del(key)).1 == Deleted(false)
  {
    UntouchedKey(EMPTY, events, key);
  }

  /** A command changes nothing but the entry of its own key, and only a write or a deletion changes that. */
  lemma OtherEntriesStay(s: Store, c: Command, other: string)
    ensures var after := Apply(s, c).0;
            && after.now == s.now
            && (other != c.key || c.Get? || c.Ttl? ==>
                  && (other in after.entries <==> other in s.entries)
                  && (other in s.entries ==> after.entries[other] == s.entries[other]))
  {
  }
}
