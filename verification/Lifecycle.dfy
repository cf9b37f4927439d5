/**
 The life of connections in the running router, as a state machine: requests interleave step by
 step, every driver call can fail, Go's deferred closes run in reverse order, and the process
 drains, stops and closes its shared handles (cmd/main.go, internal/db/database.go,
 internal/service/postgres.go).
 */
module Lifecycle {
  import opened Wrappers
  import opened Sessions

  datatype Backend = Postgres | Mongo | Redis

  /** Straight to a shared handle, or through GetPostgresConnection with the request's database name. */
  datatype Route = Shared(backend: Backend) | Named(database: string)

  /** Reads iterate a cursor; Writes execute once; Inserts execute again when the first attempt fails. */
  datatype Shape = Reads | Writes | Inserts

  /** `refused`: a bad table name, limit, id or an empty update, rejected before any connection. */
  datatype Request = Request(route: Route, shape: Shape, refused: bool)

  datatype Deferred = Handle(h: nat) | Cursor(c: nat)

  datatype Pc = Enter | Connect | Ping(h: nat) | Issue | Fallback | Scan | Unwind | Finished

  datatype Proc = Proc(request: Request, pc: Pc, conn: Option<nat>, deferred: seq<Deferred>)

  datatype Phase = Serving | Draining | Stopped | Closed | Aborted

  /**
   `stored` is what the Manager keeps for each backend, `leaked` the handles whose start-up ping
   failed; `owner` remembers which request opened a handle or cursor.
   */
  datatype State = State(
    phase: Phase, defaultDatabase: string, stored: map<Backend, nat>, leaked: set<nat>,
    s: Sessions, owner: map<nat, nat>, procs: map<nat, Proc>)

  // ----- steps -----

  /** One request's next step; `ok` is the driver's answer, or another row while scanning. */
  datatype Step = Begin(r: nat, request: Request) | Local(r: nat, ok: bool) | Signal | Drained | CloseAll | Abort

  predicate Live(st: State, r: nat) { r in st.procs && st.procs[r].pc != Finished }

  predicate Enabled(st: State, step: Step) {
    match step
    case Begin(r, _) => st.phase == Serving && r !in st.procs
    case Local(r, _) => (st.phase == Serving || st.phase == Draining) && Live(st, r)
    case Signal => st.phase == Serving
    case Drained => st.phase == Draining && forall r | r in st.procs :: !Live(st, r)
    case CloseAll => st.phase == Stopped
    case Abort => st.phase == Serving
  }

  function Put(st: State, r: nat, p: Proc): State { st.(procs := st.procs[r := p]) }

  function Apply(st: State, step: Step): State
    requires Enabled(st, step)
  {
    match step
    case Begin(r, request) => Put(st, r, Proc(request, Enter, None, []))
    case Local(r, ok) => LocalStep(st, r, ok)
    case Signal => st.(phase := Draining)
    case Drained => st.(phase := Stopped)
    case CloseAll => st.(phase := Closed, s := CloseStored(st.stored, st.s))
    case Abort => st.(phase := Aborted)  // log.Fatalf exits without the deferred Close
  }

  function LocalStep(st: State, r: nat, ok: bool): State
    requires Live(st, r)
  {
    match st.procs[r].pc
    case Enter => EnterStep(st, r)
    case Connect => ConnectStep(st, r, ok)
    case Ping(h) => PingStep(st, r, h, ok)
    case Issue => IssueStep(st, r, ok)
    case Fallback => Put(st, r, st.procs[r].(pc := Unwind))
    case Scan => if ok then st else Put(st, r, st.procs[r].(pc := Unwind))
    case Unwind => UnwindStep(st, r)
  }

  function EnterStep(st: State, r: nat): State
    requires r in st.procs
  {
    var p := st.procs[r];
    var backend := if p.request.route.Shared? then p.request.route.backend else Postgres;
    if backend !in st.stored || p.request.refused then Put(st, r, p.(pc := Unwind))
    else if p.request.route.Shared? then Put(st, r, p.(pc := Issue, conn := Some(st.stored[backend])))
    else Put(st, r, p.(pc := Connect))
  }

  /** GetPostgresConnection, up to the ping. */
  function ConnectStep(st: State, r: nat, ok: bool): State
    requires r in st.procs
  {
    var p := st.procs[r];
    if !p.request.route.Named? || Postgres !in st.stored then Put(st, r, p.(pc := Unwind))
    else if p.request.route.database == "" || p.request.route.database == st.defaultDatabase then
      Put(st, r, p.(pc := Issue, conn := Some(st.stored[Postgres])))
    else if !ok then Put(st, r, p.(pc := Unwind))
    else
      var (s', h) := OpenHandle(st.s);
      Put(st, r, p.(pc := Ping(h))).(s := s', owner := st.owner[h := r])
  }

  function PingStep(st: State, r: nat, h: nat, ok: bool): State
    requires r in st.procs
  {
    var p := st.procs[r];
    if ok then Put(st, r, p.(pc := Issue, conn := Some(h), deferred := [Handle(h)]))
    else Put(st, r, p.(pc := Unwind)).(s := CloseHandle(st.s, h))
  }

  function IssueStep(st: State, r: nat, ok: bool): State
    requires r in st.procs
  {
    var p := st.procs[r];
    if p.request.shape.Reads? && ok && p.conn.Some? then
      var (s', c) := OpenCursor(st.s, p.conn.value);
      Put(st, r, p.(pc := Scan, deferred := p.deferred + [Cursor(c)])).(s := s', owner := st.owner[c := r])
    else if p.request.shape.Inserts? && !ok then Put(st, r, p.(pc := Fallback))
    else Put(st, r, p.(pc := Unwind))
  }

  /** Runs the last deferred close, or returns. */
  function UnwindStep(st: State, r: nat): State
    requires r in st.procs
  {
    var p := st.procs[r];
    var n := |p.deferred|;
    if n == 0 then Put(st, r, p.(pc := Finished))
    else
      var s' := match p.deferred[n - 1] case Handle(h) => CloseHandle(st.s, h) case Cursor(c) => CloseCursor(st.s, c);
      Put(st, r, p.(deferred := p.deferred[..n - 1])).(s := s')
  }

  function CloseIfStored(stored: map<Backend, nat>, b: Backend, s: Sessions): Sessions {
    if b in stored then CloseHandle(s, stored[b]) else s
  }

  /** Manager.Close */
  function CloseStored(stored: map<Backend, nat>, s: Sessions): Sessions {
    CloseIfStored(stored, Redis, CloseIfStored(stored, Mongo, CloseIfStored(stored, Postgres, s)))
  }

  // ----- start and runs -----

  /** What db.New leaves: the stored handles are open, so are the leaked ones, and nothing else of ours. */
  ghost predicate Started(stored: map<Backend, nat>, leaked: set<nat>, s: Sessions) {
    && s.open == stored.Values + leaked
    && stored.Values !! leaked
    && (forall a, b | a in stored && b in stored && a != b :: stored[a] != stored[b])
    && (forall h | h in s.open :: h < s.next)
    && s.cursors == map[] && s.closes == map[]
  }

  ghost predicate Init(st: State) {
    && st.phase == Serving && st.owner == map[] && st.procs == map[]
    && Started(st.stored, st.leaked, st.s)
  }

  ghost predicate IsRun(st: State, steps: seq<Step>)
    decreases |steps|
  {
    steps != [] ==> Enabled(st, steps[0]) && IsRun(Apply(st, steps[0]), steps[1..])
  }

  ghost function End(st: State, steps: seq<Step>): State
    requires IsRun(st, steps)
    decreases |steps|
  {
    if steps == [] then st else End(Apply(st, steps[0]), steps[1..])
  }

  // ----- the invariant -----

  /** A temporary handle the request has still to close. */
  predicate Holds(p: Proc, h: nat) { p.pc == Ping(h) || Handle(h) in p.deferred }

  predicate IsOpenHandle(st: State, id: nat) {
    id in st.s.open && id !in st.s.cursors && id !in st.s.closes
  }

  predicate IsOpenCursor(st: State, id: nat) {
    id in st.s.cursors && id !in st.s.open && id !in st.s.closes
  }

  predicate IsClosedOnce(st: State, id: nat) {
    id in st.s.closes && st.s.closes[id] == 1 && id !in st.s.open && id !in st.s.cursors
  }

  /** Whatever a request opened is held by that request, or was closed, once. */
  predicate OwnedOk(st: State, id: nat)
    requires id in st.owner
  {
    && id < st.s.next
    && st.owner[id] in st.procs
    && var p := st.procs[st.owner[id]];
       || (IsOpenHandle(st, id) && Holds(p, id))
       || (IsOpenCursor(st, id) && Cursor(id) in p.deferred)
       || IsClosedOnce(st, id)
  }

  /** The handles that belong to the process: only Manager.Close closes the stored ones. */
  ghost predicate SharedOk(st: State) {
    && st.stored.Values !! st.leaked
    && (forall a, b | a in st.stored && b in st.stored && a != b :: st.stored[a] != st.stored[b])
    && (forall h | h in st.stored.Values || h in st.leaked :: h !in st.owner && h < st.s.next)
    && (forall h | h in st.leaked :: IsOpenHandle(st, h))
    && (forall h | h in st.stored.Values :: if st.phase == Closed then IsClosedOnce(st, h) else IsOpenHandle(st, h))
  }

  ghost predicate KnownIds(st: State) {
    forall id | id in st.s.open || id in st.s.cursors || id in st.s.closes ::
      id in st.owner || id in st.stored.Values || id in st.leaked
  }

  /** A close of the connection is deferred before a close of its cursor. */
  predicate DeferredOk(p: Proc) {
    || p.deferred == []
    || (p.conn.Some? && p.deferred[0] == Handle(p.conn.value)
        && (|p.deferred| == 1 || (|p.deferred| == 2 && p.deferred[1].Cursor?)))
    || (p.conn.Some? && |p.deferred| == 1 && p.deferred[0].Cursor?)
  }

  predicate PcOk(p: Proc) {
    match p.pc
    case Issue => p.conn.Some? && |p.deferred| <= 1 && (p.deferred != [] ==> p.deferred[0].Handle?)
    case Fallback => p.conn.Some? && |p.deferred| <= 1 && (p.deferred != [] ==> p.deferred[0].Handle?)
    case Scan => p.conn.Some?
    case Unwind => true
    case _ => p.deferred == []
  }

  ghost predicate ProcOk(st: State, r: nat)
    requires r in st.procs
  {
    var p := st.procs[r];
    && DeferredOk(p) && PcOk(p)
    && (p.pc.Issue? || p.pc.Fallback? || p.pc.Scan? || p.deferred != [] ==>
          p.conn.Some? && (p.conn.value in st.stored.Values || Handle(p.conn.value) in p.deferred))
    && (forall h | Holds(p, h) :: h in st.s.open && h in st.owner && st.owner[h] == r)
    && (forall c | Cursor(c) in p.deferred ::
          c in st.s.cursors && st.s.cursors[c] == p.conn.value && c in st.owner && st.owner[c] == r)
  }

  ghost predicate Inv(st: State) {
    && SharedOk(st) && KnownIds(st)
    && (forall id | id in st.owner :: OwnedOk(st, id))
    && (forall r | r in st.procs :: ProcOk(st, r))
    && (st.phase == Stopped || st.phase == Closed ==> forall r | r in st.procs :: !Live(st, r))
  }

  // ----- a step of one request touches nothing of the others -----

  predicate SameId(a: State, b: State, id: nat) {
    && (id in a.s.open <==> id in b.s.open)
    && (id in a.s.cursors <==> id in b.s.cursors)
    && (id in a.s.cursors ==> a.s.cursors[id] == b.s.cursors[id])
    && (id in a.s.closes <==> id in b.s.closes)
    && (id in a.s.closes ==> a.s.closes[id] == b.s.closes[id])
  }

  ghost predicate OnlyTouches(st: State, st': State, r: nat) {
    && r in st.procs && r in st'.procs
    && st' == st.(s := st'.s, owner := st'.owner, procs := st.procs[r := st'.procs[r]])
    && st.s.next <= st'.s.next
    && (forall id: nat | !(id in st'.owner && st'.owner[id] == r) :: SameId(st, st', id))
    && (forall id | id in st.owner :: id in st'.owner && st'.owner[id] == st.owner[id])
    && (forall id | id in st'.owner && id !in st.owner :: st'.owner[id] == r && st.s.next <= id)
  }

  lemma OtherProcsOk(st: State, st': State, r: nat)
    requires OnlyTouches(st, st', r) && forall q | q in st.procs :: ProcOk(st, q)
    ensures forall q | q in st'.procs && q != r :: ProcOk(st', q)
  {
    forall q | q in st'.procs && q != r ensures ProcOk(st', q) {
      assert ProcOk(st, q) && st'.procs[q] == st.procs[q];
      forall h | Holds(st.procs[q], h) ensures SameId(st, st', h) {}
      forall c | Cursor(c) in st.procs[q].deferred ensures SameId(st, st', c) {}
    }
  }

  lemma OtherIdsOk(st: State, st': State, r: nat)
    requires OnlyTouches(st, st', r) && forall id | id in st.owner :: OwnedOk(st, id)
    ensures forall id | id in st'.owner && st'.owner[id] != r :: OwnedOk(st', id)
  {
    forall id | id in st'.owner && st'.owner[id] != r ensures OwnedOk(st', id) {
      assert id in st.owner && OwnedOk(st, id) && SameId(st, st', id);
    }
  }

  lemma SharedStaysOk(st: State, st': State, r: nat)
    requires OnlyTouches(st, st', r) && SharedOk(st) && KnownIds(st)
    ensures SharedOk(st') && KnownIds(st')
  {
    forall h | h in st.stored.Values || h in st.leaked ensures h !in st'.owner && SameId(st, st', h) {
    }
    forall id | id in st'.s.open || id in st'.s.cursors || id in st'.s.closes
      ensures id in st'.owner || id in st'.stored.Values || id in st'.leaked
    {
      if id !in st'.owner { assert SameId(st, st', id); }
    }
  }

  lemma TouchedInv(st: State, st': State, r: nat)
    requires Inv(st) && (st.phase == Serving || st.phase == Draining) && OnlyTouches(st, st', r)
    requires ProcOk(st', r)
    requires forall id | id in st'.owner && st'.owner[id] == r :: OwnedOk(st', id)
    ensures Inv(st')
  {
    OtherIdsOk(st, st', r);
    OtherProcsOk(st, st', r);
    SharedStaysOk(st, st', r);
    hide ProcOk, OwnedOk, SharedOk, KnownIds, SameId;
  }

  // What one request knows before its step, and has to show after it.

  ghost predicate Mine(st: State, r: nat) {
    && r in st.procs && ProcOk(st, r)
    && forall id | id in st.owner && st.owner[id] == r :: OwnedOk(st, id)
  }

  predicate Unused(st: State, id: nat) {
    id !in st.s.open && id !in st.s.cursors && id !in st.s.closes && id !in st.owner
  }

  ghost predicate Stepped(st: State, st': State, r: nat) {
    OnlyTouches(st, st', r) && Mine(st', r)
  }

  lemma InvGivesMine(st: State, r: nat)
    requires Inv(st) && r in st.procs
    ensures Mine(st, r) && Unused(st, st.s.next)
  {
  }

  lemma SteppedInv(st: State, st': State, r: nat)
    requires Inv(st) && (st.phase == Serving || st.phase == Draining) && Stepped(st, st', r)
    ensures Inv(st')
  {
    TouchedInv(st, st', r);
  }

  /** A step that only moves the program counter. */
  lemma MoveSteps(st: State, r: nat, p: Proc)
    requires Mine(st, r)
    requires p.deferred == st.procs[r].deferred && PcOk(p) && !p.pc.Ping? && !st.procs[r].pc.Ping?
    requires p.conn == st.procs[r].conn || (p.deferred == [] && p.conn.Some? && p.conn.value in st.stored.Values)
    requires p.pc.Issue? || p.pc.Fallback? || p.pc.Scan? ==>
               p.conn.Some? && (p.conn.value in st.stored.Values || Handle(p.conn.value) in p.deferred)
    ensures Stepped(st, Put(st, r, p), r)
  {
  }

  lemma OpenHandleSteps(st: State, r: nat)
    requires Mine(st, r) && Unused(st, st.s.next) && st.procs[r].pc == Connect
    ensures Stepped(st, Put(st, r, st.procs[r].(pc := Ping(st.s.next))).(
                      s := OpenHandle(st.s).0, owner := st.owner[st.s.next := r]), r)
  {
  }

  lemma PingSteps(st: State, r: nat, h: nat, ok: bool)
    requires Mine(st, r) && st.procs[r].pc == Ping(h)
    ensures Stepped(st, PingStep(st, r, h, ok), r)
  {
  }

  lemma CursorDeferred(p: Proc, c: nat)
    requires DeferredOk(p) && p.conn.Some? && |p.deferred| <= 1 && (p.deferred != [] ==> p.deferred[0].Handle?)
    ensures DeferredOk(p.(deferred := p.deferred + [Cursor(c)]))
    ensures forall d :: d in p.deferred + [Cursor(c)] <==> d in p.deferred || d == Cursor(c)
  {
    assert (p.deferred + [Cursor(c)])[|p.deferred|] == Cursor(c);
  }

  lemma OpenCursorSteps(st: State, r: nat, p: Proc)
    requires Mine(st, r) && Unused(st, st.s.next) && st.procs[r].pc == Issue
    requires p == st.procs[r].(pc := Scan, deferred := st.procs[r].deferred + [Cursor(st.s.next)])
    ensures Stepped(st, Put(st, r, p).(s := OpenCursor(st.s, st.procs[r].conn.value).0,
                                       owner := st.owner[st.s.next := r]), r)
  {
    var c := st.s.next;
    var st' := Put(st, r, p).(s := OpenCursor(st.s, st.procs[r].conn.value).0, owner := st.owner[c := r]);
    CursorDeferred(st.procs[r], c);
    hide DeferredOk;
    OpenedIdsOk(st, st', r, c);
    assert ProcOk(st', r) by { hide OwnedOk, OnlyTouches; }
    hide ProcOk, OwnedOk, OnlyTouches;
  }

  lemma OpenedIdsOk(st: State, st': State, r: nat, c: nat)
    requires Mine(st, r) && Unused(st, st.s.next) && st.procs[r].pc == Issue && c == st.s.next
    requires r in st'.procs && st'.procs[r].deferred == st.procs[r].deferred + [Cursor(c)]
    requires st' == Put(st, r, st'.procs[r]).(s := OpenCursor(st.s, st.procs[r].conn.value).0,
                                              owner := st.owner[c := r])
    ensures OnlyTouches(st, st', r)
    ensures forall id | id in st'.owner && st'.owner[id] == r :: OwnedOk(st', id)
  {
    var before, after := st.procs[r].deferred, st'.procs[r].deferred;
    assert after[|before|] == Cursor(c) && forall d :: d in before ==> d in after;
    hide ProcOk;
    forall id | id in st'.owner && st'.owner[id] == r ensures OwnedOk(st', id) {
      if id != c { assert OwnedOk(st, id); }
    }
  }

  lemma UnwindSteps(st: State, r: nat)
    requires Mine(st, r) && st.procs[r].pc == Unwind
    ensures Stepped(st, UnwindStep(st, r), r)
  {
    hide Stepped, OwnedOk;
    var p := st.procs[r];
    if p.deferred == [] {
      MoveSteps(st, r, p.(pc := Finished));
    } else if p.deferred[|p.deferred| - 1].Cursor? {
      CloseCursorSteps(st, r, p.deferred[|p.deferred| - 1].c);
    } else {
      assert p.deferred == [Handle(p.conn.value)];
      CloseHandleSteps(st, r, p.conn.value);
    }
  }

  lemma CloseHandleSteps(st: State, r: nat, h: nat)
    requires Mine(st, r) && st.procs[r].pc == Unwind && st.procs[r].deferred == [Handle(h)]
    ensures Stepped(st, UnwindStep(st, r), r)
  {
    var st' := UnwindStep(st, r);
    assert OwnedOk(st, h);
    assert OnlyTouches(st, st', r);
    assert ProcOk(st', r);
  }

  lemma CloseCursorSteps(st: State, r: nat, c: nat)
    requires Mine(st, r) && st.procs[r].pc == Unwind
    requires st.procs[r].deferred != [] && st.procs[r].deferred[|st.procs[r].deferred| - 1] == Cursor(c)
    ensures Stepped(st, UnwindStep(st, r), r)
  {
    var st' := UnwindStep(st, r);
    var p, p' := st.procs[r], st'.procs[r];
    assert Cursor(c) in p.deferred && OwnedOk(st, c);
    assert forall d :: d in p.deferred <==> d in p'.deferred || d == Cursor(c);
    assert Cursor(c) !in p'.deferred;
    assert OnlyTouches(st, st', r);
    forall id | id in st'.owner && st'.owner[id] == r ensures OwnedOk(st', id) {
      assert OwnedOk(st, id);
    }
    hide OwnedOk, OnlyTouches;
    assert DeferredOk(p');
    hide DeferredOk;
    assert ProcOk(st', r);
  }

  // ----- every step keeps the invariant -----

  lemma LocalInv(st: State, r: nat, ok: bool)
    requires Inv(st) && Enabled(st, Local(r, ok))
    ensures Inv(LocalStep(st, r, ok))
  {
    InvGivesMine(st, r);
    LocalStepped(st, r, ok);
    if LocalStep(st, r, ok) != st {
      hide Inv, LocalStep;
      SteppedInv(st, LocalStep(st, r, ok), r);
    }
  }

  lemma LocalStepped(st: State, r: nat, ok: bool)
    requires Live(st, r) && Mine(st, r) && Unused(st, st.s.next)
    ensures LocalStep(st, r, ok) == st || Stepped(st, LocalStep(st, r, ok), r)
  {
    var p := st.procs[r];
    hide Stepped;
    match p.pc {
      case Enter => EnterStepped(st, r);
      case Connect => ConnectStepped(st, r, ok);
      case Ping(h) => PingSteps(st, r, h, ok);
      case Issue => IssueStepped(st, r, ok);
      case Fallback => MoveSteps(st, r, p.(pc := Unwind));
      case Scan => MoveSteps(st, r, p.(pc := Unwind));
      case Unwind => UnwindSteps(st, r);
    }
  }

  lemma EnterStepped(st: State, r: nat)
    requires Mine(st, r) && st.procs[r].pc == Enter
    ensures Stepped(st, EnterStep(st, r), r)
  {
    hide Stepped;
    var p := st.procs[r];
    var backend := if p.request.route.Shared? then p.request.route.backend else Postgres;
    if backend !in st.stored || p.request.refused {
      MoveSteps(st, r, p.(pc := Unwind));
    } else if p.request.route.Shared? {
      MoveSteps(st, r, p.(pc := Issue, conn := Some(st.stored[backend])));
    } else {
      MoveSteps(st, r, p.(pc := Connect));
    }
  }

  lemma ConnectStepped(st: State, r: nat, ok: bool)
    requires Mine(st, r) && Unused(st, st.s.next) && st.procs[r].pc == Connect
    ensures Stepped(st, ConnectStep(st, r, ok), r)
  {
    hide Stepped;
    var p := st.procs[r];
    OpenHandleSteps(st, r);
    MoveSteps(st, r, p.(pc := Unwind));
    if Postgres in st.stored {
      MoveSteps(st, r, p.(pc := Issue, conn := Some(st.stored[Postgres])));
    }
  }

  lemma IssueStepped(st: State, r: nat, ok: bool)
    requires Mine(st, r) && Unused(st, st.s.next) && st.procs[r].pc == Issue
    ensures Stepped(st, IssueStep(st, r, ok), r)
  {
    hide Stepped;
    var p := st.procs[r];
    if p.request.shape.Reads? && ok {
      OpenCursorSteps(st, r, p.(pc := Scan, deferred := p.deferred + [Cursor(st.s.next)]));
    } else if p.request.shape.Inserts? && !ok {
      MoveSteps(st, r, p.(pc := Fallback));
    } else {
      MoveSteps(st, r, p.(pc := Unwind));
    }
  }

  lemma BeginInv(st: State, r: nat, request: Request)
    requires Inv(st) && Enabled(st, Begin(r, request))
    ensures Inv(Apply(st, Begin(r, request)))
  {
  }

  lemma InitInv(st: State)
    requires Init(st)
    ensures Inv(st)
  {
  }

  /** Manager.Close closes each stored handle once and nothing else. */
  lemma CloseStoredCloses(stored: map<Backend, nat>, s: Sessions)
    requires forall a, b | a in stored && b in stored && a != b :: stored[a] != stored[b]
    ensures var s' := CloseStored(stored, s);
            && s'.open == s.open - stored.Values
            && s'.cursors == s.cursors && s'.next == s.next
            && (forall id: nat :: Closes(s', id) == Closes(s, id) + if id in stored.Values then 1 else 0)
            && (forall id: nat :: id in s'.closes <==> id in s.closes || id in stored.Values)
  {
    StoredValues(stored);
    var a := CloseIfStored(stored, Postgres, s);
    var b := CloseIfStored(stored, Mongo, a);
    ClosesOne(stored, Postgres, s);
    ClosesOne(stored, Mongo, a);
    ClosesOne(stored, Redis, b);
    hide CloseIfStored, Closes;
  }

  lemma ClosesOne(stored: map<Backend, nat>, b: Backend, s: Sessions)
    ensures var s' := CloseIfStored(stored, b, s);
            && s'.open == s.open - Of(stored, b)
            && s'.cursors == s.cursors && s'.next == s.next
            && (forall id: nat :: Closes(s', id) == Closes(s, id) + if id in Of(stored, b) then 1 else 0)
            && (forall id: nat :: id in s'.closes <==> id in s.closes || id in Of(stored, b))
  {
  }

  ghost function Of(stored: map<Backend, nat>, b: Backend): set<nat> {
    if b in stored then {stored[b]} else {}
  }

  lemma StoredValues(stored: map<Backend, nat>)
    ensures forall h: nat ::
              h in stored.Values <==> h in Of(stored, Postgres) || h in Of(stored, Mongo) || h in Of(stored, Redis)
  {
    forall h | h in stored.Values
      ensures h in Of(stored, Postgres) || h in Of(stored, Mongo) || h in Of(stored, Redis)
    {
      var b :| b in stored && stored[b] == h;
      assert b == Postgres || b == Mongo || b == Redis;
    }
  }

  /** When every request has returned, only the process's own handles are open. */
  lemma IdleOpen(st: State)
    requires Inv(st) && st.phase != Closed && forall r | r in st.procs :: !Live(st, r)
    ensures st.s.open == st.stored.Values + st.leaked && st.s.cursors == map[]
    ensures forall id | id in st.owner :: IsClosedOnce(st, id)
  {
    forall id | id in st.owner ensures IsClosedOnce(st, id) {
      assert OwnedOk(st, id) && !Live(st, st.owner[id]) && ProcOk(st, st.owner[id]);
    }
    forall h: nat ensures h in st.s.open <==> h in st.stored.Values || h in st.leaked {
    }
    forall c: nat ensures c !in st.s.cursors {
      if c in st.stored.Values || c in st.leaked {
        assert IsOpenHandle(st, c);
      }
    }
  }

  ghost predicate ClosesStored(st: State, st': State) {
    && st' == st.(phase := Closed, s := st'.s)
    && st'.s.open == st.leaked && st'.s.cursors == map[] && st'.s.next == st.s.next
    && (forall id: nat :: Closes(st'.s, id) == Closes(st.s, id) + if id in st.stored.Values then 1 else 0)
    && (forall id: nat :: id in st'.s.closes <==> id in st.s.closes || id in st.stored.Values)
  }

  lemma ClosedIds(st: State, st': State)
    requires Inv(st) && st.phase == Stopped && ClosesStored(st, st')
    ensures forall id | id in st.owner :: IsClosedOnce(st', id)
    ensures SharedOk(st')
  {
    IdleOpen(st);
    forall id | id in st.owner ensures IsClosedOnce(st', id) {
      assert IsClosedOnce(st, id) && Closes(st'.s, id) == Closes(st.s, id);
    }
    forall h | h in st.stored.Values ensures IsClosedOnce(st', h) {
      assert IsOpenHandle(st, h) && Closes(st'.s, h) == Closes(st.s, h) + 1;
    }
    forall h | h in st.leaked ensures IsOpenHandle(st', h) {
      assert IsOpenHandle(st, h) && h !in st.stored.Values;
    }
  }

  lemma ReturnedProcs(st: State, st': State)
    requires Inv(st) && st.phase == Stopped && ClosesStored(st, st')
    ensures forall r | r in st'.procs :: ProcOk(st', r) && !Live(st', r)
  {
    forall r | r in st'.procs ensures ProcOk(st', r) && !Live(st', r) {
      assert ProcOk(st, r) && !Live(st, r);
    }
  }

  lemma CloseInv(st: State)
    requires Inv(st) && Enabled(st, CloseAll)
    ensures Inv(Apply(st, CloseAll))
    ensures Apply(st, CloseAll).s.open == st.leaked
  {
    var st' := Apply(st, CloseAll);
    CloseStoredCloses(st.stored, st.s);
    IdleOpen(st);
    assert ClosesStored(st, st') by { assert st.stored.Values !! st.leaked; }
    ClosedIds(st, st');
    ReturnedProcs(st, st');
    hide CloseStored, SharedOk, ProcOk;
    assert KnownIds(st') by { assert KnownIds(st); }
    assert forall id | id in st'.owner :: OwnedOk(st', id) by {
      forall id | id in st'.owner ensures OwnedOk(st', id) { assert OwnedOk(st, id) && IsClosedOnce(st', id); }
    }
  }

  lemma PhaseIsNotOwned(st: State, phase: Phase)
    requires forall id | id in st.owner :: OwnedOk(st, id)
    requires forall r | r in st.procs :: ProcOk(st, r)
    ensures var st' := st.(phase := phase);
            && (forall id | id in st'.owner :: OwnedOk(st', id))
            && (forall r | r in st'.procs :: ProcOk(st', r))
  {
    var st' := st.(phase := phase);
    forall id | id in st'.owner ensures OwnedOk(st', id) { assert OwnedOk(st, id); }
    forall r | r in st'.procs ensures ProcOk(st', r) { assert ProcOk(st, r); }
  }

  lemma PhaseIsNotShared(st: State, phase: Phase)
    requires SharedOk(st) && KnownIds(st) && st.phase != Closed && phase != Closed
    ensures SharedOk(st.(phase := phase)) && KnownIds(st.(phase := phase))
  {
  }

  lemma PhaseInv(st: State, step: Step)
    requires Inv(st) && Enabled(st, step)
    requires step.Signal? || step.Drained? || step.Abort?
    ensures Inv(Apply(st, step))
  {
    PhaseIsNotOwned(st, Apply(st, step).phase);
    PhaseIsNotShared(st, Apply(st, step).phase);
    hide ProcOk, OwnedOk, SharedOk, KnownIds;
  }

  lemma StepInv(st: State, step: Step)
    requires Inv(st) && Enabled(st, step)
    ensures Inv(Apply(st, step))
  {
    hide Inv, LocalStep, CloseStored;
    match step {
      case Begin(r, request) => BeginInv(st, r, request);
      case Local(r, ok) => LocalInv(st, r, ok);
      case CloseAll => CloseInv(st);
      case _ => PhaseInv(st, step);
    }
  }

  lemma {:induction false} RunInv(st: State, steps: seq<Step>)
    requires Inv(st) && IsRun(st, steps)
    ensures Inv(End(st, steps))
    decreases |steps|
  {
    hide Inv, Apply, Enabled;
    if steps != [] {
      StepInv(st, steps[0]);
      RunInv(Apply(st, steps[0]), steps[1..]);
    }
  }

  // ----- main results -----

  ghost predicate Reachable(st: State) {
    exists start: State, steps :: Init(start) && IsRun(start, steps) && End(start, steps) == st
  }

  lemma ReachableInv(st: State)
    requires Reachable(st)
    ensures Inv(st)
  {
    hide Inv, Init;
    var start, steps :| Init(start) && IsRun(start, steps) && End(start, steps) == st;
    InitInv(start);
    RunInv(start, steps);
  }

  ghost predicate IsTemporary(st: State, h: nat) {
    h in st.s.open && h !in st.stored.Values && h !in st.leaked
  }

  /**
   In every reachable state: every open temporary handle is to be closed by exactly one request;
   nothing was ever closed twice; an open cursor's handle is open, so a cursor is closed before its
   handle; and the shared handles are open until the process closes them.
   */
  lemma ConnectionsAreSafe(st: State)
    requires Reachable(st)
    ensures forall h | IsTemporary(st, h) :: exists r :: r in st.procs && Live(st, r) && Holds(st.procs[r], h)
    ensures forall h, q, r | q in st.procs && r in st.procs && Holds(st.procs[q], h) && Holds(st.procs[r], h) :: q == r
    ensures forall id: nat :: Closes(st.s, id) <= 1
    ensures forall c | c in st.s.cursors :: st.s.cursors[c] in st.s.open
    ensures st.phase != Closed ==> st.stored.Values <= st.s.open
  {
    ReachableInv(st);
    forall h | IsTemporary(st, h) ensures exists r :: r in st.procs && Live(st, r) && Holds(st.procs[r], h) {
      assert OwnedOk(st, h);
      var r := st.owner[h];
      assert ProcOk(st, r) && Holds(st.procs[r], h);
    }
    forall q, r, h | q in st.procs && r in st.procs && Holds(st.procs[q], h) && Holds(st.procs[r], h) ensures q == r {
      assert ProcOk(st, q) && ProcOk(st, r);
    }
    forall id: nat ensures Closes(st.s, id) <= 1 {
      if id in st.owner { assert OwnedOk(st, id); }
    }
    forall c | c in st.s.cursors ensures st.s.cursors[c] in st.s.open {
      CursorHandleIsOpen(st, c);
    }
  }

  lemma CursorHandleIsOpen(st: State, c: nat)
    requires Inv(st) && c in st.s.cursors
    ensures st.s.cursors[c] in st.s.open
  {
    assert c in st.owner ==> OwnedOk(st, c);
    assert c in st.stored.Values || c in st.leaked ==> !IsOpenCursor(st, c);
    var r := st.owner[c];
    assert ProcOk(st, r) && Live(st, r);
    var h := st.procs[r].conn.value;
    if h in st.stored.Values { assert IsOpenHandle(st, h); } else { assert Holds(st.procs[r], h); }
  }

  /** A request that has returned has closed, once, everything it opened. */
  lemma FinishedLeavesNothing(st: State, r: nat)
    requires Reachable(st) && r in st.procs && !Live(st, r)
    ensures forall id | id in st.owner && st.owner[id] == r :: IsClosedOnce(st, id)
    ensures forall h :: !Holds(st.procs[r], h)
  {
    ReachableInv(st);
    assert ProcOk(st, r);
    forall id | id in st.owner && st.owner[id] == r ensures IsClosedOnce(st, id) {
      assert OwnedOk(st, id);
    }
  }

  /** No request's step opens, closes or reads from what another request or the process opened. */
  lemma StepsDoNotInterfere(st: State, r: nat, ok: bool, id: nat)
    requires Reachable(st) && Enabled(st, Local(r, ok))
    requires id in st.owner ==> st.owner[id] != r
    requires id < st.s.next
    ensures SameId(st, Apply(st, Local(r, ok)), id)
  {
    ReachableInv(st);
    InvGivesMine(st, r);
    LocalStepped(st, r, ok);
  }

  // ----- what requests open -----

  /** Only a valid request for a database other than the default one gets a handle of its own. */
  predicate AsksForHandle(q: Request, defaultDatabase: string) {
    q.route.Named? && q.route.database != "" && q.route.database != defaultDatabase && !q.refused
  }

  predicate ClaimOk(st: State, p: Proc) {
    && (p.pc.Connect? ==> p.request.route.Named?)
    && (p.pc.Ping? || (p.deferred != [] && p.deferred[0].Handle?) ==> AsksForHandle(p.request, st.defaultDatabase))
    && (p.pc.Enter? || p.pc.Unwind? || p.pc.Finished? || !p.request.refused)
  }

  /** The same claim for everything that was ever opened, closed or not. */
  predicate OpenedOk(st: State, id: nat)
    requires id in st.owner
  {
    st.owner[id] in st.procs && !st.procs[st.owner[id]].request.refused
  }

  ghost predicate Claims(st: State) {
    && (forall r | r in st.procs :: ClaimOk(st, st.procs[r]))
    && (forall id | id in st.owner :: OpenedOk(st, id))
  }

  /** What a step of a request leaves alone. */
  lemma LocalFrame(st: State, r: nat, ok: bool)
    requires Live(st, r)
    ensures var st' := LocalStep(st, r, ok);
            && r in st'.procs && st'.procs == st.procs[r := st'.procs[r]]
            && st'.defaultDatabase == st.defaultDatabase && st'.phase == st.phase
            && st'.procs[r].request == st.procs[r].request
            && (st'.owner == st.owner
                || ((st.procs[r].pc.Connect? || st.procs[r].pc.Issue?) && st'.owner == st.owner[st.s.next := r]))
  {
  }

  lemma LocalClaim(st: State, r: nat, ok: bool)
    requires Live(st, r) && ClaimOk(st, st.procs[r]) && PcOk(st.procs[r])
    ensures ClaimOk(st, LocalStep(st, r, ok).procs[r])
  {
    hide OpenCursor, CloseHandle, CloseCursor;
  }

  lemma LocalClaims(st: State, r: nat, ok: bool)
    requires Claims(st) && Live(st, r) && PcOk(st.procs[r])
    ensures Claims(LocalStep(st, r, ok))
  {
    LocalFrame(st, r, ok);
    LocalClaim(st, r, ok);
    hide LocalStep, PcOk;
    var st' := LocalStep(st, r, ok);
    forall q | q in st'.procs ensures ClaimOk(st', st'.procs[q]) {
      assert q != r ==> ClaimOk(st, st.procs[q]);
    }
    forall id | id in st'.owner ensures OpenedOk(st', id) {
      assert id in st.owner ==> OpenedOk(st, id);
    }
  }

  lemma OtherClaims(st: State, step: Step)
    requires Claims(st) && Enabled(st, step) && !step.Local?
    ensures Claims(Apply(st, step))
  {
    hide CloseStored;
    var st' := Apply(st, step);
    forall q | q in st'.procs ensures ClaimOk(st', st'.procs[q]) {
      assert q in st.procs ==> ClaimOk(st, st.procs[q]);
    }
    forall id | id in st'.owner ensures OpenedOk(st', id) {
      assert OpenedOk(st, id);
    }
  }

  lemma StepClaims(st: State, step: Step)
    requires Inv(st) && Claims(st) && Enabled(st, step)
    ensures Claims(Apply(st, step))
  {
    if step.Local? {
      assert ProcOk(st, step.r);
      hide Inv, Claims, LocalStep, DeferredOk;
      LocalClaims(st, step.r, step.ok);
    } else {
      hide Inv, Claims;
      OtherClaims(st, step);
    }
  }

  lemma {:induction false} RunClaims(st: State, steps: seq<Step>)
    requires Inv(st) && Claims(st) && IsRun(st, steps)
    ensures Claims(End(st, steps))
    decreases |steps|
  {
    hide Inv, Claims, Apply, Enabled;
    if steps != [] {
      StepInv(st, steps[0]);
      StepClaims(st, steps[0]);
      RunClaims(Apply(st, steps[0]), steps[1..]);
    }
  }

  /**
   In every reachable state an open temporary handle belongs to a valid request that named a
   database other than the default one, and a refused request has never opened anything.
   */
  lemma RequestsOpenWhatTheyAskFor(st: State)
    requires Reachable(st)
    ensures forall h | IsTemporary(st, h) ::
              h in st.owner && st.owner[h] in st.procs
              && AsksForHandle(st.procs[st.owner[h]].request, st.defaultDatabase)
    ensures forall id | id in st.owner :: st.owner[id] in st.procs && !st.procs[st.owner[id]].request.refused
  {
    ReachableInv(st);
    var start, steps :| Init(start) && IsRun(start, steps) && End(start, steps) == st;
    InitInv(start);
    RunClaims(start, steps);
    forall id | id in st.owner ensures st.owner[id] in st.procs && !st.procs[st.owner[id]].request.refused {
      assert OpenedOk(st, id);
    }
    forall h | IsTemporary(st, h)
      ensures h in st.owner && st.owner[h] in st.procs
      ensures AsksForHandle(st.procs[st.owner[h]].request, st.defaultDatabase)
    {
      HandleIsAskedFor(st, h);
    }
  }

  lemma HolderAsks(st: State, p: Proc, h: nat)
    requires Holds(p, h) && DeferredOk(p) && ClaimOk(st, p)
    ensures AsksForHandle(p.request, st.defaultDatabase)
  {
  }

  lemma HandleIsAskedFor(st: State, h: nat)
    requires Inv(st) && Claims(st) && IsTemporary(st, h)
    ensures h in st.owner && st.owner[h] in st.procs
    ensures AsksForHandle(st.procs[st.owner[h]].request, st.defaultDatabase)
  {
    assert h in st.owner && OwnedOk(st, h);
    var r := st.owner[h];
    assert ProcOk(st, r) && ClaimOk(st, st.procs[r]);
    hide *;
    HolderAsks(st, st.procs[r], h);
  }

  // ----- a request on its own -----

  ghost predicate StepsOf(r: nat, steps: seq<Step>) {
    forall s | s in steps :: s.Local? && s.r == r
  }

  ghost predicate TouchedOnlyOwn(st: State, e: State, r: nat) {
    && (forall id: nat | !(id in e.owner && e.owner[id] == r) :: SameId(st, e, id))
    && (forall id | id in st.owner :: id in e.owner && e.owner[id] == st.owner[id])
    && (forall id | id in e.owner && id !in st.owner :: st.s.next <= id)
  }

  lemma TouchesCompose(a: State, b: State, c: State, r: nat)
    requires TouchedOnlyOwn(a, b, r) && TouchedOnlyOwn(b, c, r) && a.s.next <= b.s.next
    ensures TouchedOnlyOwn(a, c, r)
  {
    forall id: nat | !(id in c.owner && c.owner[id] == r) ensures SameId(a, c, id) {
      assert SameId(a, b, id) && SameId(b, c, id);
    }
  }

  lemma OwnStepTouches(st: State, r: nat, ok: bool)
    requires Inv(st) && Enabled(st, Local(r, ok))
    ensures var st' := Apply(st, Local(r, ok));
            TouchedOnlyOwn(st, st', r) && st.s.next <= st'.s.next && r in st'.procs
  {
    InvGivesMine(st, r);
    LocalStepped(st, r, ok);
    hide Inv, LocalStep, Mine;
    assert LocalStep(st, r, ok) == st || OnlyTouches(st, LocalStep(st, r, ok), r);
  }

  lemma {:induction false} OwnStepsTouchOwnIds(st: State, r: nat, steps: seq<Step>)
    requires Inv(st) && IsRun(st, steps) && StepsOf(r, steps) && r in st.procs
    ensures r in End(st, steps).procs && TouchedOnlyOwn(st, End(st, steps), r)
    decreases |steps|
  {
    if steps != [] {
      assert steps[0] in steps;
      var next := Apply(st, steps[0]);
      OwnStepTouches(st, r, steps[0].ok);
      StepInv(st, steps[0]);
      hide Inv, Apply, Enabled, TouchedOnlyOwn;
      OwnStepsTouchOwnIds(next, r, steps[1..]);
      TouchesCompose(st, next, End(st, steps), r);
    }
  }

  lemma OpenIdsAreOld(st: State, id: nat)
    requires Inv(st) && (id in st.s.open || id in st.s.cursors)
    ensures id < st.s.next && (id in st.owner ==> st.owner[id] in st.procs)
  {
    if id in st.owner { assert OwnedOk(st, id); }
  }

  lemma ReturnedIds(st: State, r: nat, id: nat)
    requires Inv(st) && r in st.procs && !Live(st, r) && id in st.owner && st.owner[id] == r
    ensures id !in st.s.open && id !in st.s.cursors
  {
    assert OwnedOk(st, id) && ProcOk(st, r);
  }

  lemma SameWhenReturned(st: State, e: State, r: nat, id: nat)
    requires Inv(st) && Inv(e) && TouchedOnlyOwn(st, e, r)
    requires r in e.procs && !Live(e, r)
    requires forall i | i in st.owner :: st.owner[i] != r
    ensures id in e.s.open <==> id in st.s.open
    ensures id in e.s.cursors <==> id in st.s.cursors
    ensures id in e.s.cursors ==> e.s.cursors[id] == st.s.cursors[id]
  {
    if id in st.s.open || id in st.s.cursors { OpenIdsAreOld(st, id); }
    hide Inv;
    if id in e.owner && e.owner[id] == r {
      ReturnedIds(e, r, id);
    } else {
      assert SameId(st, e, id);
    }
  }

  lemma UnknownOwnsNothing(st: State, r: nat)
    requires Inv(st) && r !in st.procs
    ensures forall i | i in st.owner :: st.owner[i] != r
  {
    forall i | i in st.owner ensures st.owner[i] != r { assert OwnedOk(st, i); }
  }

  /** A request that runs alone until it returns leaves the open handles and cursors as it found them. */
  lemma RequestRestoresConnections(st: State, r: nat, request: Request, steps: seq<Step>)
    requires Reachable(st) && Enabled(st, Begin(r, request))
    requires IsRun(Apply(st, Begin(r, request)), steps) && StepsOf(r, steps)
    requires !Live(End(Apply(st, Begin(r, request)), steps), r)
    ensures var e := End(Apply(st, Begin(r, request)), steps);
            e.s.open == st.s.open && e.s.cursors == st.s.cursors
  {
    hide Inv, End, IsRun, Reachable;
    var begun := Apply(st, Begin(r, request));
    var e := End(begun, steps);
    ReachableInv(st);
    UnknownOwnsNothing(st, r);
    BeginInv(st, r, request);
    RunInv(begun, steps);
    OwnStepsTouchOwnIds(begun, r, steps);
    forall id: nat
      ensures id in e.s.open <==> id in begun.s.open
      ensures id in e.s.cursors <==> id in begun.s.cursors
      ensures id in e.s.cursors ==> e.s.cursors[id] == begun.s.cursors[id]
    {
      SameWhenReturned(begun, e, r, id);
    }
  }

  // ----- shutting down -----

  /** The shared handles are closed only when every request has returned, and then only the leaked ones are open. */
  lemma ShutdownClosesEverythingStored(st: State)
    requires Reachable(st) && (st.phase == Stopped || st.phase == Closed)
    ensures forall r | r in st.procs :: !Live(st, r)
    ensures st.s.cursors == map[]
    ensures st.s.open == if st.phase == Closed then st.leaked else st.stored.Values + st.leaked
    ensures st.phase == Closed ==> forall h | h in st.stored.Values :: Closes(st.s, h) == 1
  {
    ReachableInv(st);
    if st.phase == Stopped {
      IdleOpen(st);
    } else {
      forall id | id in st.owner ensures IsClosedOnce(st, id) {
        assert OwnedOk(st, id) && ProcOk(st, st.owner[id]);
      }
      forall h: nat ensures h in st.s.open <==> h in st.leaked {
        if h in st.stored.Values { assert IsClosedOnce(st, h); }
        if h in st.leaked { assert IsOpenHandle(st, h); }
      }
      forall c: nat ensures c !in st.s.cursors {
        if c in st.stored.Values { assert IsClosedOnce(st, c); }
        if c in st.leaked { assert IsOpenHandle(st, c); }
      }
    }
  }

  /** An upper bound on the steps a request still needs when nothing succeeds any more. */
  ghost function Remaining(p: Proc): nat {
    match p.pc
    case Enter => 9
    case Connect => 8
    case Ping(_) => 7
    case Issue => 6
    case Fallback => 5
    case Scan => 4
    case Unwind => 1 + |p.deferred|
    case Finished => 0
  }

  lemma FailingStepApproachesReturn(st: State, r: nat)
    requires st.phase == Draining && Live(st, r) && |st.procs[r].deferred| <= 2
    ensures var st' := Apply(st, Local(r, false));
            && st'.phase == Draining && st'.procs == st.procs[r := st'.procs[r]]
            && Remaining(st'.procs[r]) < Remaining(st.procs[r])
  {
  }

  lemma {:induction false} RunsConcatenate(st: State, a: seq<Step>, b: seq<Step>)
    requires IsRun(st, a) && IsRun(End(st, a), b)
    ensures IsRun(st, a + b) && End(st, a + b) == End(End(st, a), b)
    decreases |a|
  {
    hide Apply, Enabled;
    if a == [] {
      assert a + b == b;
    } else {
      assert (a + b)[1..] == a[1..] + b && (a + b)[0] == a[0];
      RunsConcatenate(Apply(st, a[0]), a[1..], b);
    }
  }

  lemma OneStep(st: State, step: Step)
    requires Enabled(st, step)
    ensures IsRun(st, [step]) && End(st, [step]) == Apply(st, step)
  {
    hide Apply, Enabled;
    assert [step][1..] == [];
    assert IsRun(Apply(st, step), []);
    assert End(Apply(st, step), []) == Apply(st, step);
  }

  lemma StepTowardsReturn(st: State, r: nat)
    requires Inv(st) && st.phase == Draining && Live(st, r)
    ensures Enabled(st, Local(r, false))
    ensures var next := Apply(st, Local(r, false));
            && Inv(next) && next.phase == Draining
            && r in next.procs && next.procs == st.procs[r := next.procs[r]]
            && Remaining(next.procs[r]) < Remaining(st.procs[r])
            && IsRun(st, [Local(r, false)]) && End(st, [Local(r, false)]) == next
  {
    var step := Local(r, false);
    assert ProcOk(st, r) && Enabled(st, step);
    FailingStepApproachesReturn(st, r);
    StepInv(st, step);
    hide *;
    OneStep(st, step);
  }

  lemma {:induction false} RequestReturns(st: State, r: nat) returns (steps: seq<Step>)
    requires Inv(st) && st.phase == Draining && r in st.procs
    ensures IsRun(st, steps)
    ensures var e := End(st, steps);
            e.phase == Draining && r in e.procs && !Live(e, r) && e.procs == st.procs[r := e.procs[r]]
    decreases Remaining(st.procs[r])
  {
    hide Inv, Apply, Enabled, Remaining;
    if !Live(st, r) {
      steps := [];
    } else {
      var step := Local(r, false);
      StepTowardsReturn(st, r);
      var more := RequestReturns(Apply(st, step), r);
      hide IsRun, End;
      RunsConcatenate(st, [step], more);
      steps := [step] + more;
    }
  }

  lemma {:induction false} RequestsReturn(st: State, waiting: set<nat>) returns (steps: seq<Step>)
    requires Inv(st) && st.phase == Draining && waiting == set r | r in st.procs && Live(st, r)
    ensures IsRun(st, steps)
    ensures var e := End(st, steps);
            e.phase == Draining && forall r | r in e.procs :: !Live(e, r)
    decreases |waiting|
  {
    if waiting == {} {
      steps := [];
      forall r | r in st.procs ensures !Live(st, r) { assert r !in waiting; }
    } else {
      var r :| r in waiting;
      var first := RequestReturns(st, r);
      RunInv(st, first);
      hide Inv;
      var mid := End(st, first);
      var fewer := set q | q in mid.procs && Live(mid, q);
      assert fewer <= waiting - {r};
      SubsetSize(fewer, waiting - {r});
      var more := RequestsReturn(mid, fewer);
      RunsConcatenate(st, first, more);
      steps := first + more;
    }
  }

  lemma {:induction false} SubsetSize(a: set<nat>, b: set<nat>)
    requires a <= b
    ensures |a| <= |b|
  {
    if a != {} {
      var x :| x in a;
      SubsetSize(a - {x}, b - {x});
    }
  }

  /** Once the router drains, no request is admitted any more. */
  lemma {:induction false} DrainingAdmitsNobody(st: State, steps: seq<Step>)
    requires st.phase != Serving && IsRun(st, steps)
    ensures End(st, steps).procs.Keys == st.procs.Keys && End(st, steps).phase != Serving
    decreases |steps|
  {
    if steps != [] {
      DrainingStep(st, steps[0]);
      hide Apply, Enabled;
      DrainingAdmitsNobody(Apply(st, steps[0]), steps[1..]);
    }
  }

  lemma DrainingStep(st: State, step: Step)
    requires st.phase != Serving && Enabled(st, step)
    ensures Apply(st, step).phase != Serving && Apply(st, step).procs.Keys == st.procs.Keys
  {
    if step.Local? { LocalFrame(st, step.r, step.ok); }
    hide LocalStep, CloseStored;
  }

  /** No deadlock: whatever the requests are doing, a router that is not aborted can drain, stop and close. */
  lemma ShutdownCanComplete(st: State) returns (steps: seq<Step>)
    requires Reachable(st) && (st.phase == Serving || st.phase == Draining)
    ensures IsRun(st, steps) && End(st, steps).phase == Closed
  {
    ReachableInv(st);
    hide Inv, Reachable;
    var head: seq<Step> := [];
    var draining := st;
    if st.phase == Serving {
      OneStep(st, Signal);
      head := [Signal];
      draining := Apply(st, Signal);
      StepInv(st, Signal);
    }
    var drain := RequestsReturn(draining, set r | r in draining.procs && Live(draining, r));
    var idle := End(draining, drain);
    OneStep(idle, Drained);
    var stopped := Apply(idle, Drained);
    OneStep(stopped, CloseAll);
    RunsConcatenate(idle, [Drained], [CloseAll]);
    RunsConcatenate(draining, drain, [Drained] + [CloseAll]);
    RunsConcatenate(st, head, drain + ([Drained] + [CloseAll]));
    steps := head + (drain + ([Drained] + [CloseAll]));
  }
}
