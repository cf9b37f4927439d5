/**
 The handle and cursor operations of one request to PostgreSQL, as a request of the state machine
 that runs alone performs them. The service methods are proved to perform these.
 */
module Requests {
  import opened Wrappers
  import opened Sessions
  import opened Lifecycle

  /** How a request got its connection: not at all, the shared one, or a handle of its own. */
  datatype Opening = Unopened | SharedHandle | Unanswered | OwnHandle

  /** A path through GetPostgresConnection and one statement; `cursor` if a cursor was pinging. */
  datatype Path = Path(opening: Opening, cursor: bool)

  /** What a path does to the handles and cursors, call by call. */
  function Performed(s: Sessions, shared: nat, path: Path): Sessions {
    match path.opening
    case Unopened => s
    case SharedHandle => WithCursor(s, shared, path.cursor)
    case Unanswered => CloseHandle(OpenHandle(s).0, s.next)
    case OwnHandle => CloseHandle(WithCursor(OpenHandle(s).0, s.next, path.cursor), s.next)
  }

  function WithCursor(s: Sessions, h: nat, cursor: bool): Sessions {
    if cursor then CloseCursor(OpenCursor(s, h).0, s.next) else s
  }

  /** Which paths a request can take. */
  predicate CanTake(q: Request, postgres: Option<nat>, defaultDatabase: string, path: Path) {
    && q.route.Named?
    && (path.cursor ==> q.shape.Reads?)
    && (path.opening == Unopened || path.opening == Unanswered ==> !path.cursor)
    && if postgres.None? || q.refused then path.opening == Unopened
       else if q.route.database == "" || q.route.database == defaultDatabase then path.opening == SharedHandle
       else path.opening != SharedHandle
  }

  /** From here the request alone can return, leaving the handles and cursors as given. */
  ghost predicate CanReturn(st: State, r: nat, after: Sessions) {
    exists steps :: ReturnsBy(st, r, steps, after)
  }

  ghost predicate ReturnsBy(st: State, r: nat, steps: seq<Step>, after: Sessions) {
    && IsRun(st, steps) && StepsOf(r, steps)
    && r in End(st, steps).procs && !Lifecycle.Live(End(st, steps), r) && End(st, steps).s == after
  }

  lemma HasReturned(st: State, r: nat)
    requires r in st.procs && st.procs[r].pc == Finished
    ensures CanReturn(st, r, st.s)
  {
    assert ReturnsBy(st, r, [], st.s);
  }

  lemma StepAndReturn(st: State, r: nat, ok: bool, after: Sessions)
    requires Enabled(st, Local(r, ok)) && CanReturn(Apply(st, Local(r, ok)), r, after)
    ensures CanReturn(st, r, after)
  {
    hide Apply, Enabled;
    var step := Local(r, ok);
    var more :| ReturnsBy(Apply(st, step), r, more, after);
    var steps := [step] + more;
    assert steps[1..] == more && steps[0] == step;
    assert ReturnsBy(st, r, steps, after);
  }

  function Closed(s: Sessions, d: Deferred): Sessions {
    match d case Handle(h) => CloseHandle(s, h) case Cursor(c) => CloseCursor(s, c)
  }

  /** The last deferred close runs first. */
  function Unwound(s: Sessions, deferred: seq<Deferred>): Sessions
    decreases |deferred|
  {
    if deferred == [] then s
    else
      var n := |deferred| - 1;
      Unwound(Closed(s, deferred[n]), deferred[..n])
  }

  lemma {:induction false} Unwinds(st: State, r: nat)
    requires st.phase == Serving && r in st.procs && st.procs[r].pc == Unwind
    ensures CanReturn(st, r, Unwound(st.s, st.procs[r].deferred))
    decreases |st.procs[r].deferred|
  {
    var next := Apply(st, Local(r, true));
    if st.procs[r].deferred == [] {
      HasReturned(next, r);
    } else {
      Unwinds(next, r);
    }
    hide Apply, Unwound, CanReturn;
    StepAndReturn(st, r, true, Unwound(st.s, st.procs[r].deferred));
  }

  /** With a connection in hand: execute, or open a cursor and scan it. */
  lemma Issues(st: State, r: nat, cursor: bool)
    requires st.phase == Serving && r in st.procs && st.procs[r].pc == Issue && st.procs[r].conn.Some?
    requires cursor ==> st.procs[r].request.shape.Reads?
    ensures var deferred := st.procs[r].deferred;
            CanReturn(st, r, if cursor
                             then Unwound(OpenCursor(st.s, st.procs[r].conn.value).0, deferred + [Cursor(st.s.next)])
                             else Unwound(st.s, deferred))
  {
    hide Unwound, CanReturn;
    var next := Apply(st, Local(r, cursor));
    if cursor {
      var last := Apply(next, Local(r, false));
      Unwinds(last, r);
      StepAndReturn(next, r, false, Unwound(last.s, last.procs[r].deferred));
      StepAndReturn(st, r, true, Unwound(last.s, last.procs[r].deferred));
    } else if next.procs[r].pc == Fallback {
      var last := Apply(next, Local(r, true));
      Unwinds(last, r);
      StepAndReturn(next, r, true, Unwound(last.s, last.procs[r].deferred));
      StepAndReturn(st, r, false, Unwound(last.s, last.procs[r].deferred));
    } else {
      Unwinds(next, r);
      StepAndReturn(st, r, false, Unwound(next.s, next.procs[r].deferred));
    }
  }

  function Begun(st: State, r: nat, q: Request): State { Put(st, r, Proc(q, Enter, None, [])) }

  lemma UnwoundLast(s: Sessions, front: seq<Deferred>, last: Deferred)
    ensures Unwound(s, front + [last])
         == Unwound(Closed(s, last), front)
  {
    assert (front + [last])[..|front|] == front;
  }

  /** With the connection's close deferred or not, the close of the cursor comes first. */
  lemma UnwoundBoth(s: Sessions, h: nat, c: nat)
    ensures Unwound(s, []) == s
    ensures Unwound(s, [Handle(h)]) == CloseHandle(s, h)
    ensures Unwound(s, [] + [Cursor(c)]) == CloseCursor(s, c)
    ensures Unwound(s, [Handle(h)] + [Cursor(c)]) == CloseHandle(CloseCursor(s, c), h)
  {
    var none: seq<Deferred> := [];
    assert none + [Handle(h)] == [Handle(h)];
    UnwoundLast(s, none, Handle(h));
    UnwoundLast(s, none, Cursor(c));
    UnwoundLast(s, [Handle(h)], Cursor(c));
    UnwoundLast(CloseCursor(s, c), none, Handle(h));
  }

  lemma UsesShared(st: State, r: nat, q: Request, cursor: bool)
    requires st.phase == Serving && Postgres in st.stored && q.route.Named? && (cursor ==> q.shape.Reads?)
    requires q.route.database == "" || q.route.database == st.defaultDatabase
    requires r in st.procs && st.procs[r] == Proc(q, Connect, None, [])
    ensures CanReturn(st, r, WithCursor(st.s, st.stored[Postgres], cursor))
  {
    var next := Apply(st, Local(r, true));
    Issues(next, r, cursor);
    UnwoundBoth(st.s, 0, 0);
    UnwoundBoth(OpenCursor(st.s, st.stored[Postgres]).0, 0, st.s.next);
    hide Unwound, CanReturn, Apply;
    StepAndReturn(st, r, true, WithCursor(st.s, st.stored[Postgres], cursor));
  }

  lemma UsesOwn(st: State, r: nat, q: Request, path: Path)
    requires st.phase == Serving && Postgres in st.stored && q.route.Named? && (path.cursor ==> q.shape.Reads?)
    requires q.route.database != "" && q.route.database != st.defaultDatabase
    requires path.opening != SharedHandle && (path.opening == Unopened || path.opening == Unanswered ==> !path.cursor)
    requires r in st.procs && st.procs[r] == Proc(q, Connect, None, [])
    ensures CanReturn(st, r, Performed(st.s, st.stored[Postgres], path))
  {
    var after := Performed(st.s, st.stored[Postgres], path);
    UnwoundBoth(st.s, 0, 0);
    if path.opening == Unopened {
      Unwinds(Apply(st, Local(r, false)), r);
      hide Unwound, CanReturn, Apply;
      StepAndReturn(st, r, false, after);
    } else {
      var pinging := Apply(st, Local(r, true));
      var ok := path.opening == OwnHandle;
      var next := Apply(pinging, Local(r, ok));
      if ok { Issues(next, r, path.cursor); } else { Unwinds(next, r); }
      UnwoundBoth(next.s, st.s.next, 0);
      UnwoundBoth(OpenCursor(next.s, st.s.next).0, st.s.next, next.s.next);
      hide Unwound, CanReturn, Apply;
      StepAndReturn(pinging, r, ok, after);
      StepAndReturn(st, r, true, after);
    }
  }

  function SharedPostgres(st: State): Option<nat> {
    if Postgres in st.stored then Some(st.stored[Postgres]) else None
  }

  lemma PathReturns(st: State, r: nat, q: Request, path: Path)
    requires st.phase == Serving && r !in st.procs
    requires CanTake(q, SharedPostgres(st), st.defaultDatabase, path)
    ensures var shared := if Postgres in st.stored then st.stored[Postgres] else 0;
            CanReturn(Begun(st, r, q), r, Performed(st.s, shared, path))
  {
    var begun := Begun(st, r, q);
    var next := Apply(begun, Local(r, true));
    if Postgres !in st.stored || q.refused {
      Unwinds(next, r);
    } else if path.opening == SharedHandle {
      UsesShared(next, r, q, path.cursor);
    } else {
      UsesOwn(next, r, q, path);
    }
    hide Apply, CanReturn;
    StepAndReturn(begun, r, true, Performed(st.s, if Postgres in st.stored then st.stored[Postgres] else 0, path));
  }

  /** A state of the router in which the request can arrive as number r. */
  predicate CanArrive(st: State, r: nat, postgres: Option<nat>, defaultDatabase: string, before: Sessions) {
    && st.phase == Serving && r !in st.procs && st.s == before
    && st.defaultDatabase == defaultDatabase && SharedPostgres(st) == postgres
  }

  /**
   What happened between the two states of the handles and cursors is what the request does when it
   runs in the state machine: whatever other requests there are, its own steps can lead from one to
   the other, and the request has then returned.
   */
  ghost predicate Performs(q: Request, postgres: Option<nat>, defaultDatabase: string, before: Sessions,
                           after: Sessions) {
    forall st: State, r: nat | CanArrive(st, r, postgres, defaultDatabase, before) ::
      CanReturn(Begun(st, r, q), r, after)
  }

  lemma PathPerforms(q: Request, postgres: Option<nat>, defaultDatabase: string, before: Sessions, path: Path)
    requires CanTake(q, postgres, defaultDatabase, path)
    ensures Performs(q, postgres, defaultDatabase, before,
                     Performed(before, if postgres.Some? then postgres.value else 0, path))
  {
    hide CanReturn, CanTake, Performed;
    forall st: State, r: nat | CanArrive(st, r, postgres, defaultDatabase, before)
      ensures CanReturn(Begun(st, r, q), r, Performed(before, if postgres.Some? then postgres.value else 0, path))
    {
      PathReturns(st, r, q, path);
    }
  }

  // ----- the paths of the service methods -----

  function Ask(database: string, shape: Shape, refused: bool): Request { Request(Named(database), shape, refused) }

  predicate NeedsOwn(database: string, defaultDatabase: string) { database != "" && database != defaultDatabase }

  /** The sessions after GetPostgresConnection failed. */
  predicate NotAcquired(database: string, defaultDatabase: string, before: Sessions, after: Sessions) {
    && NeedsOwn(database, defaultDatabase)
    && (after == before || after == CloseHandle(OpenHandle(before).0, before.next))
  }

  function Acquired(before: Sessions, own: bool): Sessions { if own then OpenHandle(before).0 else before }

  /** Every handle and cursor is an old one. */
  ghost predicate AllOld(s: Sessions) {
    (forall h | h in s.open :: h < s.next) && (forall c | c in s.cursors :: c < s.next)
  }

  lemma UseRestores(database: string, defaultDatabase: string, shared: nat, before: Sessions, cursor: bool)
    requires AllOld(before)
    ensures var after := UsedAndReleased(database, defaultDatabase, shared, before, cursor);
            after.open == before.open && after.cursors == before.cursors && AllOld(after)
  {
    assert before.open + {before.next} - {before.next} == before.open;
  }

  /** The sessions after a connection was used, with or without a cursor, and released. */
  function UsedAndReleased(database: string, defaultDatabase: string, shared: nat, before: Sessions,
                           cursor: bool): Sessions {
    if NeedsOwn(database, defaultDatabase)
    then CloseHandle(WithCursor(OpenHandle(before).0, before.next, cursor), before.next)
    else WithCursor(before, shared, cursor)
  }

  lemma NothingPerforms(database: string, shape: Shape, refused: bool, postgres: Option<nat>, defaultDatabase: string,
                        s: Sessions)
    requires postgres.None? || refused
    ensures Performs(Ask(database, shape, refused), postgres, defaultDatabase, s, s)
  {
    hide Performs;
    PathPerforms(Ask(database, shape, refused), postgres, defaultDatabase, s, Path(Unopened, false));
  }

  lemma FailurePerforms(database: string, shape: Shape, postgres: Option<nat>, defaultDatabase: string,
                        before: Sessions, after: Sessions)
    requires postgres.Some? && NotAcquired(database, defaultDatabase, before, after)
    ensures Performs(Ask(database, shape, false), postgres, defaultDatabase, before, after)
  {
    hide Performs;
    PathPerforms(Ask(database, shape, false), postgres, defaultDatabase, before,
                 Path(if after == before then Unopened else Unanswered, false));
  }

  lemma UsePerforms(database: string, shape: Shape, postgres: Option<nat>, defaultDatabase: string,
                    before: Sessions, cursor: bool)
    requires postgres.Some? && (cursor ==> shape.Reads?)
    ensures Performs(Ask(database, shape, false), postgres, defaultDatabase, before,
                     UsedAndReleased(database, defaultDatabase, postgres.value, before, cursor))
  {
    hide Performs;
    PathPerforms(Ask(database, shape, false), postgres, defaultDatabase, before,
                 Path(if NeedsOwn(database, defaultDatabase) then OwnHandle else SharedHandle, cursor));
  }

  /** So in every reachable state such a request leaves what others see of the connections as it was. */
  lemma PerformedRestores(st: State, r: nat, q: Request, after: Sessions)
    requires Reachable(st) && st.phase == Serving && r !in st.procs
    requires Performs(q, SharedPostgres(st), st.defaultDatabase, st.s, after)
    ensures after.open == st.s.open && after.cursors == st.s.cursors
  {
    hide Reachable, IsRun, End;
    assert CanArrive(st, r, SharedPostgres(st), st.defaultDatabase, st.s);
    var steps :| ReturnsBy(Begun(st, r, q), r, steps, after);
    RequestRestoresConnections(st, r, q, steps);
  }
}
