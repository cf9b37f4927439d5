/**
 What the database drivers hand out: handles (a `*sql.DB`, a Mongo or Redis client) and cursors
 open on a handle, with a count of how often each was closed.
 */
module Sessions {
  datatype Sessions = Sessions(next: nat, open: set<nat>, cursors: map<nat, nat>, closes: map<nat, nat>)

  function Closes(s: Sessions, id: nat): nat { if id in s.closes then s.closes[id] else 0 }

  function OpenHandle(s: Sessions): (Sessions, nat) {
    (s.(next := s.next + 1, open := s.open + {s.next}), s.next)
  }

  function CloseHandle(s: Sessions, h: nat): Sessions {
    s.(open := s.open - {h}, closes := s.closes[h := Closes(s, h) + 1])
  }

  function OpenCursor(s: Sessions, h: nat): (Sessions, nat) {
    (s.(next := s.next + 1, cursors := s.cursors[s.next := h]), s.next)
  }

  function CloseCursor(s: Sessions, c: nat): Sessions {
    s.(cursors := s.cursors - {c}, closes := s.closes[c := Closes(s, c) + 1])
  }
}
