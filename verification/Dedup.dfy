// Deduplication of events arriving from several relays.
module Dedup {
  import opened Wrappers
  import opened Events
  import opened MailQueue
  import opened Protocol
  import opened Fencing

  function CopiesIn(rows: map<nat, Row>, eid: string): set<nat> {
    set id <- rows | rows[id].payload.id == eid
  }

  function Copies(s: State, eid: string): set<nat> {
    CopiesIn(s.db.rows, eid)
  }

  function SeenCount(s: State, eid: string): nat {
    Unit(eid in s.db.seen)
  }

  lemma SeenStep(c: Config, s: State, a: Action, eid: string)
    requires Enabled(c, s, a) && eid != ""
    ensures Unit(Occurs(s, a, EventQueued(eid))) + SeenCount(s, eid)
            == Unit(Occurs(s, a, EventForgotten(eid))) + SeenCount(Step(c, s, a), eid)
  {
    var db' := DbAfter(c, s, a);
    assert Step(c, s, a).db == db';
    if !a.Enqueue? && !a.CleanSeen? {
      assert db'.seen == s.db.seen;
    }
  }

  lemma SameRows(c: Config, s: State, a: Action)
    requires Enabled(c, s, a) && !a.Enqueue?
    ensures Step(c, s, a).db.rows.Keys == s.db.rows.Keys
  {
  }

  lemma CopiesFrame(s: State, t: State, eid: string)
    requires Keeps(s.db, t.db) && t.db.rows.Keys == s.db.rows.Keys
    ensures Copies(t, eid) == Copies(s, eid)
  {
  }

  lemma CopiesEnqueue(s: State, t: State, accounts: Option<set<string>>, e: Event, seenAt: int, eid: string)
    requires s.db.IdsBelowNext() && t.db == Enqueued(s.db, accounts, e, seenAt, s.Wall())
    ensures |Copies(t, eid)| == |Copies(s, eid)| + Unit(e.id == eid && Admits(s.db, accounts, e))
  {
    if Admits(s.db, accounts, e) {
      CopiesAdded(s.db.rows, s.db.nextId, FreshRow(e, s.Wall()), eid);
    }
  }

  lemma CopiesAdded(rows: map<nat, Row>, added: nat, r: Row, eid: string)
    requires added !in rows
    ensures |CopiesIn(rows[added := r], eid)| == |CopiesIn(rows, eid)| + Unit(r.payload.id == eid)
  {
    var rows' := rows[added := r];
    if r.payload.id == eid {
      assert CopiesIn(rows', eid) == CopiesIn(rows, eid) + {added};
    } else {
      assert CopiesIn(rows', eid) == CopiesIn(rows, eid);
    }
  }

  lemma CopiesStep(c: Config, s: State, a: Action, eid: string)
    requires Safe(s) && Enabled(c, s, a)
    ensures |Copies(Step(c, s, a), eid)| == |Copies(s, eid)| + Unit(Occurs(s, a, EventQueued(eid)))
  {
    if a.Enqueue? {
      CopiesEnqueue(s, Step(c, s, a), a.accounts, a.e, a.seenAt, eid);
    } else {
      FencedStep(c, s, a);
      SameRows(c, s, a);
      CopiesFrame(s, Step(c, s, a), eid);
    }
  }

  // Queued copies of an event are matched by the times its id was forgotten.
  lemma {:induction false} DedupLaw(c: Config, s: State, run: seq<Action>, eid: string)
    requires Safe(s) && Valid(c, s, run) && eid != ""
    ensures var t := Exec(c, s, run);
      && Count(c, s, run, EventQueued(eid)) + SeenCount(s, eid)
         == Count(c, s, run, EventForgotten(eid)) + SeenCount(t, eid)
      && |Copies(t, eid)| == |Copies(s, eid)| + Count(c, s, run, EventQueued(eid))
    decreases |run|
  {
    if run != [] {
      SeenStep(c, s, run[0], eid);
      CopiesStep(c, s, run[0], eid);
      FencedStep(c, s, run[0]);
      OwnedStep(c, s, run[0]);
      DedupLaw(c, Step(c, s, run[0]), run[1..], eid);
    }
  }

  // An event id has at most one queue row more than the times the cleanup forgot it.
  lemma CopiesAreBounded(c: Config, s: State, run: seq<Action>, eid: string)
    requires Starts(s) && Copies(s, eid) == {} && eid != "" && Valid(c, s, run)
    ensures |Copies(Exec(c, s, run), eid)| <= 1 + Count(c, s, run, EventForgotten(eid))
  {
    StartIsSafe(s);
    DedupLaw(c, s, run, eid);
  }

  // ---- spacing in time -----------------------------------------------------------------------

  // A seen id has its row, no copy is much younger than the sighting, and the copies of a forgotten
  // id are old. `wait` bounds how far the two clock readings of one enqueue lie apart.
  predicate Spaced(s: State, wait: nat) {
    SeenHaveRows(s, wait) && RowsSpaced(s, wait) && RowsApart(s, wait)
  }

  predicate SeenHaveRows(s: State, wait: nat) {
    forall eid <- s.db.seen ::
      eid != "" && s.db.seen[eid] <= s.Wall() && exists id <- s.db.rows :: IsSighting(s, eid, id, wait)
  }

  // The row was created for this sighting.
  predicate IsSighting(s: State, eid: string, id: nat, wait: nat) {
    && eid in s.db.seen && id in s.db.rows && s.db.rows[id].payload.id == eid
    && s.db.seen[eid] <= s.db.rows[id].createdAt <= s.db.seen[eid] + wait
  }

  predicate RowsSpaced(s: State, wait: nat) {
    forall id <- s.db.rows :: RowSpaced(s, s.db.rows[id], wait)
  }

  predicate RowsApart(s: State, wait: nat) {
    forall p, q | p in s.db.rows && q in s.db.rows && p < q :: Apart(s.db.rows[p], s.db.rows[q], wait)
  }

  predicate RowSpaced(s: State, r: Row, wait: nat) {
    r.payload.id != "" ==>
      && r.createdAt <= s.Wall()
      && if r.payload.id in s.db.seen then r.createdAt <= s.db.seen[r.payload.id] + wait
         else r.createdAt < s.Wall() - SEEN_TTL + wait
  }

  predicate Apart(p: Row, q: Row, wait: nat) {
    p.payload.id != "" && p.payload.id == q.payload.id ==> q.createdAt - p.createdAt > 604800 - wait
  }

  lemma SeenAfterEnqueue(c: Config, s: State, a: Action)
    requires Safe(s) && SeenHaveRows(s, c.maxWait) && Enabled(c, s, a) && a.Enqueue? && Admits(s.db, a.accounts, a.e)
    ensures SeenHaveRows(Step(c, s, a), c.maxWait)
  {
    var t := Step(c, s, a);
    var added := s.db.nextId;
    assert added !in s.db.rows && t.db.rows[added] == FreshRow(a.e, s.Wall());
    forall eid | eid in t.db.seen ensures exists id <- t.db.rows :: IsSighting(t, eid, id, c.maxWait) {
      if eid == a.e.id {
        assert IsSighting(t, eid, added, c.maxWait);
      } else {
        var id :| id in s.db.rows && IsSighting(s, eid, id, c.maxWait);
        assert IsSighting(t, eid, id, c.maxWait);
      }
    }
  }

  lemma RowsAfterEnqueue(c: Config, s: State, a: Action)
    requires Safe(s) && Spaced(s, c.maxWait) && Enabled(c, s, a) && a.Enqueue? && Admits(s.db, a.accounts, a.e)
    ensures RowsSpaced(Step(c, s, a), c.maxWait) && RowsApart(Step(c, s, a), c.maxWait)
  {
    hide SeenHaveRows;
    var t := Step(c, s, a);
    var added := s.db.nextId;
    assert added !in s.db.rows && t.db.rows == s.db.rows[added := FreshRow(a.e, s.Wall())];
    forall id | id in t.db.rows ensures RowSpaced(t, t.db.rows[id], c.maxWait) {
      assert id == added || RowSpaced(s, s.db.rows[id], c.maxWait);
    }
    forall p, q | p in t.db.rows && q in t.db.rows && p < q ensures Apart(t.db.rows[p], t.db.rows[q], c.maxWait) {
      assert p in s.db.rows && RowSpaced(s, s.db.rows[p], c.maxWait);
    }
  }

  lemma SpacedEnqueue(c: Config, s: State, a: Action)
    requires Safe(s) && Spaced(s, c.maxWait) && Enabled(c, s, a) && a.Enqueue?
    ensures Spaced(Step(c, s, a), c.maxWait)
  {
    if Admits(s.db, a.accounts, a.e) {
      hide Admits, Step;
      SeenAfterEnqueue(c, s, a);
      RowsAfterEnqueue(c, s, a);
    }
  }

  lemma SeenElse(s: State, t: State, wait: nat)
    requires SeenHaveRows(s, wait) && SameIds(s, t) && s.Wall() <= t.Wall()
    requires forall eid <- t.db.seen :: eid in s.db.seen && t.db.seen[eid] == s.db.seen[eid]
    ensures SeenHaveRows(t, wait)
  {
    forall eid | eid in t.db.seen ensures exists id <- t.db.rows :: IsSighting(t, eid, id, wait) {
      var id :| id in s.db.rows && IsSighting(s, eid, id, wait);
      assert IsSighting(t, eid, id, wait);
    }
  }

  lemma ApartElse(s: State, t: State, wait: nat)
    requires RowsApart(s, wait) && SameIds(s, t)
    ensures RowsApart(t, wait)
  {
    forall p, q | p in t.db.rows && q in t.db.rows && p < q ensures Apart(t.db.rows[p], t.db.rows[q], wait) {
      assert Apart(s.db.rows[p], s.db.rows[q], wait);
    }
  }

  // Rows come and go only by being queued; what identifies them never changes.
  predicate SameIds(s: State, t: State) {
    s.db.rows.Keys == t.db.rows.Keys
    && forall id <- s.db.rows ::
         t.db.rows[id].payload == s.db.rows[id].payload && t.db.rows[id].createdAt == s.db.rows[id].createdAt
  }

  lemma SpacedElse(c: Config, s: State, a: Action)
    requires Safe(s) && Spaced(s, c.maxWait) && Enabled(c, s, a) && !a.Enqueue?
    ensures Spaced(Step(c, s, a), c.maxWait)
  {
    hide SeenHaveRows, RowsApart;
    var t := Step(c, s, a);
    FencedStep(c, s, a);
    SameRows(c, s, a);
    assert s.Wall() <= t.Wall();
    SeenElse(s, t, c.maxWait);
    ApartElse(s, t, c.maxWait);
    forall id | id in t.db.rows ensures RowSpaced(t, t.db.rows[id], c.maxWait) {
      assert RowSpaced(s, s.db.rows[id], c.maxWait);
    }
  }

  // Over any run, every seen id has a queue row, and two rows of one event are created more than
  // seven days apart, less what one enqueue waited between its clock readings.
  lemma {:induction false} ReachableIsSpaced(c: Config, s: State, run: seq<Action>)
    requires Safe(s) && Spaced(s, c.maxWait) && Valid(c, s, run)
    ensures Spaced(Exec(c, s, run), c.maxWait)
    decreases |run|
  {
    if run != [] {
      if run[0].Enqueue? { SpacedEnqueue(c, s, run[0]); } else { SpacedElse(c, s, run[0]); }
      FencedStep(c, s, run[0]);
      OwnedStep(c, s, run[0]);
      ReachableIsSpaced(c, Step(c, s, run[0]), run[1..]);
    }
  }

  // From an empty database on, whatever happens.
  lemma AlwaysSpaced(c: Config, s: State, run: seq<Action>)
    requires Starts(s) && s.db.rows == map[] && s.db.seen == map[] && Valid(c, s, run)
    ensures Spaced(Exec(c, s, run), c.maxWait)
  {
    StartIsSafe(s);
    ReachableIsSpaced(c, s, run);
  }

  // An event dropped because its owner had no mailbox leaves no trace: once the owner registers,
  // the next copy is queued, exactly as if the first had never arrived.
  lemma DroppedStaysEnqueueable(db: Db, accounts: set<string>, e: Event, seenAt: int, createdAt: int, later: int)
    requires FirstOwner(e.tags) != "" && FirstOwner(e.tags) !in accounts && e.id !in db.seen
    ensures var dropped := Enqueued(db, Some(accounts), e, seenAt, createdAt);
      var registered := Some(accounts + {FirstOwner(e.tags)});
      && dropped == db && Admits(dropped, registered, e)
      && Enqueued(dropped, registered, e, later, later).rows[db.nextId] == FreshRow(e, later)
  {
    assert FirstOwner(e.tags) in accounts + {FirstOwner(e.tags)};
  }
}
