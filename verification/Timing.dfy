// The reclaim timeout: never early for a live holder, never late for an abandoned row.
module Timing {
  import opened MailQueue
  import opened Protocol
  import opened Fencing

  // ---- not early -----------------------------------------------------------------------------

  // A worker still within the timeout of its claim holds its row.
  predicate InTime(s: State, p: Proc) {
    p.HasJob() && s.Wall() <= p.job.since + RECLAIM_TIMEOUT ==> Holds(s.db, p.job.rid, p.job.lease)
  }

  predicate AllInTime(s: State) {
    forall w <- s.procs :: InTime(s, s.procs[w])
  }

  // A row held under a lease stays so unless that lease completes it or a sweep finds it stale.
  lemma HoldersStay(c: Config, s: State, a: Action, rid: nat, lease: string)
    requires Safe(s) && Enabled(c, s, a) && Holds(s.db, rid, lease)
    requires a.Finish? ==> s.procs[a.w].job.lease != lease
    requires Sweeps(s, a) ==> !s.db.rows[rid].StaleBefore(s.Wall() - RECLAIM_TIMEOUT)
    ensures Holds(Step(c, s, a).db, rid, lease)
  {
    assert rid < s.db.nextId;
  }

  lemma InTimeStep(c: Config, s: State, a: Action, w: string)
    requires Safe(s) && AllInTime(s) && Enabled(c, s, a) && w in Step(c, s, a).procs
    ensures InTime(Step(c, s, a), Step(c, s, a).procs[w])
  {
    var t := Step(c, s, a);
    assert w in s.procs;
    var p, p' := s.procs[w], t.procs[w];
    if p'.HasJob() && t.Wall() <= p'.job.since + RECLAIM_TIMEOUT {
      if TakeWins(s, a) && a.w == w {
      } else {
        SameJob(c, s, a, w);
        assert InTime(s, p) && JobGranted(p, s.db, s.issued);
        assert s.Wall() <= t.Wall();
        HolderIsGranted(s, p.job.rid, p.job.lease);
        HoldersStay(c, s, a, p.job.rid, p.job.lease);
      }
    }
  }

  lemma SameJob(c: Config, s: State, a: Action, w: string)
    requires Safe(s) && Enabled(c, s, a) && w in s.procs && Step(c, s, a).procs[w].HasJob()
    requires !(TakeWins(s, a) && a.w == w)
    ensures s.procs[w].HasJob() && Step(c, s, a).procs[w].job == s.procs[w].job
    ensures a.Finish? ==> s.procs[a.w].job.lease != s.procs[w].job.lease
  {
    hide DbAfter, InboxAfter, SweepAfter, IssuedAfter, DeliveredAfter, Fenced, JobGranted;
  }

  lemma {:induction false} ReachableInTime(c: Config, s: State, run: seq<Action>)
    requires Safe(s) && AllInTime(s) && Valid(c, s, run)
    ensures AllInTime(Exec(c, s, run))
    decreases |run|
  {
    if run != [] {
      forall w | w in Step(c, s, run[0]).procs { InTimeStep(c, s, run[0], w); }
      FencedStep(c, s, run[0]);
      OwnedStep(c, s, run[0]);
      ReachableInTime(c, Step(c, s, run[0]), run[1..]);
    }
  }

  // A completion sent within 120 seconds of the claim is accepted.
  lemma NeverEarly(c: Config, s: State, run: seq<Action>, w: string, error: string)
    requires Starts(s) && Valid(c, s, run)
    requires var t := Exec(c, s, run);
      Enabled(c, t, Finish(w, error)) && t.Wall() <= t.procs[w].job.since + 120
    ensures FinishAccepted(Exec(c, s, run), Finish(w, error))
  {
    StartIsSafe(s);
    ReachableInTime(c, s, run);
    assert InTime(Exec(c, s, run), Exec(c, s, run).procs[w]);
  }

  // Between jobs the timer reclaims when thirty seconds have passed since it last did, and not before.
  lemma SweepsWhenDue(c: Config, s: State)
    requires Enabled(c, s, LoopTop)
    ensures var last, t := s.sweep.value.lastReclaim, Step(c, s, LoopTop);
      if s.now - last >= 30.0 then t.db == Reclaimed(s.db, s.Wall()) && t.sweep.value.lastReclaim == s.now
      else t.db == s.db && t.sweep.value.lastReclaim == last
  {
  }

  // ---- not late ------------------------------------------------------------------------------

  // Everything the last sweep could reclaim is gone: a row still processing started recently.
  predicate Swept(s: State) {
    s.sweep.Some? ==>
      && s.sweep.value.lastReclaim <= s.sweep.value.lastTop <= s.now
      && s.sweep.value.lastTop - s.sweep.value.lastReclaim < RECLAIM_INTERVAL
      && forall id <- s.db.rows :: RecentOnly(s.db.rows[id], s.sweep.value.lastReclaim)
  }

  predicate RecentOnly(r: Row, lastReclaim: real) {
    r.status == Processing && r.startedAt > 0 ==> r.startedAt >= lastReclaim.Floor - RECLAIM_TIMEOUT
  }

  predicate Punctual(c: Config, s: State) {
    s.sweep.Some? ==> s.now <= s.sweep.value.lastTop + c.maxLoop
  }

  lemma SweptRows(c: Config, s: State, a: Action, id: nat)
    requires Fenced(s.db, s.issued) && Swept(s) && Enabled(c, s, a)
    requires id in Step(c, s, a).db.rows && Step(c, s, a).sweep.Some?
    ensures RecentOnly(Step(c, s, a).db.rows[id], Step(c, s, a).sweep.value.lastReclaim)
  {
    hide ProcsAfter, InboxAfter, IssuedAfter, DeliveredAfter, Clipped, Admits;
    if id in s.db.rows {
      assert id < s.db.nextId;
      assert s.sweep.Some? ==> RecentOnly(s.db.rows[id], s.sweep.value.lastReclaim);
    }
  }

  lemma SweptStep(c: Config, s: State, a: Action)
    requires Fenced(s.db, s.issued) && Swept(s) && Punctual(c, s) && Enabled(c, s, a) && c.maxLoop >= 0.0
    ensures Swept(Step(c, s, a)) && Punctual(c, Step(c, s, a))
  {
    if Step(c, s, a).sweep.Some? {
      forall id | id in Step(c, s, a).db.rows { SweptRows(c, s, a, id); }
    }
  }

  lemma {:induction false} ReachableIsSwept(c: Config, s: State, run: seq<Action>)
    requires Safe(s) && Swept(s) && Punctual(c, s) && Valid(c, s, run) && c.maxLoop >= 0.0
    ensures Swept(Exec(c, s, run)) && Punctual(c, Exec(c, s, run))
    decreases |run|
  {
    if run != [] {
      SweptStep(c, s, run[0]);
      FencedStep(c, s, run[0]);
      OwnedStep(c, s, run[0]);
      ReachableIsSwept(c, Step(c, s, run[0]), run[1..]);
    }
  }

  // While one worker runs its timer with loop iterations of at most maxLoop seconds, no row is
  // processing longer than 120 + 30 + maxLoop seconds after its start second
  // ended, however busy the queue is. (The start second itself is rounded down.)
  lemma NeverLate(c: Config, s: State, run: seq<Action>, rid: nat)
    requires Starts(s) && Valid(c, s, run) && c.maxLoop >= 0.0
    requires var t := Exec(c, s, run);
      t.sweep.Some? && rid in t.db.rows && t.db.rows[rid].status == Processing && t.db.rows[rid].startedAt > 0
    ensures var t := Exec(c, s, run);
      t.now < (t.db.rows[rid].startedAt + 1 + 120) as real + 30.0 + c.maxLoop
  {
    StartIsSafe(s);
    ReachableIsSwept(c, s, run);
    var t := Exec(c, s, run);
    assert RecentOnly(t.db.rows[rid], t.sweep.value.lastReclaim);
  }

  // With clock readings in whole seconds the rounding second disappears.
  lemma NeverLateInWholeSeconds(c: Config, s: State, run: seq<Action>, rid: nat)
    requires Starts(s) && Valid(c, s, run) && c.maxLoop >= 0.0
    requires var t := Exec(c, s, run);
      t.sweep.Some? && rid in t.db.rows && t.db.rows[rid].status == Processing && t.db.rows[rid].startedAt > 0
    requires var last := Exec(c, s, run).sweep.value.lastReclaim; last == last.Floor as real
    ensures var t := Exec(c, s, run);
      t.now < (t.db.rows[rid].startedAt + 120) as real + 30.0 + c.maxLoop
  {
    StartIsSafe(s);
    ReachableIsSwept(c, s, run);
    var t := Exec(c, s, run);
    assert RecentOnly(t.db.rows[rid], t.sweep.value.lastReclaim);
  }
}
