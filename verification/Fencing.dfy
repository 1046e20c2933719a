// Leases: who may complete a job, and how every lease ends.
module Fencing {
  import opened Wrappers
  import opened Events
  import opened MailQueue
  import opened Protocol

  // A row is processing exactly when it carries a lease, and the lease was issued for that row
  // at its start time; so two rows never carry the same lease.
  predicate RowFenced(id: nat, r: Row, issued: map<string, Grant>) {
    && (r.status == Processing <==> r.lease != "")
    && (r.status == Processing ==> r.lease in issued && issued[r.lease] == Grant(id, r.startedAt))
  }

  predicate Fenced(db: Db, issued: map<string, Grant>) {
    && db.hasLease && db.IdsBelowNext() && "" !in issued
    && forall id <- db.rows :: RowFenced(id, db.rows[id], issued)
  }

  predicate JobGranted(p: Proc, db: Db, issued: map<string, Grant>) {
    p.HasJob() ==>
      && p.job.lease in issued && issued[p.job.lease] == Grant(p.job.rid, p.job.since)
      && p.job.rid in db.rows && db.rows[p.job.rid].payload == p.job.payload
  }

  // Every worker works under a lease issued to it, and no two workers under the same one.
  predicate Owned(procs: map<string, Proc>, db: Db, issued: map<string, Grant>) {
    && (forall w <- procs :: JobGranted(procs[w], db, issued))
    && forall v, w :: v in procs && w in procs && v != w && procs[v].HasJob() && procs[w].HasJob()
         ==> procs[v].job.lease != procs[w].job.lease
  }

  predicate Safe(s: State) {
    Fenced(s.db, s.issued) && Owned(s.procs, s.db, s.issued)
  }

  lemma StartIsSafe(s: State)
    requires Starts(s)
    ensures Safe(s)
  {
    var before: Db :| !before.hasLease && before.IdsBelowNext() && s.db == Migrated(before);
  }

  // Every legacy database with idle workers is such a starting point.
  lemma AnyDatabaseStarts(before: Db, inbox: map<string, string>, workers: set<string>, now: real)
    requires !before.hasLease && before.IdsBelowNext()
    ensures Starts(State(Migrated(before), inbox, map w <- workers :: Idle, now, None, map[], map[], {}))
  {
  }

  // No transaction ever drops a row or changes what was enqueued.
  predicate Keeps(db: Db, db': Db) {
    forall id <- db.rows ::
      && id in db'.rows && db'.rows[id].payload == db.rows[id].payload
      && db'.rows[id].createdAt == db.rows[id].createdAt && db'.rows[id].owner == db.rows[id].owner
  }

  lemma FencedTake(db: Db, issued: map<string, Grant>, rid: nat, w: string, lease: string, now: int)
    requires Fenced(db, issued) && lease != "" && lease !in issued && CanTake(db, rid)
    ensures Fenced(Taken(db, rid, w, lease, now), issued[lease := Grant(rid, now)])
  {
  }

  lemma FencedReclaim(db: Db, issued: map<string, Grant>, now: int)
    requires Fenced(db, issued)
    ensures Fenced(Reclaimed(db, now), issued) && Keeps(db, Reclaimed(db, now))
  {
  }

  lemma FencedEnqueue(db: Db, issued: map<string, Grant>, accounts: Option<set<string>>, e: Event,
                      seenAt: int, now: int)
    requires Fenced(db, issued)
    ensures var db' := Enqueued(db, accounts, e, seenAt, now); Fenced(db', issued) && Keeps(db, db')
  {
    hide Admits;
  }

  lemma FencedFinish(db: Db, issued: map<string, Grant>, rid: nat, lease: string, ok: bool, error: string,
                     permanent: bool, now: int)
    requires Fenced(db, issued)
    ensures var db' := Finished(db, rid, lease, ok, error, permanent, now); Fenced(db', issued) && Keeps(db, db')
  {
    hide Clipped;
  }

  lemma FencedStep(c: Config, s: State, a: Action)
    requires Safe(s) && Enabled(c, s, a)
    ensures var t := Step(c, s, a); Fenced(t.db, t.issued) && Keeps(s.db, t.db)
  {
    hide Enqueued, Reclaimed, Finished, ProcsAfter, InboxAfter, DeliveredAfter, SweepAfter, Owned;
    if Sweeps(s, a) {
      FencedReclaim(s.db, s.issued, s.Wall());
    } else if a.Enqueue? {
      FencedEnqueue(s.db, s.issued, a.accounts, a.e, a.seenAt, s.Wall());
    } else if a.Finish? {
      var p := s.procs[a.w];
      FencedFinish(s.db, s.issued, p.job.rid, p.job.lease, p.Accepted?, a.error, p.Trying? && p.permanent, s.Wall());
    } else if a.Take? && CanTake(s.db, s.procs[a.w].rid) {
      FencedTake(s.db, s.issued, s.procs[a.w].rid, a.w, a.lease, s.Wall());
    }
  }

  predicate Settled(db: Db, rid: nat) {
    rid in db.rows && (db.rows[rid].status == Done || db.rows[rid].status == Failed)
  }

  lemma SettledStep(c: Config, s: State, a: Action, rid: nat)
    requires Safe(s) && Enabled(c, s, a) && Settled(s.db, rid)
    ensures rid in Step(c, s, a).db.rows && Step(c, s, a).db.rows[rid] == s.db.rows[rid]
  {
    assert rid < s.db.nextId;
  }

  lemma OwnedFrame(procs: map<string, Proc>, db: Db, db': Db, issued: map<string, Grant>)
    requires Owned(procs, db, issued) && Keeps(db, db')
    ensures Owned(procs, db', issued)
  {
    forall w | w in procs ensures JobGranted(procs[w], db', issued) {
      assert JobGranted(procs[w], db, issued);
    }
  }

  // A worker that goes on with its own job, or drops it, leaves the ownership of leases as it was.
  lemma OwnedMove(procs: map<string, Proc>, w: string, p: Proc, db: Db, issued: map<string, Grant>)
    requires Owned(procs, db, issued) && w in procs
    requires p.HasJob() ==> procs[w].HasJob() && procs[w].job == p.job
    ensures Owned(procs[w := p], db, issued)
  {
    assert JobGranted(procs[w], db, issued);
  }

  lemma OwnedTake(procs: map<string, Proc>, w: string, db: Db, db': Db, issued: map<string, Grant>, p: Proc)
    requires Owned(procs, db, issued) && Keeps(db, db') && w in procs && p.Trying? && p.job.lease !in issued
    requires p.job.rid in db'.rows && db'.rows[p.job.rid].payload == p.job.payload
    ensures Owned(procs[w := p], db', issued[p.job.lease := Grant(p.job.rid, p.job.since)])
  {
    OwnedFrame(procs, db, db', issued);
    var procs', issued' := procs[w := p], issued[p.job.lease := Grant(p.job.rid, p.job.since)];
    forall v | v in procs' ensures JobGranted(procs'[v], db', issued') {
      assert v == w || JobGranted(procs[v], db', issued);
    }
    forall v | v in procs' && v != w && procs'[v].HasJob() ensures procs'[v].job.lease != p.job.lease {
      assert JobGranted(procs[v], db', issued);
    }
  }

  lemma OwnedStep(c: Config, s: State, a: Action)
    requires Safe(s) && Enabled(c, s, a)
    ensures var t := Step(c, s, a); Owned(t.procs, t.db, t.issued)
  {
    var t := Step(c, s, a);
    FencedStep(c, s, a);
    OwnedFrame(s.procs, s.db, t.db, s.issued);
    if a.Take? && CanTake(s.db, s.procs[a.w].rid) {
      OwnedTake(s.procs, a.w, s.db, t.db, s.issued, t.procs[a.w]);
    } else if a.Select? || a.Take? || a.Refuse? || a.MailboxFull? || a.QuotaPass? || a.Insert? || a.InsertFails?
              || a.Finish? || a.Crash? {
      OwnedMove(s.procs, a.w, t.procs[a.w], t.db, s.issued);
    }
  }

  // The fencing invariant holds in every state a run reaches.
  lemma {:induction false} ReachableIsSafe(c: Config, s: State, run: seq<Action>)
    requires Safe(s) && Valid(c, s, run)
    ensures Safe(Exec(c, s, run))
    decreases |run|
  {
    if run != [] {
      FencedStep(c, s, run[0]);
      OwnedStep(c, s, run[0]);
      ReachableIsSafe(c, Step(c, s, run[0]), run[1..]);
    }
  }

  // ---- how a lease ends --------------------------------------------------------------------

  // Not issued yet, or the row it was issued for is still held under it.
  predicate Usable(s: State, lease: string) {
    lease !in s.issued || Holds(s.db, s.issued[lease].rid, lease)
  }

  function Unit(b: bool): nat {
    if b then 1 else 0
  }

  lemma HolderIsGranted(s: State, rid: nat, lease: string)
    requires Safe(s) && Holds(s.db, rid, lease)
    ensures lease in s.issued && s.issued[lease] == Grant(rid, s.db.rows[rid].startedAt)
  {
    assert RowFenced(rid, s.db.rows[rid], s.issued);
  }

  lemma LeaseStep(c: Config, s: State, a: Action, lease: string)
    requires Safe(s) && Enabled(c, s, a) && lease != ""
    ensures Unit(Occurs(s, a, LeaseAccepted(lease))) + Unit(Occurs(s, a, LeaseReclaimed(lease)))
            + Unit(Usable(Step(c, s, a), lease)) == Unit(Usable(s, lease))
  {
    hide Occurs, Usable, Step, Enabled;
    if Sweeps(s, a) {
      LeaseSweep(c, s, a, lease);
    } else if a.Finish? {
      LeaseFinish(c, s, a, lease);
    } else {
      LeaseElse(c, s, a, lease);
    }
  }

  lemma LeaseElse(c: Config, s: State, a: Action, lease: string)
    requires Safe(s) && Enabled(c, s, a) && lease != "" && !Sweeps(s, a) && !a.Finish?
    ensures !Occurs(s, a, LeaseAccepted(lease)) && !Occurs(s, a, LeaseReclaimed(lease))
    ensures Usable(Step(c, s, a), lease) <==> Usable(s, lease)
  {
    hide ProcsAfter, InboxAfter, DeliveredAfter, SweepAfter, Owned, Admits;
  }

  lemma LeaseSweep(c: Config, s: State, a: Action, lease: string)
    requires Safe(s) && Enabled(c, s, a) && lease != "" && Sweeps(s, a)
    ensures !Occurs(s, a, LeaseAccepted(lease))
    ensures Unit(Occurs(s, a, LeaseReclaimed(lease))) + Unit(Usable(Step(c, s, a), lease)) == Unit(Usable(s, lease))
  {
    SweepEndsLease(s, a, lease);
  }

  lemma LeaseFinish(c: Config, s: State, a: Action, lease: string)
    requires Safe(s) && Enabled(c, s, a) && lease != "" && a.Finish?
    requires !Sweeps(s, a)
    ensures !Occurs(s, a, LeaseReclaimed(lease))
    ensures Unit(Occurs(s, a, LeaseAccepted(lease))) + Unit(Usable(Step(c, s, a), lease)) == Unit(Usable(s, lease))
  {
    var job := s.procs[a.w].job;
    assert JobGranted(s.procs[a.w], s.db, s.issued);
    if lease in s.issued && job.lease != lease && s.issued[lease].rid == job.rid {
      assert !(Holds(s.db, job.rid, lease) && Holds(s.db, job.rid, job.lease));
    }
  }

  lemma SweepEndsLease(s: State, a: Action, lease: string)
    requires Safe(s) && Sweeps(s, a) && lease != ""
    ensures Occurs(s, a, LeaseReclaimed(lease)) <==>
              lease in s.issued && Holds(s.db, s.issued[lease].rid, lease)
              && !Holds(Reclaimed(s.db, s.Wall()), s.issued[lease].rid, lease)
  {
    if Occurs(s, a, LeaseReclaimed(lease)) {
      var rid :| rid in s.db.rows && s.db.rows[rid].HeldUnder(lease)
                 && s.db.rows[rid].StaleBefore(s.Wall() - RECLAIM_TIMEOUT);
      HolderIsGranted(s, rid, lease);
    }
  }

  // Every lease is settled once: over any run, its accepted completions and its reclaims add up to
  // one exactly when it was usable before and is no longer usable afterwards.
  lemma {:induction false} LeaseLaw(c: Config, s: State, run: seq<Action>, lease: string)
    requires Safe(s) && Valid(c, s, run) && lease != ""
    ensures Count(c, s, run, LeaseAccepted(lease)) + Count(c, s, run, LeaseReclaimed(lease))
            + Unit(Usable(Exec(c, s, run), lease)) == Unit(Usable(s, lease))
    decreases |run|
  {
    if run != [] {
      LeaseStep(c, s, run[0], lease);
      FencedStep(c, s, run[0]);
      OwnedStep(c, s, run[0]);
      LeaseLaw(c, Step(c, s, run[0]), run[1..], lease);
    }
  }

  // At most one accepted completion per lease, and none once its row was reclaimed.
  lemma LeaseFinishesOnce(c: Config, s: State, run: seq<Action>, lease: string)
    requires Starts(s) && Valid(c, s, run) && lease != ""
    ensures Count(c, s, run, LeaseAccepted(lease)) <= 1
    ensures Count(c, s, run, LeaseReclaimed(lease)) > 0 ==> Count(c, s, run, LeaseAccepted(lease)) == 0
    ensures lease in Exec(c, s, run).issued && !Holds(Exec(c, s, run).db, Exec(c, s, run).issued[lease].rid, lease)
            <==> Count(c, s, run, LeaseAccepted(lease)) + Count(c, s, run, LeaseReclaimed(lease)) == 1
  {
    StartIsSafe(s);
    LeaseLaw(c, s, run, lease);
  }

  // The completion statement changes a row exactly when the caller holds it, and then only that row and
  // only once: the same completion sent again, or any other under that lease, changes nothing.
  lemma FinishIsFenced(db: Db, rid: nat, lease: string, ok: bool, error: string, permanent: bool, now: int,
                       ok2: bool, error2: string, permanent2: bool, later: int)
    ensures var db' := Finished(db, rid, lease, ok, error, permanent, now);
      && (db' != db <==> Holds(db, rid, lease))
      && (forall id <- db.rows :: id != rid ==> db'.rows[id] == db.rows[id])
      && Finished(db', rid, lease, ok2, error2, permanent2, later) == db'
  {
    var db' := Finished(db, rid, lease, ok, error, permanent, now);
    if Holds(db, rid, lease) {
      assert db'.rows[rid].status != Processing;
    }
  }
}
