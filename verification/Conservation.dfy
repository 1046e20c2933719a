// What a queue row has been through: claims, completions, reclaims and attempts.
module Conservation {
  import opened Wrappers
  import opened MailQueue
  import opened Protocol
  import opened Fencing

  function Running(s: State, rid: nat): nat {
    Unit(rid in s.db.rows && s.db.rows[rid].status == Processing)
  }

  function Attempts(s: State, rid: nat): nat {
    if rid in s.db.rows then s.db.rows[rid].attempts else 0
  }

  function DoneCount(s: State, rid: nat): nat {
    Unit(rid in s.db.rows && s.db.rows[rid].status == Done)
  }

  // Attempts are spent only while they last: the workers' rows have some left, and so has a row
  // that was delivered.
  predicate Budgeted(r: Row) {
    r.attempts <= 3 && (r.attempts < 3 || r.status == Failed)
  }

  predicate AllBudgeted(db: Db) {
    forall id <- db.rows :: Budgeted(db.rows[id])
  }

  lemma BudgetStep(c: Config, s: State, a: Action)
    requires AllBudgeted(s.db) && Enabled(c, s, a)
    ensures AllBudgeted(Step(c, s, a).db)
  {
  }

  // How one action moves the accounts of a row.
  predicate Balanced(s: State, a: Action, t: State, rid: nat) {
    && Unit(Occurs(s, a, Claimed(rid))) + Running(s, rid)
       == Unit(Occurs(s, a, FinishedOk(rid))) + Unit(Occurs(s, a, FinishedFailed(rid)))
          + Unit(Occurs(s, a, ReclaimedRow(rid))) + Running(t, rid)
    && Attempts(t, rid) == Attempts(s, rid) + Unit(Occurs(s, a, FinishedFailed(rid)))
    && DoneCount(t, rid) == DoneCount(s, rid) + Unit(Occurs(s, a, FinishedOk(rid)))
  }

  lemma SweepBalanced(c: Config, s: State, a: Action, rid: nat)
    requires Enabled(c, s, a) && Sweeps(s, a)
    ensures Balanced(s, a, Step(c, s, a), rid)
  {
    assert Step(c, s, a).db == Reclaimed(s.db, s.Wall());
  }

  lemma FinishBalanced(c: Config, s: State, a: Action, rid: nat)
    requires Safe(s) && Enabled(c, s, a) && a.Finish?
    ensures Balanced(s, a, Step(c, s, a), rid)
  {
    var p := s.procs[a.w];
    if p.job.rid != rid {
      assert rid in s.db.rows ==> Step(c, s, a).db.rows[rid] == s.db.rows[rid];
    }
  }

  // Neither a sweep nor a completion: the row stays, appears fresh, or is taken.
  lemma OtherRows(c: Config, s: State, a: Action, rid: nat)
    requires Safe(s) && Enabled(c, s, a) && !Sweeps(s, a) && !a.Finish?
    ensures var rows, rows' := s.db.rows, DbAfter(c, s, a).rows;
      if rid in rows then
        rid in rows' && rows'[rid] ==
          if TakeWins(s, a) && s.procs[a.w].rid == rid
          then rows[rid].(status := Processing, worker := a.w, startedAt := s.Wall(), lease := a.lease)
          else rows[rid]
      else rid in rows' ==> rows'[rid].status == Pending && rows'[rid].attempts == 0
  {
    assert rid in s.db.rows ==> rid < s.db.nextId;
  }

  lemma OtherBalanced(c: Config, s: State, a: Action, rid: nat)
    requires Safe(s) && Enabled(c, s, a) && !Sweeps(s, a) && !a.Finish?
    ensures Balanced(s, a, Step(c, s, a), rid)
  {
    hide Occurs, DbAfter, Enabled;
    OtherRows(c, s, a, rid);
    OtherOccurs(c, s, a, rid);
    assert Step(c, s, a).db.rows == DbAfter(c, s, a).rows;
  }

  lemma OtherOccurs(c: Config, s: State, a: Action, rid: nat)
    requires Enabled(c, s, a) && !Sweeps(s, a) && !a.Finish?
    ensures !Occurs(s, a, FinishedOk(rid)) && !Occurs(s, a, FinishedFailed(rid)) && !Occurs(s, a, ReclaimedRow(rid))
    ensures Occurs(s, a, Claimed(rid)) <==> TakeWins(s, a) && s.procs[a.w].rid == rid
  {
  }

  lemma RowStep(c: Config, s: State, a: Action, rid: nat)
    requires Safe(s) && Enabled(c, s, a)
    ensures Balanced(s, a, Step(c, s, a), rid)
  {
    if Sweeps(s, a) {
      SweepBalanced(c, s, a, rid);
    } else if a.Finish? {
      FinishBalanced(c, s, a, rid);
    } else {
      OtherBalanced(c, s, a, rid);
    }
  }

  // claims + processing before = accepted completions + reclaims + processing after;
  // every failed completion, and nothing else, costs one attempt.
  lemma {:induction false} RowLaw(c: Config, s: State, run: seq<Action>, rid: nat)
    requires Safe(s) && Valid(c, s, run)
    ensures var t := Exec(c, s, run);
      && Count(c, s, run, Claimed(rid)) + Running(s, rid)
         == Count(c, s, run, FinishedOk(rid)) + Count(c, s, run, FinishedFailed(rid))
            + Count(c, s, run, ReclaimedRow(rid)) + Running(t, rid)
      && Attempts(t, rid) == Attempts(s, rid) + Count(c, s, run, FinishedFailed(rid))
      && DoneCount(t, rid) == DoneCount(s, rid) + Count(c, s, run, FinishedOk(rid))
    decreases |run|
  {
    if run != [] {
      RowStep(c, s, run[0], rid);
      FencedStep(c, s, run[0]);
      OwnedStep(c, s, run[0]);
      RowLaw(c, Step(c, s, run[0]), run[1..], rid);
    }
  }

  lemma {:induction false} ReachableIsBudgeted(c: Config, s: State, run: seq<Action>)
    requires AllBudgeted(s.db) && Valid(c, s, run)
    ensures AllBudgeted(Exec(c, s, run).db)
    decreases |run|
  {
    if run != [] {
      BudgetStep(c, s, run[0]);
      ReachableIsBudgeted(c, Step(c, s, run[0]), run[1..]);
    }
  }

  // From an empty database on, whatever happens.
  lemma AlwaysBudgeted(c: Config, s: State, run: seq<Action>)
    requires Starts(s) && s.db.rows == map[] && Valid(c, s, run)
    ensures AllBudgeted(Exec(c, s, run).db)
  {
    ReachableIsBudgeted(c, s, run);
  }

  // A delivered or failed row never changes again.
  lemma {:induction false} SettledForever(c: Config, s: State, run: seq<Action>, rid: nat)
    requires Safe(s) && Valid(c, s, run)
    requires Settled(s.db, rid)
    ensures rid in Exec(c, s, run).db.rows && Exec(c, s, run).db.rows[rid] == s.db.rows[rid]
    decreases |run|
  {
    if run != [] {
      SettledStep(c, s, run[0], rid);
      FencedStep(c, s, run[0]);
      OwnedStep(c, s, run[0]);
      SettledForever(c, Step(c, s, run[0]), run[1..], rid);
    }
  }

  // A row is claimed at most three times beyond its reclaims.
  lemma ClaimsAreBounded(c: Config, s: State, run: seq<Action>, rid: nat)
    requires Starts(s) && AllBudgeted(s.db) && Valid(c, s, run)
    ensures Count(c, s, run, Claimed(rid)) <= 3 - Attempts(s, rid) + Count(c, s, run, ReclaimedRow(rid))
    ensures Count(c, s, run, FinishedFailed(rid)) <= 3 - Attempts(s, rid)
    ensures Count(c, s, run, FinishedOk(rid)) <= 1
  {
    StartIsSafe(s);
    RowLaw(c, s, run, rid);
    ReachableIsBudgeted(c, s, run);
    var t := Exec(c, s, run);
    if rid in t.db.rows {
      assert Budgeted(t.db.rows[rid]);
    }
  }

  // ---- a job that kills its workers ---------------------------------------------------------

  // The worker's group has nothing older to do, so its next claim takes this row.
  predicate NextInLine(s: State, w: string, g: set<string>, rid: nat) {
    && w in s.procs && s.procs[w] == Idle && s.sweep.None? && s.Wall() > 0
    && rid in s.db.rows && Matches(s.db.rows[rid], Some(g))
    && forall id <- s.db.rows :: id < rid ==>
         s.db.rows[id].status == Done || s.db.rows[id].status == Failed || !IsOurs(s.db.rows[id], g)
  }

  predicate IsOurs(r: Row, g: set<string>) {
    r.owner in g || r.owner == ""
  }

  // The worker takes the job and dies; the clock passes the timeout; the row is reclaimed.
  function CrashRound(s: State, w: string, g: set<string>, rid: nat, lease: string, bridges: seq<string>,
                      rest: seq<Action>): seq<Action>
  {
    [Select(w, Some(g), rid)] + ([Take(w, lease, bridges)] + ([Crash(w)] + ([Tick(Later(s))] + ([Reclaim] + rest))))
  }

  function Later(s: State): real {
    s.now + (RECLAIM_TIMEOUT + 2) as real
  }

  function Orphaned(s: State, w: string, rid: nat, lease: string): State
    requires rid in s.db.rows
  {
    s.(db := Taken(s.db, rid, w, lease, s.Wall()),
       procs := s.procs[w := Idle],
       issued := s.issued[lease := Grant(rid, s.Wall())])
  }

  function AfterRound(s: State, w: string, rid: nat, lease: string): State
    requires rid in s.db.rows
  {
    var t := Orphaned(s, w, rid, lease).(now := Later(s));
    t.(db := Reclaimed(t.db, t.Wall()))
  }

  lemma Prepend(c: Config, s: State, a: Action, t: State, rest: seq<Action>, k: Kind)
    requires Enabled(c, s, a) && t == Step(c, s, a) && Valid(c, t, rest)
    ensures Valid(c, s, [a] + rest) && Exec(c, s, [a] + rest) == Exec(c, t, rest)
    ensures Count(c, s, [a] + rest, k) == Unit(Occurs(s, a, k)) + Count(c, t, rest, k)
  {
    assert ([a] + rest)[1..] == rest;
  }

  lemma RoundEndsPending(s: State, w: string, g: set<string>, rid: nat, lease: string)
    requires NextInLine(s, w, g, rid) && lease != "" && lease !in s.issued
    ensures var t := AfterRound(s, w, rid, lease);
      && NextInLine(t, w, g, rid) && t.issued.Keys == s.issued.Keys + {lease}
      && t.db.rows[rid].attempts == s.db.rows[rid].attempts
  {
    var t := Orphaned(s, w, rid, lease).(now := Later(s));
    assert t.Wall() == s.Wall() + RECLAIM_TIMEOUT + 2;
    assert t.db.rows[rid].StaleBefore(t.Wall() - RECLAIM_TIMEOUT);
  }

  lemma CrashRoundRuns(c: Config, s: State, w: string, g: set<string>, rid: nat, lease: string, bridges: seq<string>,
                       rest: seq<Action>)
    requires NextInLine(s, w, g, rid) && lease != "" && lease !in s.issued
    requires Valid(c, AfterRound(s, w, rid, lease), rest)
    ensures var run := CrashRound(s, w, g, rid, lease, bridges, rest);
      && Valid(c, s, run) && Exec(c, s, run) == Exec(c, AfterRound(s, w, rid, lease), rest)
      && Count(c, s, run, Claimed(rid)) == 1 + Count(c, AfterRound(s, w, rid, lease), rest, Claimed(rid))
  {
    var k := Claimed(rid);
    var s3 := Orphaned(s, w, rid, lease);
    var tail := [Tick(Later(s))] + ([Reclaim] + rest);
    TailRuns(c, s3, Later(s), rest, k);
    var s1 := s.(procs := s.procs[w := Selected(rid)]);
    var s2 := HeldBy(s, w, rid, lease, bridges);
    DeathStep(c, s, w, g, rid, lease, bridges);
    Prepend(c, s2, Crash(w), s3, tail, k);
    TakeStep(c, s, w, g, rid, lease, bridges);
    Prepend(c, s1, Take(w, lease, bridges), s2, [Crash(w)] + tail, k);
    Prepend(c, s, Select(w, Some(g), rid), s1, [Take(w, lease, bridges)] + ([Crash(w)] + tail), k);
  }

  lemma TakeStep(c: Config, s: State, w: string, g: set<string>, rid: nat, lease: string, bridges: seq<string>)
    requires NextInLine(s, w, g, rid) && lease != "" && lease !in s.issued
    ensures var s1, a := s.(procs := s.procs[w := Selected(rid)]), Take(w, lease, bridges);
      Enabled(c, s1, a) && Step(c, s1, a) == HeldBy(s, w, rid, lease, bridges)
  {
    var s1 := s.(procs := s.procs[w := Selected(rid)]);
    assert s1.procs[w := HeldBy(s, w, rid, lease, bridges).procs[w]] == HeldBy(s, w, rid, lease, bridges).procs;
  }

  lemma DeathStep(c: Config, s: State, w: string, g: set<string>, rid: nat, lease: string, bridges: seq<string>)
    requires NextInLine(s, w, g, rid)
    ensures Enabled(c, HeldBy(s, w, rid, lease, bridges), Crash(w))
    ensures Step(c, HeldBy(s, w, rid, lease, bridges), Crash(w)) == Orphaned(s, w, rid, lease)
  {
    assert HeldBy(s, w, rid, lease, bridges).procs[w := Idle] == s.procs[w := Idle];
  }

  function HeldBy(s: State, w: string, rid: nat, lease: string, bridges: seq<string>): State
    requires rid in s.db.rows
  {
    var job := Job(rid, lease, s.Wall(), s.db.rows[rid].payload);
    Orphaned(s, w, rid, lease).(procs := s.procs[w := Trying(job, bridges, false)])
  }

  lemma TailRuns(c: Config, s: State, later: real, rest: seq<Action>, k: Kind)
    requires s.now <= later && s.sweep.None? && k.Claimed?
    requires var t := s.(now := later); Valid(c, t.(db := Reclaimed(t.db, t.Wall())), rest)
    ensures var t := s.(now := later);
      var u := t.(db := Reclaimed(t.db, t.Wall()));
      var run := [Tick(later)] + ([Reclaim] + rest);
      Valid(c, s, run) && Exec(c, s, run) == Exec(c, u, rest) && Count(c, s, run, k) == Count(c, u, rest, k)
  {
    var t := s.(now := later);
    Prepend(c, t, Reclaim, t.(db := Reclaimed(t.db, t.Wall())), rest, k);
    Prepend(c, s, Tick(later), t, [Reclaim] + rest, k);
  }

  // Reclaims cost no attempts: a job that kills the worker of its group whenever it takes it, whatever
  // bridges there are, is claimed once for each lease ever drawn for it, and is pending again with its
  // attempts untouched.
  lemma {:induction false} CrashesAreFree(c: Config, s: State, w: string, g: set<string>, rid: nat, leases: seq<string>,
                                          bridges: seq<string>)
    returns (run: seq<Action>)
    requires NextInLine(s, w, g, rid)
    requires forall i :: 0 <= i < |leases| ==> leases[i] != "" && leases[i] !in s.issued
    requires forall i, j :: 0 <= i < j < |leases| ==> leases[i] != leases[j]
    ensures Valid(c, s, run) && Count(c, s, run, Claimed(rid)) == |leases|
    ensures var t := Exec(c, s, run);
      NextInLine(t, w, g, rid) && t.db.rows[rid].attempts == s.db.rows[rid].attempts
    decreases |leases|
  {
    if leases == [] {
      return [];
    }
    RoundEndsPending(s, w, g, rid, leases[0]);
    var t := AfterRound(s, w, rid, leases[0]);
    var rest := CrashesAreFree(c, t, w, g, rid, leases[1..], bridges);
    CrashRoundRuns(c, s, w, g, rid, leases[0], bridges, rest);
    run := CrashRound(s, w, g, rid, leases[0], bridges, rest);
  }
}
