// The delivery protocol: the subscriber, any number of workers and the users of the mailboxes,
// interleaved over the shared tables. One action is one SQL transaction, one clock tick or one crash.
module Protocol {
  import opened Wrappers
  import opened Events
  import opened MailQueue

  const RECLAIM_INTERVAL: real := 30.0

  // `messageId(bridge, event)` is the Message-ID that bridge reads in the event: None when it cannot
  // read the event as a mail, "" when the mail carries none.
  // `maxLoop` bounds one loop iteration of the worker that runs the reclaim timer, `maxWait` the seconds
  // between the two clock readings of one enqueue.
  datatype Config = Config(messageId: (string, Event) -> Option<string>, maxInbox: nat, maxLoop: real, maxWait: nat)

  // What a lease was issued for: the row and the claim time.
  datatype Grant = Grant(rid: nat, since: int)

  datatype Job = Job(rid: nat, lease: string, since: int, payload: Event)

  // Where a worker stands in its loop.
  datatype Proc =
    | Idle
    | Selected(rid: nat)
    | Trying(job: Job, todo: seq<string>, permanent: bool)
    | Inserting(job: Job, todo: seq<string>, mid: string, target: string)
    | Accepted(job: Job, mid: string)
  {
    predicate HasJob() {
      Trying? || Inserting? || Accepted?
    }
  }

  // The reclaim timer of one live worker.
  datatype Sweep = Sweep(lastReclaim: real, lastTop: real)

  // `inbox` maps each stored Message-ID (UNIQUE over all mailboxes) to the owner of its row.
  // `issued`, `delivered` and `deleted` are history: every lease ever issued, the Message-ID each
  // accepted completion reported, and every Message-ID a user ever removed.
  datatype State = State(
    db: Db, inbox: map<string, string>, procs: map<string, Proc>, now: real, sweep: Option<Sweep>,
    issued: map<string, Grant>, delivered: map<nat, string>, deleted: set<string>)
  {
    function Wall(): int {
      now.Floor
    }

    function Mailbox(owner: string): set<string> {
      set mid <- inbox | inbox[mid] == owner
    }

    function MailboxSize(owner: string): nat {
      |Mailbox(owner)|
    }
  }

  datatype Action =
    | Enqueue(e: Event, accounts: Option<set<string>>, seenAt: int)
    | CleanSeen
    | Select(w: string, groups: Option<set<string>>, rid: nat)
    | Take(w: string, lease: string, bridges: seq<string>)
    | Refuse(w: string, permanent: bool)
    | MailboxFull(w: string, target: string)
    | QuotaPass(w: string, mid: string, target: string)
    | Insert(w: string)
    | InsertFails(w: string)
    | Finish(w: string, error: string)
    | Crash(w: string)
    | Reclaim
    | StartSweeper
    | LoopTop
    | StopSweeper
    | Tick(t: real)
    | Delete(mid: string)

  predicate Enabled(c: Config, s: State, a: Action) {
    match a
    case Enqueue(_, _, seenAt) => seenAt <= s.Wall() <= seenAt + c.maxWait
    case CleanSeen => true
    case Select(w, groups, rid) => w in s.procs && s.procs[w].Idle? && IsOldestMatch(s.db, groups, rid)
    case Take(w, lease, _) => w in s.procs && s.procs[w].Selected? && lease != "" && lease !in s.issued
    case Refuse(w, permanent) =>
      && w in s.procs && s.procs[w].Trying? && s.procs[w].todo != []
      && (permanent ==> c.messageId(s.procs[w].todo[0], s.procs[w].job.payload) == None)
    case MailboxFull(w, target) =>
      w in s.procs && s.procs[w].Trying? && s.procs[w].todo != [] && s.MailboxSize(target) >= c.maxInbox
    case QuotaPass(w, mid, target) =>
      && w in s.procs && s.procs[w].Trying? && s.procs[w].todo != [] && s.MailboxSize(target) < c.maxInbox
      && (var read := c.messageId(s.procs[w].todo[0], s.procs[w].job.payload); read == Some("") || read == Some(mid))
    case Insert(w) => w in s.procs && s.procs[w].Inserting?
    case InsertFails(w) => w in s.procs && s.procs[w].Inserting?
    case Finish(w, _) => w in s.procs && (s.procs[w].Accepted? || (s.procs[w].Trying? && s.procs[w].todo == []))
    case Crash(w) => w in s.procs
    case Reclaim => true
    case StartSweeper => s.sweep.None?
    case LoopTop => s.sweep.Some?
    case StopSweeper => s.sweep.Some?
    case Tick(t) => s.now <= t && (s.sweep.Some? ==> t <= s.sweep.value.lastTop + c.maxLoop)
    case Delete(mid) => mid in s.inbox
  }

  predicate ReclaimDue(lastReclaim: real, now: real) {
    now - lastReclaim >= RECLAIM_INTERVAL
  }

  // Whether an action runs the reclaim statement.
  predicate Sweeps(s: State, a: Action) {
    a.Reclaim? || a.StartSweeper? || (a.LoopTop? && s.sweep.Some? && ReclaimDue(s.sweep.value.lastReclaim, s.now))
  }

  // A completion the queue accepts: the worker still holds the row under its lease.
  predicate FinishAccepted(s: State, a: Action) {
    && a.Finish? && a.w in s.procs && (s.procs[a.w].Accepted? || s.procs[a.w].Trying?)
    && Holds(s.db, s.procs[a.w].job.rid, s.procs[a.w].job.lease)
  }

  // A claim whose UPDATE found the row still pending.
  predicate TakeWins(s: State, a: Action) {
    a.Take? && a.w in s.procs && s.procs[a.w].Selected? && CanTake(s.db, s.procs[a.w].rid)
  }

  // An insert the UNIQUE Message-ID does not turn into a no-op.
  predicate InsertLands(s: State, a: Action) {
    a.Insert? && a.w in s.procs && s.procs[a.w].Inserting? && s.procs[a.w].mid !in s.inbox
  }

  // A step, table by table.

  function DbAfter(c: Config, s: State, a: Action): Db
    requires Enabled(c, s, a)
  {
    if Sweeps(s, a) then Reclaimed(s.db, s.Wall())
    else match a
      case Enqueue(e, accounts, seenAt) => Enqueued(s.db, accounts, e, seenAt, s.Wall())
      case CleanSeen => SeenCleaned(s.db, s.Wall())
      case Take(w, lease, _) => Taken(s.db, s.procs[w].rid, w, lease, s.Wall())
      case Finish(w, error) =>
        var p := s.procs[w];
        Finished(s.db, p.job.rid, p.job.lease, p.Accepted?, error, p.Trying? && p.permanent, s.Wall())
      case _ => s.db
  }

  function ProcsAfter(c: Config, s: State, a: Action): map<string, Proc>
    requires Enabled(c, s, a)
  {
    match a
    case Select(w, _, rid) => s.procs[w := Selected(rid)]
    case Take(w, lease, bridges) =>
      var rid := s.procs[w].rid;
      s.procs[w := if CanTake(s.db, rid)
                   then Trying(Job(rid, lease, s.Wall(), s.db.rows[rid].payload), bridges, false) else Idle]
    case Refuse(w, permanent) => s.procs[w := Trying(s.procs[w].job, s.procs[w].todo[1..], permanent)]
    case MailboxFull(w, _) => s.procs[w := Trying(s.procs[w].job, s.procs[w].todo[1..], false)]
    case QuotaPass(w, mid, target) => s.procs[w := Inserting(s.procs[w].job, s.procs[w].todo[1..], mid, target)]
    case Insert(w) =>
      var p := s.procs[w];
      s.procs[w := if p.mid in s.inbox then Trying(p.job, p.todo, true) else Accepted(p.job, p.mid)]
    case InsertFails(w) => s.procs[w := Trying(s.procs[w].job, s.procs[w].todo, false)]
    case Finish(w, _) => s.procs[w := Idle]
    case Crash(w) => s.procs[w := Idle]
    case _ => s.procs
  }

  function InboxAfter(c: Config, s: State, a: Action): map<string, string>
    requires Enabled(c, s, a)
  {
    if InsertLands(s, a) then s.inbox[s.procs[a.w].mid := s.procs[a.w].target]
    else if a.Delete? then s.inbox - {a.mid}
    else s.inbox
  }

  function SweepAfter(c: Config, s: State, a: Action): Option<Sweep>
    requires Enabled(c, s, a)
  {
    match a
    case StartSweeper => Some(Sweep(s.now, s.now))
    case LoopTop => Some(Sweep(if Sweeps(s, a) then s.now else s.sweep.value.lastReclaim, s.now))
    case StopSweeper => None
    case _ => s.sweep
  }

  function IssuedAfter(c: Config, s: State, a: Action): map<string, Grant>
    requires Enabled(c, s, a)
  {
    if TakeWins(s, a) then s.issued[a.lease := Grant(s.procs[a.w].rid, s.Wall())] else s.issued
  }

  function DeliveredAfter(c: Config, s: State, a: Action): map<nat, string>
    requires Enabled(c, s, a)
  {
    if FinishAccepted(s, a) && s.procs[a.w].Accepted?
    then s.delivered[s.procs[a.w].job.rid := s.procs[a.w].mid] else s.delivered
  }

  function Step(c: Config, s: State, a: Action): State
    requires Enabled(c, s, a)
  {
    State(DbAfter(c, s, a), InboxAfter(c, s, a), ProcsAfter(c, s, a),
          if a.Tick? then a.t else s.now, SweepAfter(c, s, a),
          IssuedAfter(c, s, a), DeliveredAfter(c, s, a),
          if a.Delete? then s.deleted + {a.mid} else s.deleted)
  }

  // ---- runs --------------------------------------------------------------------------------

  predicate Valid(c: Config, s: State, run: seq<Action>)
    decreases |run|
  {
    run == [] || (Enabled(c, s, run[0]) && Valid(c, Step(c, s, run[0]), run[1..]))
  }

  function Exec(c: Config, s: State, run: seq<Action>): State
    requires Valid(c, s, run)
    decreases |run|
  {
    if run == [] then s else Exec(c, Step(c, s, run[0]), run[1..])
  }

  lemma {:induction false} RunsConcat(c: Config, s: State, first: seq<Action>, second: seq<Action>)
    requires Valid(c, s, first) && Valid(c, Exec(c, s, first), second)
    ensures Valid(c, s, first + second) && Exec(c, s, first + second) == Exec(c, Exec(c, s, first), second)
    decreases |first|
  {
    if first == [] {
      assert first + second == second;
    } else {
      RunsConcat(c, Step(c, s, first[0]), first[1..], second);
      assert (first + second)[1..] == first[1..] + second;
    }
  }

  lemma OneAction(c: Config, s: State, a: Action)
    requires Enabled(c, s, a)
    ensures Valid(c, s, [a]) && Exec(c, s, [a]) == Step(c, s, a)
  {
    assert [a][1..] == [];
    assert Valid(c, Step(c, s, a), []);
  }

  lemma OneMore(c: Config, s: State, run: seq<Action>, a: Action)
    requires Valid(c, s, run) && Enabled(c, Exec(c, s, run), a)
    ensures Valid(c, s, run + [a]) && Exec(c, s, run + [a]) == Step(c, Exec(c, s, run), a)
  {
    hide Step, Enabled;
    OneAction(c, Exec(c, s, run), a);
    RunsConcat(c, s, run, [a]);
  }

  // The occurrences a run is charged for.
  datatype Kind =
    | Claimed(rid: nat)
    | FinishedOk(rid: nat)
    | FinishedFailed(rid: nat)
    | ReclaimedRow(rid: nat)
    | LeaseAccepted(lease: string)
    | LeaseReclaimed(lease: string)
    | MailAccepted(mid: string)
    | MailDeleted(mid: string)
    | EventQueued(eid: string)
    | EventForgotten(eid: string)

  predicate Occurs(s: State, a: Action, k: Kind) {
    match k
    case Claimed(rid) => TakeWins(s, a) && s.procs[a.w].rid == rid
    case FinishedOk(rid) =>
      FinishAccepted(s, a) && s.procs[a.w].job.rid == rid && s.procs[a.w].Accepted?
    case FinishedFailed(rid) =>
      FinishAccepted(s, a) && s.procs[a.w].job.rid == rid && s.procs[a.w].Trying?
    case ReclaimedRow(rid) =>
      Sweeps(s, a) && rid in s.db.rows && s.db.rows[rid].StaleBefore(s.Wall() - RECLAIM_TIMEOUT)
    case LeaseAccepted(lease) => FinishAccepted(s, a) && s.procs[a.w].job.lease == lease
    case LeaseReclaimed(lease) =>
      Sweeps(s, a) && exists rid <- s.db.rows ::
        s.db.rows[rid].HeldUnder(lease) && s.db.rows[rid].StaleBefore(s.Wall() - RECLAIM_TIMEOUT)
    case MailAccepted(mid) =>
      InsertLands(s, a) && s.procs[a.w].mid == mid
    case MailDeleted(mid) => a == Delete(mid)
    case EventQueued(eid) => a.Enqueue? && a.e.id == eid && Admits(s.db, a.accounts, a.e)
    case EventForgotten(eid) => a.CleanSeen? && eid in s.db.seen && s.db.seen[eid] < s.Wall() - SEEN_TTL
  }

  function Count(c: Config, s: State, run: seq<Action>, k: Kind): nat
    requires Valid(c, s, run)
    decreases |run|
  {
    if run == [] then 0
    else (if Occurs(s, run[0], k) then 1 else 0) + Count(c, Step(c, s, run[0]), run[1..], k)
  }

  // ---- starting points ---------------------------------------------------------------------

  // Any database, legacy or new, as the first process finds it after the schema migration:
  // no worker has a job, and no lease has been issued yet.
  ghost predicate Starts(s: State) {
    && s.db.hasLease
    && (exists before: Db :: !before.hasLease && before.IdsBelowNext() && s.db == Migrated(before))
    && (forall w <- s.procs :: s.procs[w].Idle?)
    && s.sweep.None? && s.issued == map[] && s.delivered == map[] && s.deleted == {}
  }
}
