// Every iteration of the worker loop is a run of the delivery protocol.
module WorkerRuns {
  import opened Wrappers
  import opened Events
  import opened MailQueue
  import opened Protocol
  import opened Worker
  import Bridge = MailBridge
  import Quota

  // Owners of the stored mails, as the protocol sees the inbox.
  function Owners(inbox: Bridge.Inbox): map<string, string> {
    map id <- inbox :: inbox[id].owner
  }

  function ReadId(env: Bridge.Env, a: Bridge.Account, e: Event): Option<string> {
    match Bridge.Read(env, a, e)
    case IsMail(parsed, _) => Some(parsed.messageId)
    case _ => None
  }

  // The protocol's configuration describes these bridges.
  ghost predicate Describes(c: Config, env: Bridge.Env, todo: seq<Attempt>) {
    forall t <- todo ::
      t.account.maxInbox == c.maxInbox && forall e :: c.messageId(t.account.owner, e) == ReadId(env, t.account, e)
  }

  function Names(todo: seq<Attempt>): seq<string> {
    seq(|todo|, i requires 0 <= i < |todo| => todo[i].account.owner)
  }

  lemma MailboxIsSame(s: State, inbox: Bridge.Inbox, owner: string)
    requires s.inbox == Owners(inbox)
    ensures s.MailboxSize(owner) == |Bridge.Mailbox(inbox, owner)|
  {
    assert s.Mailbox(owner) == Bridge.Mailbox(inbox, owner);
  }

  function At(s: State, w: string, p: Proc, inbox: Bridge.Inbox): State {
    s.(procs := s.procs[w := p], inbox := Owners(inbox))
  }

  // Where a worker stands after one bridge.
  function After(job: Job, todo: seq<string>, id: string, o: Bridge.Outcome): Proc {
    match o
    case Accepted => Accepted(job, id)
    case Refused(_, permanent) => Trying(job, todo, permanent)
    case Raised(_) => Trying(job, todo, false)
  }

  lemma RefuseStep(c: Config, s: State, w: string, job: Job, name: string, rest: seq<string>, was: bool,
                   permanent: bool, inbox: Bridge.Inbox)
    requires w in s.procs && s.procs[w] == Trying(job, [name] + rest, was) && s.inbox == Owners(inbox)
    requires permanent ==> c.messageId(name, job.payload) == None
    ensures Enabled(c, s, Refuse(w, permanent))
    ensures Step(c, s, Refuse(w, permanent)) == At(s, w, Trying(job, rest, permanent), inbox)
  {
    assert ([name] + rest)[1..] == rest;
  }

  lemma FullStep(c: Config, s: State, w: string, job: Job, name: string, rest: seq<string>, was: bool, owner: string,
                 inbox: Bridge.Inbox)
    requires w in s.procs && s.procs[w] == Trying(job, [name] + rest, was) && s.inbox == Owners(inbox)
    requires s.MailboxSize(owner) >= c.maxInbox
    ensures Enabled(c, s, MailboxFull(w, owner))
    ensures Step(c, s, MailboxFull(w, owner)) == At(s, w, Trying(job, rest, false), inbox)
  {
    assert ([name] + rest)[1..] == rest;
  }

  lemma PassStep(c: Config, s: State, w: string, job: Job, name: string, rest: seq<string>, was: bool, owner: string,
                 id: string, inbox: Bridge.Inbox)
    requires w in s.procs && s.procs[w] == Trying(job, [name] + rest, was) && s.inbox == Owners(inbox)
    requires s.MailboxSize(owner) < c.maxInbox && c.messageId(name, job.payload) in {Some(""), Some(id)}
    ensures Enabled(c, s, QuotaPass(w, id, owner))
    ensures Step(c, s, QuotaPass(w, id, owner)) == At(s, w, Inserting(job, rest, id, owner), inbox)
  {
    assert ([name] + rest)[1..] == rest;
  }

  lemma InsertStep(c: Config, s: State, w: string, job: Job, rest: seq<string>, id: string, row: Bridge.Mail,
                   inbox: Bridge.Inbox)
    requires w in s.procs
    ensures var t := At(s, w, Inserting(job, rest, id, row.owner), inbox);
      && Enabled(c, t, Insert(w))
      && Step(c, t, Insert(w)) ==
         if id in inbox then At(s, w, Trying(job, rest, true), inbox)
         else At(s, w, Accepted(job, id), inbox[id := row])
  {
    var t := At(s, w, Inserting(job, rest, id, row.owner), inbox);
    assert Owners(inbox[id := row]) == Owners(inbox)[id := row.owner];
    assert t.procs[w := Trying(job, rest, true)] == s.procs[w := Trying(job, rest, true)];
    assert t.procs[w := Accepted(job, id)] == s.procs[w := Accepted(job, id)];
  }

  lemma InsertFailsStep(c: Config, s: State, w: string, job: Job, rest: seq<string>, id: string, owner: string,
                        inbox: Bridge.Inbox)
    requires w in s.procs
    ensures var t := At(s, w, Inserting(job, rest, id, owner), inbox);
      Enabled(c, t, InsertFails(w)) && Step(c, t, InsertFails(w)) == At(s, w, Trying(job, rest, false), inbox)
  {
    var t := At(s, w, Inserting(job, rest, id, owner), inbox);
    assert t.procs[w := Trying(job, rest, false)] == s.procs[w := Trying(job, rest, false)];
  }

  // Handling the event on one bridge is one refusal, or a quota check and an insert, tried or failed.
  lemma OneBridge(c: Config, env: Bridge.Env, s: State, w: string, job: Job, t: Attempt, rest: seq<string>, was: bool,
                  inbox: Bridge.Inbox) returns (run: seq<Action>, id: string)
    requires w in s.procs && s.procs[w] == Trying(job, [t.account.owner] + rest, was) && s.inbox == Owners(inbox)
    requires t.account.maxInbox == c.maxInbox
    requires c.messageId(t.account.owner, job.payload) == ReadId(env, t.account, job.payload)
    ensures var (o, after) := Bridge.Handled(env, t.account, inbox, job.payload, t.call);
      Valid(c, s, run) && Exec(c, s, run) == At(s, w, After(job, rest, id, o), after)
  {
    hide Step, Enabled, Bridge.Read, Bridge.Row, Bridge.Mailbox, At;
    var (o, after) := Bridge.Handled(env, t.account, inbox, job.payload, t.call);
    var reading := Bridge.Read(env, t.account, job.payload);
    id := "";
    if !reading.IsMail? || t.call.countFault.Some? {
      var permanent := o.Refused?;
      RefuseStep(c, s, w, job, t.account.owner, rest, was, permanent, inbox);
      run := [Refuse(w, permanent)];
      OneAction(c, s, run[0]);
    } else {
      var row := Bridge.Row(t.account, reading.parsed, reading.sender, job.payload, t.call);
      id := Bridge.MessageIdOf(reading.parsed, t.call);
      MailboxIsSame(s, inbox, row.owner);
      if |Bridge.Mailbox(inbox, row.owner)| >= c.maxInbox {
        FullStep(c, s, w, job, t.account.owner, rest, was, row.owner, inbox);
        run := [MailboxFull(w, row.owner)];
        OneAction(c, s, run[0]);
      } else {
        PassStep(c, s, w, job, t.account.owner, rest, was, row.owner, id, inbox);
        var store: Action;
        if t.call.insertFault.Some? {
          InsertFailsStep(c, s, w, job, rest, id, row.owner, inbox);
          store := InsertFails(w);
        } else {
          InsertStep(c, s, w, job, rest, id, row, inbox);
          store := Insert(w);
        }
        run := [QuotaPass(w, id, row.owner), store];
        OneAction(c, s, run[0]);
        OneMore(c, s, [run[0]], run[1]);
      }
    }
  }

  lemma AtTwice(s: State, w: string, p: Proc, inbox: Bridge.Inbox, q: Proc, after: Bridge.Inbox)
    ensures At(At(s, w, p, inbox), w, q, after) == At(s, w, q, after)
  {
    assert s.procs[w := p][w := q] == s.procs[w := q];
  }

  lemma {:induction false} TriesAreRuns(c: Config, env: Bridge.Env, s: State, w: string, job: Job, todo: seq<Attempt>,
                                        inbox: Bridge.Inbox, err: string, v: Verdict)
    returns (run: seq<Action>, id: string)
    requires w in s.procs && s.procs[w] == Trying(job, Names(todo), v.permanent) && s.inbox == Owners(inbox) && !v.ok
    requires Describes(c, env, todo)
    ensures var (verdict, after) := Tried(env, job.payload, todo, inbox, err, v);
      Valid(c, s, run)
      && Exec(c, s, run)
         == At(s, w, if verdict.ok then Accepted(job, id) else Trying(job, [], verdict.permanent), after)
    decreases |todo|
  {
    hide Step, Enabled, Bridge.Handled, FailReason, At, Describes;
    run, id := [], "";
    if todo == [] {
      SameState(s, w, inbox);
    } else {
      var first, rest := todo[0], todo[1..];
      DescribesParts(c, env, todo, job.payload);
      assert Names(todo) == [first.account.owner] + Names(rest);
      var (o, after) := Bridge.Handled(env, first.account, inbox, job.payload, first.call);
      run, id := OneBridge(c, env, s, w, job, first, Names(rest), v.permanent, inbox);
      var t := Exec(c, s, run);
      if o != Bridge.Accepted {
        AtIs(s, w, After(job, Names(rest), id, o), after);
        var more: seq<Action>;
        var err' := match o case Raised(error) => error case _ => err;
        var v' := match o case Refused(error, permanent) => Verdict(false, FailReason(error, err), permanent)
                          case _ => Verdict(false, err', false);
        var p := After(job, Names(rest), id, o);
        more, id := TriesAreRuns(c, env, t, w, job, rest, after, err', v');
        var (verdict, last) := Tried(env, job.payload, rest, after, err', v');
        AtTwice(s, w, p, after, if verdict.ok then Accepted(job, id) else Trying(job, [], verdict.permanent), last);
        RunsConcat(c, s, run, more);
        run := run + more;
      }
    }
  }

  lemma SameState(s: State, w: string, inbox: Bridge.Inbox)
    requires w in s.procs && s.inbox == Owners(inbox)
    ensures At(s, w, s.procs[w], inbox) == s
  {
    assert s.procs[w := s.procs[w]] == s.procs;
  }

  lemma AtIs(s: State, w: string, p: Proc, inbox: Bridge.Inbox)
    ensures var t := At(s, w, p, inbox); w in t.procs && t.procs[w] == p && t.inbox == Owners(inbox)
  {
  }

  lemma DescribesParts(c: Config, env: Bridge.Env, todo: seq<Attempt>, e: Event)
    requires todo != [] && Describes(c, env, todo)
    ensures todo[0].account.maxInbox == c.maxInbox
    ensures c.messageId(todo[0].account.owner, e) == ReadId(env, todo[0].account, e)
    ensures Describes(c, env, todo[1..])
  {
    assert todo[0] in todo && forall t <- todo[1..] :: t in todo;
  }

  // Claiming a job, trying it on its bridges and finishing it is a run of the protocol that ends with
  // the queue and the inbox the loop iteration leaves.
  lemma IterationIsARun(c: Config, env: Bridge.Env, s: State, w: string, groups: set<string>, rid: nat, lease: string,
                        todo: seq<Attempt>, inbox: Bridge.Inbox, t: real)
    returns (run: seq<Action>)
    requires w in s.procs && s.procs[w].Idle? && IsOldestMatch(s.db, Some(groups), rid)
    requires lease != "" && lease !in s.issued && s.inbox == Owners(inbox) && Describes(c, env, todo)
    requires Enabled(c, s, Tick(t))
    ensures Valid(c, s, run)
    ensures var (db, after) := Worked(env, s.db, inbox, rid, w, lease, todo, s.Wall(), t.Floor);
      var s' := Exec(c, s, run);
      s'.db == db && s'.inbox == Owners(after) && s'.procs == s.procs[w := Idle] && s'.now == t
  {
    hide Tried, Bridge.Handled, Describes, FailReason, Step, Finished, Names, Owners, Exec, Valid;
    var payload := s.db.rows[rid].payload;
    var job := Job(rid, lease, s.Wall(), payload);
    var s2 := s.(db := Taken(s.db, rid, w, lease, s.Wall()), issued := s.issued[lease := Grant(rid, s.Wall())],
                 procs := s.procs[w := Trying(job, Names(todo), false)]);
    var claim := [Select(w, Some(groups), rid), Take(w, lease, Names(todo))];
    ClaimSteps(c, s, w, groups, rid, lease, Names(todo));
    var tries, id := TriesAreRuns(c, env, s2, w, job, todo, inbox, "", UNTRIED);
    var (v, after) := Tried(env, payload, todo, inbox, "", UNTRIED);
    var p := if v.ok then Accepted(job, id) else Trying(job, [], v.permanent);
    var s3 := At(s2, w, p, after);
    var reason := if v.reason == "" then NO_REASON else v.reason;
    var close := [Tick(t), Finish(w, if v.ok then "" else reason)];
    CloseSteps(c, s3, w, t, if v.ok then "" else reason);
    RunsConcat(c, s, claim, tries);
    RunsConcat(c, s, claim + tries, close);
    run := (claim + tries) + close;
    assert s.procs[w := Trying(job, Names(todo), false)][w := p][w := Idle] == s.procs[w := Idle];
  }

  lemma ClaimSteps(c: Config, s: State, w: string, groups: set<string>, rid: nat, lease: string, names: seq<string>)
    requires w in s.procs && s.procs[w].Idle? && IsOldestMatch(s.db, Some(groups), rid)
    requires lease != "" && lease !in s.issued
    ensures var run := [Select(w, Some(groups), rid), Take(w, lease, names)];
      Valid(c, s, run) && Exec(c, s, run) ==
        s.(db := Taken(s.db, rid, w, lease, s.Wall()), issued := s.issued[lease := Grant(rid, s.Wall())],
           procs := s.procs[w := Trying(Job(rid, lease, s.Wall(), s.db.rows[rid].payload), names, false)])
  {
    var a, b := Select(w, Some(groups), rid), Take(w, lease, names);
    var s1 := s.(procs := s.procs[w := Selected(rid)]);
    assert Enabled(c, s, a) && Step(c, s, a) == s1;
    assert Enabled(c, s1, b);
    var job := Job(rid, lease, s.Wall(), s.db.rows[rid].payload);
    assert s1.procs[w := Trying(job, names, false)] == s.procs[w := Trying(job, names, false)];
    OneAction(c, s, a);
    OneMore(c, s, [a], b);
  }

  lemma CloseSteps(c: Config, s: State, w: string, t: real, error: string)
    requires w in s.procs && (s.procs[w].Accepted? || (s.procs[w].Trying? && s.procs[w].todo == []))
    requires Enabled(c, s, Tick(t))
    ensures var run := [Tick(t), Finish(w, error)];
      var p := s.procs[w];
      Valid(c, s, run)
      && Exec(c, s, run).db
         == Finished(s.db, p.job.rid, p.job.lease, p.Accepted?, error, p.Trying? && p.permanent, t.Floor)
      && Exec(c, s, run).inbox == s.inbox && Exec(c, s, run).now == t
      && Exec(c, s, run).procs == s.procs[w := Idle]
  {
    var a, b := Tick(t), Finish(w, error);
    var s1 := s.(now := t);
    assert Step(c, s, a) == s1;
    assert Enabled(c, s1, b);
    OneAction(c, s, a);
    OneMore(c, s, [a], b);
  }

  // ---- the worker pool -------------------------------------------------------------------------------

  // The owners whose jobs worker i of n takes.
  function GroupMembers(hash: string -> nat, owners: set<string>, i: nat, n: nat): set<string> {
    set o <- owners | GroupOf(hash, o, n) == i
  }

  // The pool as it is divided among N workers overfills a mailbox by N - 1: one mail for each group,
  // all addressed to the same mailbox.
  lemma PoolOverfills(c: Config, s: State, hash: string -> nat, owners: set<string>, ws: seq<string>, mids: seq<string>,
                      target: string, accounts: Option<set<string>>, es: seq<Event>, leases: seq<string>)
    returns (run: seq<Action>)
    requires Starts(s) && Quota.NonePending(s.db) && s.MailboxSize(target) == c.maxInbox - 1
    requires Quota.AllAbout(c, s, ws, mids) && Quota.Arriving(s, ws, accounts, es, leases)
    requires forall i :: 0 <= i < |ws| ==>
      var owner := FirstOwner(es[i].tags);
      owner in owners && GroupOf(hash, owner, |ws|) == i && c.messageId(owner, es[i]) == Some(mids[i])
    ensures Valid(c, s, run) && Exec(c, s, run).MailboxSize(target) == c.maxInbox + |ws| - 1
  {
    hide Starts, Quota.NonePending, Quota.AllAbout, GroupOf, Exec, Valid;
    var gs := seq(|ws|, i requires 0 <= i < |ws| => GroupMembers(hash, owners, i, |ws|));
    assert Quota.Claimable(s, ws, accounts, es, gs, leases);
    run := Quota.QuotaBoundIsReached(c, s, ws, mids, target, accounts, es, gs, leases);
  }
}
