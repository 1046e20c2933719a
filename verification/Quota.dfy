// The mailbox quota is checked in one transaction and used in another.
module Quota {
  import opened Wrappers
  import opened Events
  import opened MailQueue
  import opened Protocol
  import opened Fencing

  // Workers that passed the check for this mailbox and have not inserted yet.
  function Passing(s: State, owner: string): set<string> {
    set w <- s.procs | s.procs[w].Inserting? && s.procs[w].target == owner
  }

  predicate WithinRace(c: Config, s: State, owner: string) {
    |s.procs| > 0 && s.MailboxSize(owner) + |Passing(s, owner)| <= c.maxInbox + |s.procs| - 1
  }

  lemma PassingFewer(s: State, owner: string, w: string)
    requires w in s.procs && w !in Passing(s, owner)
    ensures |Passing(s, owner)| <= |s.procs| - 1
  {
    var others := s.procs.Keys - {w};
    SubsetSmaller(Passing(s, owner), others);
    assert |others| == |s.procs.Keys| - 1;
  }

  lemma SubsetSmaller<T>(a: set<T>, b: set<T>)
    requires a <= b
    ensures |a| <= |b|
  {
    assert b == a + (b - a);
  }

  lemma PassEffect(c: Config, s: State, a: Action, owner: string)
    requires Enabled(c, s, a) && a.QuotaPass? && a.target == owner
    ensures Passing(Step(c, s, a), owner) == Passing(s, owner) + {a.w} && a.w !in Passing(s, owner)
  {
  }

  lemma InsertEffect(c: Config, s: State, a: Action, owner: string)
    requires Enabled(c, s, a) && a.Insert?
    ensures var t, p := Step(c, s, a), s.procs[a.w];
      && Passing(t, owner) == Passing(s, owner) - {a.w}
      && (p.target == owner ==> a.w in Passing(s, owner))
      && t.Mailbox(owner)
         == if p.mid !in s.inbox && p.target == owner then s.Mailbox(owner) + {p.mid} else s.Mailbox(owner)
  {
    var t, p := Step(c, s, a), s.procs[a.w];
    assert t.procs.Keys == s.procs.Keys;
    assert t.inbox == if p.mid in s.inbox then s.inbox else s.inbox[p.mid := p.target];
  }

  lemma OtherEffect(c: Config, s: State, a: Action, owner: string)
    requires Enabled(c, s, a) && !a.Insert? && !(a.QuotaPass? && a.target == owner)
    ensures Passing(Step(c, s, a), owner) <= Passing(s, owner)
    ensures Step(c, s, a).Mailbox(owner) <= s.Mailbox(owner)
  {
  }

  lemma RaceStep(c: Config, s: State, a: Action, owner: string)
    requires Enabled(c, s, a) && WithinRace(c, s, owner)
    ensures WithinRace(c, Step(c, s, a), owner) && Step(c, s, a).procs.Keys == s.procs.Keys
  {
    var t := Step(c, s, a);
    SameWorkers(c, s, a);
    if a.QuotaPass? && a.target == owner {
      PassEffect(c, s, a, owner);
      PassingFewer(s, owner, a.w);
    } else if a.Insert? {
      InsertEffect(c, s, a, owner);
      assert |s.procs.Keys| == |t.procs.Keys|;
    } else {
      OtherEffect(c, s, a, owner);
      SubsetSmaller(Passing(t, owner), Passing(s, owner));
      SubsetSmaller(t.Mailbox(owner), s.Mailbox(owner));
    }
  }

  lemma SameWorkers(c: Config, s: State, a: Action)
    requires Enabled(c, s, a)
    ensures Step(c, s, a).procs.Keys == s.procs.Keys && |Step(c, s, a).procs| == |s.procs|
  {
    assert |Step(c, s, a).procs.Keys| == |s.procs.Keys|;
  }

  lemma {:induction false} ReachableWithinRace(c: Config, s: State, run: seq<Action>, owner: string)
    requires Valid(c, s, run) && WithinRace(c, s, owner)
    ensures WithinRace(c, Exec(c, s, run), owner) && Exec(c, s, run).procs.Keys == s.procs.Keys
    decreases |run|
  {
    if run != [] {
      RaceStep(c, s, run[0], owner);
      ReachableWithinRace(c, Step(c, s, run[0]), run[1..], owner);
    }
  }

  // N workers sharing one quota overfill a mailbox by at most N - 1 rows.
  lemma QuotaBound(c: Config, s: State, run: seq<Action>, owner: string)
    requires Starts(s) && s.procs != map[] && s.MailboxSize(owner) <= c.maxInbox && Valid(c, s, run)
    ensures Exec(c, s, run).MailboxSize(owner) <= c.maxInbox + |s.procs| - 1
  {
    assert Passing(s, owner) == {};
    var w :| w in s.procs;
    assert s.procs.Keys != {};
    ReachableWithinRace(c, s, run, owner);
    assert |Exec(c, s, run).procs.Keys| == |s.procs.Keys|;
  }

  // ---- the bound is reached ------------------------------------------------------------------

  predicate AllAbout(c: Config, s: State, ws: seq<string>, mids: seq<string>) {
    && |ws| == |mids|
    && (forall i :: 0 <= i < |ws| ==> ws[i] in s.procs && mids[i] !in s.inbox)
    && (forall i, j :: 0 <= i < j < |ws| ==> ws[i] != ws[j] && mids[i] != mids[j])
  }

  predicate CanPass(c: Config, p: Proc, mid: string) {
    p.Trying? && p.todo != [] && c.messageId(p.todo[0], p.job.payload) == Some(mid)
  }

  lemma OnePasses(c: Config, s: State, w: string, mid: string, owner: string)
    requires w in s.procs && CanPass(c, s.procs[w], mid) && s.MailboxSize(owner) < c.maxInbox
    ensures var a := QuotaPass(w, mid, owner);
      var p := s.procs[w];
      Enabled(c, s, a) && Step(c, s, a) == s.(procs := s.procs[w := Inserting(p.job, p.todo[1..], mid, owner)])
  {
  }

  lemma {:induction false} AllPass(c: Config, s: State, ws: seq<string>, mids: seq<string>, owner: string)
    returns (run: seq<Action>)
    requires AllAbout(c, s, ws, mids) && s.MailboxSize(owner) < c.maxInbox
    requires forall i :: 0 <= i < |ws| ==> CanPass(c, s.procs[ws[i]], mids[i])
    ensures Valid(c, s, run)
    ensures var t := Exec(c, s, run);
      && t.inbox == s.inbox && t.procs.Keys == s.procs.Keys
      && (forall w <- s.procs :: w !in ws ==> t.procs[w] == s.procs[w])
      && forall i :: 0 <= i < |ws| ==>
           t.procs[ws[i]].Inserting? && t.procs[ws[i]].target == owner && t.procs[ws[i]].mid == mids[i]
    decreases |ws|
  {
    if ws == [] {
      return [];
    }
    var a := QuotaPass(ws[0], mids[0], owner);
    var t := Step(c, s, a);
    OnePasses(c, s, ws[0], mids[0], owner);
    hide Step, Enabled;
    var rest := AllPass(c, t, ws[1..], mids[1..], owner);
    run := [a] + rest;
    assert run[1..] == rest;
    assert ws[0] !in ws[1..];
  }

  lemma {:induction false} AllInsert(c: Config, s: State, ws: seq<string>, mids: seq<string>, owner: string)
    returns (run: seq<Action>)
    requires AllAbout(c, s, ws, mids)
    requires forall i :: 0 <= i < |ws| ==>
      s.procs[ws[i]].Inserting? && s.procs[ws[i]].target == owner && s.procs[ws[i]].mid == mids[i]
    ensures Valid(c, s, run) && Exec(c, s, run).MailboxSize(owner) == s.MailboxSize(owner) + |ws|
    decreases |ws|
  {
    if ws == [] {
      return [];
    }
    var a := Insert(ws[0]);
    var t := Step(c, s, a);
    InsertEffect(c, s, a, owner);
    var rest := AllInsert(c, t, ws[1..], mids[1..], owner);
    run := [a] + rest;
    assert run[1..] == rest;
  }

  // When all workers hold different mails for a mailbox with one free place, some interleaving stores
  // every one of these mails.
  lemma RaceFillsUp(c: Config, s: State, ws: seq<string>, mids: seq<string>, owner: string) returns (run: seq<Action>)
    requires AllAbout(c, s, ws, mids) && s.MailboxSize(owner) == c.maxInbox - 1
    requires forall i :: 0 <= i < |ws| ==> CanPass(c, s.procs[ws[i]], mids[i])
    ensures Valid(c, s, run) && Exec(c, s, run).MailboxSize(owner) == c.maxInbox + |ws| - 1
  {
    var pass := AllPass(c, s, ws, mids, owner);
    var t := Exec(c, s, pass);
    var insert := AllInsert(c, t, ws, mids, owner);
    RunsConcat(c, s, pass, insert);
    run := pass + insert;
    assert t.MailboxSize(owner) == s.MailboxSize(owner);
  }

  // ---- from the queue into the race ------------------------------------------------------------

  predicate NonePending(db: Db) {
    forall id <- db.rows :: db.rows[id].status != Pending
  }

  // The event is queued, and the worker of its owner's group claims it for the owner's own bridge.
  function ClaimRun(s: State, w: string, accounts: Option<set<string>>, e: Event, g: set<string>, lease: string)
    : seq<Action>
  {
    [Enqueue(e, accounts, s.Wall()), Select(w, Some(g), s.db.nextId), Take(w, lease, [FirstOwner(e.tags)])]
  }

  function Claimer(s: State, w: string, accounts: Option<set<string>>, e: Event, lease: string): State {
    var rid := s.db.nextId;
    s.(db := Taken(Enqueued(s.db, accounts, e, s.Wall(), s.Wall()), rid, w, lease, s.Wall()),
       procs := s.procs[w := Trying(Job(rid, lease, s.Wall(), e), [FirstOwner(e.tags)], false)],
       issued := s.issued[lease := Grant(rid, s.Wall())])
  }

  // The states between the three actions.
  function Queued(s: State, accounts: Option<set<string>>, e: Event): State {
    s.(db := Enqueued(s.db, accounts, e, s.Wall(), s.Wall()))
  }

  function Chosen(s: State, w: string, accounts: Option<set<string>>, e: Event): State {
    Queued(s, accounts, e).(procs := s.procs[w := Selected(s.db.nextId)])
  }

  lemma ClaimEnqueues(c: Config, s: State, w: string, accounts: Option<set<string>>, e: Event,
                      g: set<string>, lease: string)
    ensures var a := ClaimRun(s, w, accounts, e, g, lease)[0];
      Enabled(c, s, a) && Step(c, s, a) == Queued(s, accounts, e)
  {
    hide Enqueued;
  }

  lemma ClaimSelects(c: Config, s: State, w: string, accounts: Option<set<string>>, e: Event,
                     g: set<string>, lease: string)
    requires w in s.procs && s.procs[w].Idle? && s.db.IdsBelowNext() && NonePending(s.db)
    requires Admits(s.db, accounts, e) && FirstOwner(e.tags) in g && lease != "" && lease !in s.issued
    ensures var a := ClaimRun(s, w, accounts, e, g, lease)[1];
      Enabled(c, Queued(s, accounts, e), a) && Step(c, Queued(s, accounts, e), a) == Chosen(s, w, accounts, e)
  {
    hide Admits;
    var t := Queued(s, accounts, e);
    assert forall other <- t.db.rows :: Matches(t.db.rows[other], Some(g)) ==> other == s.db.nextId;
  }

  lemma ClaimTakes(c: Config, s: State, w: string, accounts: Option<set<string>>, e: Event,
                   g: set<string>, lease: string)
    requires w in s.procs && s.procs[w].Idle? && s.db.IdsBelowNext() && NonePending(s.db)
    requires Admits(s.db, accounts, e) && FirstOwner(e.tags) in g && lease != "" && lease !in s.issued
    ensures var a := ClaimRun(s, w, accounts, e, g, lease)[2];
      var t := Chosen(s, w, accounts, e);
      Enabled(c, t, a) && Step(c, t, a) == Claimer(s, w, accounts, e, lease)
  {
    hide Admits;
    var rid := s.db.nextId;
    assert Queued(s, accounts, e).db.rows[rid] == FreshRow(e, s.Wall());
    var p := Trying(Job(rid, lease, s.Wall(), e), [FirstOwner(e.tags)], false);
    assert s.procs[w := Selected(rid)][w := p] == s.procs[w := p];
  }

  lemma OneClaims(c: Config, s: State, w: string, accounts: Option<set<string>>, e: Event,
                  g: set<string>, lease: string)
    requires w in s.procs && s.procs[w].Idle? && s.db.IdsBelowNext() && NonePending(s.db)
    requires Admits(s.db, accounts, e) && FirstOwner(e.tags) in g && lease != "" && lease !in s.issued
    ensures var run := ClaimRun(s, w, accounts, e, g, lease);
      Valid(c, s, run) && Exec(c, s, run) == Claimer(s, w, accounts, e, lease)
  {
    var run := ClaimRun(s, w, accounts, e, g, lease);
    ClaimEnqueues(c, s, w, accounts, e, g, lease);
    ClaimSelects(c, s, w, accounts, e, g, lease);
    ClaimTakes(c, s, w, accounts, e, g, lease);
    hide Step, Enabled, Claimer, Queued, Chosen, Admits;
    assert run[1..] == [run[1], run[2]] && run[1..][1..] == [run[2]] && run[1..][1..][1..] == [];
    var s1 := Queued(s, accounts, e);
    var s2 := Chosen(s, w, accounts, e);
    assert Valid(c, Step(c, s2, run[2]), []);
    assert Valid(c, s2, [run[2]]) && Exec(c, s2, [run[2]]) == Step(c, s2, run[2]);
    assert Valid(c, s1, run[1..]) && Exec(c, s1, run[1..]) == Step(c, s2, run[2]);
  }

  // Another worker can claim another event afterwards just as well.
  lemma ClaimerKeeps(s: State, w: string, accounts: Option<set<string>>, e: Event, lease: string, other: Event)
    requires s.db.IdsBelowNext() && NonePending(s.db) && Admits(s.db, accounts, e)
    requires Admits(s.db, accounts, other) && (other.id == "" || other.id != e.id)
    ensures Admits(Claimer(s, w, accounts, e, lease).db, accounts, other)
  {
  }

  lemma ClaimerClean(s: State, w: string, accounts: Option<set<string>>, e: Event, lease: string)
    requires s.db.IdsBelowNext() && NonePending(s.db) && Admits(s.db, accounts, e)
    ensures var t := Claimer(s, w, accounts, e, lease); t.db.IdsBelowNext() && NonePending(t.db)
  {
    hide Admits;
  }

  // Each event has its owner in the group of one worker.
  predicate Claimable(s: State, ws: seq<string>, accounts: Option<set<string>>, es: seq<Event>, gs: seq<set<string>>,
                      leases: seq<string>)
  {
    && Arriving(s, ws, accounts, es, leases) && |gs| == |ws|
    && forall i :: 0 <= i < |ws| ==> FirstOwner(es[i].tags) in gs[i]
  }

  // Different events the queue would admit and different leases, as many as idle workers.
  predicate Arriving(s: State, ws: seq<string>, accounts: Option<set<string>>, es: seq<Event>, leases: seq<string>) {
    && |es| == |ws| && |leases| == |ws|
    && (forall i :: 0 <= i < |ws| ==> ws[i] in s.procs && s.procs[ws[i]].Idle?)
    && (forall i, j :: 0 <= i < j < |ws| ==> ws[i] != ws[j] && leases[i] != leases[j])
    && (forall i :: 0 <= i < |ws| ==> Admits(s.db, accounts, es[i]) && leases[i] != "" && leases[i] !in s.issued)
    && (forall i, j :: 0 <= i < j < |ws| ==> es[j].id == "" || es[i].id != es[j].id)
  }

  lemma ClaimableNext(s: State, ws: seq<string>, accounts: Option<set<string>>, es: seq<Event>, gs: seq<set<string>>,
                      leases: seq<string>)
    requires ws != [] && s.db.IdsBelowNext() && NonePending(s.db) && Claimable(s, ws, accounts, es, gs, leases)
    ensures var t := Claimer(s, ws[0], accounts, es[0], leases[0]);
      Claimable(t, ws[1..], accounts, es[1..], gs[1..], leases[1..])
  {
    hide Admits;
    var t := Claimer(s, ws[0], accounts, es[0], leases[0]);
    forall i | 1 <= i < |ws| ensures Admits(t.db, accounts, es[i]) {
      ClaimerKeeps(s, ws[0], accounts, es[0], leases[0], es[i]);
    }
    forall i | 1 <= i < |ws| ensures ws[i] != ws[0] && leases[i] != leases[0] {
      assert ws[0] != ws[i] && leases[0] != leases[i];
    }
  }

  lemma {:induction false} AllClaim(c: Config, s: State, ws: seq<string>, accounts: Option<set<string>>, es: seq<Event>,
                                    gs: seq<set<string>>, leases: seq<string>) returns (run: seq<Action>)
    requires s.db.IdsBelowNext() && NonePending(s.db) && Claimable(s, ws, accounts, es, gs, leases)
    ensures Valid(c, s, run)
    ensures var t := Exec(c, s, run);
      && t.inbox == s.inbox && t.procs.Keys == s.procs.Keys
      && (forall w <- s.procs :: w !in ws ==> t.procs[w] == s.procs[w])
      && forall i :: 0 <= i < |ws| ==>
           var p := t.procs[ws[i]]; p.Trying? && p.todo == [FirstOwner(es[i].tags)] && p.job.payload == es[i]
    decreases |ws|
  {
    if ws == [] {
      return [];
    }
    var first := ClaimRun(s, ws[0], accounts, es[0], gs[0], leases[0]);
    var t := Claimer(s, ws[0], accounts, es[0], leases[0]);
    OneClaims(c, s, ws[0], accounts, es[0], gs[0], leases[0]);
    ClaimerClean(s, ws[0], accounts, es[0], leases[0]);
    ClaimableNext(s, ws, accounts, es, gs, leases);
    assert ws[0] !in ws[1..];
    hide ClaimRun, Taken, Enqueued, Step, Enabled, NonePending, Admits;
    var rest := AllClaim(c, t, ws[1..], accounts, es[1..], gs[1..], leases[1..]);
    RunsConcat(c, s, first, rest);
    run := first + rest;
  }

  // The bound is tight for every number of workers: from every start with one free place in a mailbox
  // and an empty queue, N different mails for that mailbox, which arrive for owners in the groups of N
  // idle workers, are all stored in some interleaving.
  lemma QuotaBoundIsReached(c: Config, s: State, ws: seq<string>, mids: seq<string>, owner: string,
                            accounts: Option<set<string>>, es: seq<Event>, gs: seq<set<string>>, leases: seq<string>)
    returns (run: seq<Action>)
    requires Starts(s) && NonePending(s.db) && s.MailboxSize(owner) == c.maxInbox - 1
    requires AllAbout(c, s, ws, mids) && Claimable(s, ws, accounts, es, gs, leases)
    requires forall i :: 0 <= i < |ws| ==> c.messageId(FirstOwner(es[i].tags), es[i]) == Some(mids[i])
    ensures Valid(c, s, run) && Exec(c, s, run).MailboxSize(owner) == c.maxInbox + |ws| - 1
  {
    StartIsSafe(s);
    hide Starts, NonePending, Step, Enabled, Admits;
    var claim := AllClaim(c, s, ws, accounts, es, gs, leases);
    var t := Exec(c, s, claim);
    assert t.MailboxSize(owner) == s.MailboxSize(owner);
    var race := RaceFillsUp(c, t, ws, mids, owner);
    RunsConcat(c, s, claim, race);
    run := claim + race;
  }
}
