// What a failed row says of its mail: refused, stored already, or given up on.
module Failures {
  import opened Wrappers
  import opened Events
  import opened MailQueue
  import opened Protocol
  import opened Conservation

  // ---- failed before the last attempt ------------------------------------------------------------

  // The bridge tried last, if any is, reads this Message-ID in the event.
  predicate EndsInReader(c: Config, e: Event, bridges: seq<string>, mid: string) {
    bridges == [] || c.messageId(bridges[|bridges| - 1], e) == Some(mid)
  }

  predicate TakenByReader(c: Config, s: State, a: Action, rid: nat, mid: string) {
    TakeWins(s, a) && s.procs[a.w].rid == rid ==> EndsInReader(c, s.db.rows[rid].payload, a.bridges, mid)
  }

  // So it is in every claim of the row.
  predicate TriedByReaders(c: Config, s: State, run: seq<Action>, rid: nat, mid: string)
    requires Valid(c, s, run)
    decreases |run|
  {
    run == [] || (TakenByReader(c, s, run[0], rid, mid) && TriedByReaders(c, Step(c, s, run[0]), run[1..], rid, mid))
  }

  // A worker on this row with no bridge left has nothing permanent to report, unless the mail is stored.
  predicate ProcReports(c: Config, s: State, p: Proc, rid: nat, mid: string) {
    p.HasJob() && p.job.rid == rid ==>
      && (p.Trying? ==> EndsInReader(c, p.job.payload, p.todo, mid)
                        && (p.todo == [] && p.permanent ==> mid in s.inbox))
      && (p.Inserting? ==> EndsInReader(c, p.job.payload, p.todo, mid) && (p.todo == [] ==> p.mid == mid))
  }

  predicate FailedEarly(s: State, rid: nat) {
    rid in s.db.rows && s.db.rows[rid].status == Failed && s.db.rows[rid].attempts < 3
  }

  predicate AllReport(c: Config, s: State, rid: nat, mid: string) {
    && (forall w <- s.procs :: ProcReports(c, s, s.procs[w], rid, mid))
    && (FailedEarly(s, rid) ==> mid in s.inbox)
  }

  lemma ProcReportsStep(c: Config, s: State, a: Action, w: string, rid: nat, mid: string)
    requires Enabled(c, s, a) && a != Delete(mid) && w in s.procs && ProcReports(c, s, s.procs[w], rid, mid)
    requires mid != "" && TakenByReader(c, s, a, rid, mid)
    ensures ProcReports(c, Step(c, s, a), Step(c, s, a).procs[w], rid, mid)
  {
    hide DbAfter, SweepAfter, IssuedAfter, DeliveredAfter;
  }

  lemma FailedStep(c: Config, s: State, a: Action, rid: nat, mid: string)
    requires Enabled(c, s, a) && a != Delete(mid) && AllReport(c, s, rid, mid)
    ensures FailedEarly(Step(c, s, a), rid) ==> mid in Step(c, s, a).inbox
  {
    hide ProcsAfter, SweepAfter, IssuedAfter, DeliveredAfter, Clipped, Admits;
    if a.Finish? {
      assert ProcReports(c, s, s.procs[a.w], rid, mid);
    }
  }

  lemma {:induction false} ReachableReports(c: Config, s: State, run: seq<Action>, rid: nat, mid: string)
    requires Valid(c, s, run) && AllReport(c, s, rid, mid) && mid != ""
    requires Count(c, s, run, MailDeleted(mid)) == 0 && TriedByReaders(c, s, run, rid, mid)
    ensures AllReport(c, Exec(c, s, run), rid, mid)
    decreases |run|
  {
    if run != [] {
      var a, t := run[0], Step(c, s, run[0]);
      forall w | w in t.procs ensures ProcReports(c, t, t.procs[w], rid, mid) {
        assert w in s.procs;
        ProcReportsStep(c, s, a, w, rid, mid);
      }
      FailedStep(c, s, a, rid, mid);
      ReachableReports(c, t, run[1..], rid, mid);
    }
  }

  // A job whose last bridge can always read the mail fails before its third attempt only if the mail is
  // stored: no other refusal of a readable mail is for good.
  lemma FailedEarlyIsStored(c: Config, s: State, run: seq<Action>, rid: nat, mid: string)
    requires Starts(s) && Valid(c, s, run) && Count(c, s, run, MailDeleted(mid)) == 0 && mid != ""
    requires TriedByReaders(c, s, run, rid, mid) && !FailedEarly(s, rid) && FailedEarly(Exec(c, s, run), rid)
    ensures mid in Exec(c, s, run).inbox
  {
    ReachableReports(c, s, run, rid, mid);
  }

  // ---- stored, and failed all the same -------------------------------------------------------------

  // The group's worker claims its next job for one bridge.
  lemma Claims(c: Config, s: State, w: string, g: set<string>, rid: nat, lease: string, bridges: seq<string>)
    returns (run: seq<Action>)
    requires NextInLine(s, w, g, rid) && lease != "" && lease !in s.issued
    ensures Valid(c, s, run) && Exec(c, s, run) == HeldBy(s, w, rid, lease, bridges)
  {
    var a := Select(w, Some(g), rid);
    var s1 := s.(procs := s.procs[w := Selected(rid)]);
    run := [];
    assert Enabled(c, s, a) && Step(c, s, a) == s1;
    OneMore(c, s, run, a);
    run := run + [a];
    TakeStep(c, s, w, g, rid, lease, bridges);
    OneMore(c, s, run, Take(w, lease, bridges));
    run := run + [Take(w, lease, bridges)];
  }

  function WithMail(s: State, mid: string, target: string): State {
    s.(inbox := s.inbox[mid := target])
  }

  lemma MailAdded(s: State, mid: string, target: string)
    requires mid !in s.inbox
    ensures WithMail(s, mid, target).MailboxSize(target) == s.MailboxSize(target) + 1
  {
    assert WithMail(s, mid, target).Mailbox(target) == s.Mailbox(target) + {mid};
  }

  predicate ReadsAs(c: Config, s: State, rid: nat, b: string, mid: string) {
    rid in s.db.rows && c.messageId(b, s.db.rows[rid].payload) == Some(mid)
  }

  function Holding(s: State, w: string, rid: nat, lease: string, b: string, mid: string, target: string): State
    requires rid in s.db.rows
  {
    var t := HeldBy(s, w, rid, lease, [b]);
    WithMail(t.(procs := s.procs[w := Accepted(Job(rid, lease, s.Wall(), s.db.rows[rid].payload), mid)]), mid, target)
  }

  lemma StoresMail(c: Config, s: State, w: string, g: set<string>, rid: nat, lease: string, b: string, mid: string,
                   target: string)
    returns (run: seq<Action>)
    requires NextInLine(s, w, g, rid) && lease != "" && lease !in s.issued && ReadsAs(c, s, rid, b, mid)
    requires mid !in s.inbox && s.MailboxSize(target) < c.maxInbox
    ensures Valid(c, s, run) && Exec(c, s, run) == Holding(s, w, rid, lease, b, mid, target)
  {
    run := Claims(c, s, w, g, rid, lease, [b]);
    var s1 := HeldBy(s, w, rid, lease, [b]);
    var job := s1.procs[w].job;
    var s2 := s1.(procs := s1.procs[w := Inserting(job, [], mid, target)]);
    Passes(c, s1, w, b, mid, target);
    OneMore(c, s, run, QuotaPass(w, mid, target));
    run := run + [QuotaPass(w, mid, target)];
    Lands(c, s1, w, job, mid, target);
    OneMore(c, s, run, Insert(w));
    run := run + [Insert(w)];
    assert s1.procs[w := Accepted(job, mid)] == s.procs[w := Accepted(job, mid)];
  }

  lemma DiesHolding(c: Config, s: State, w: string, rid: nat, lease: string, b: string, mid: string, target: string)
    requires rid in s.db.rows && w in s.procs
    ensures var t := Holding(s, w, rid, lease, b, mid, target);
      Enabled(c, t, Crash(w)) && Step(c, t, Crash(w)) == WithMail(Orphaned(s, w, rid, lease), mid, target)
  {
    var job := Job(rid, lease, s.Wall(), s.db.rows[rid].payload);
    assert s.procs[w := Accepted(job, mid)][w := Idle] == s.procs[w := Idle];
  }

  lemma ReclaimsOrphan(c: Config, s: State, w: string, rid: nat, lease: string, mid: string, target: string)
    requires rid in s.db.rows && s.sweep.None?
    ensures var t := WithMail(Orphaned(s, w, rid, lease), mid, target);
      var u := t.(now := Later(s));
      && Enabled(c, t, Tick(Later(s))) && Step(c, t, Tick(Later(s))) == u
      && Enabled(c, u, Reclaim) && Step(c, u, Reclaim) == WithMail(AfterRound(s, w, rid, lease), mid, target)
  {
    hide Reclaimed, Taken;
  }

  // The worker stores the mail and dies before it reports; the row is reclaimed.
  lemma StoresAndDies(c: Config, s: State, w: string, g: set<string>, rid: nat, lease: string, b: string, mid: string,
                      target: string)
    returns (run: seq<Action>)
    requires NextInLine(s, w, g, rid) && lease != "" && lease !in s.issued && ReadsAs(c, s, rid, b, mid)
    requires mid !in s.inbox && s.MailboxSize(target) < c.maxInbox
    ensures Valid(c, s, run) && Exec(c, s, run) == WithMail(AfterRound(s, w, rid, lease), mid, target)
  {
    hide Step, Enabled, Holding, Orphaned, AfterRound;
    run := StoresMail(c, s, w, g, rid, lease, b, mid, target);
    DiesHolding(c, s, w, rid, lease, b, mid, target);
    ReclaimsOrphan(c, s, w, rid, lease, mid, target);
    OneMore(c, s, run, Crash(w));
    run := run + [Crash(w)];
    OneMore(c, s, run, Tick(Later(s)));
    run := run + [Tick(Later(s))];
    OneMore(c, s, run, Reclaim);
    run := run + [Reclaim];
  }

  lemma Passes(c: Config, s: State, w: string, b: string, mid: string, target: string)
    requires w in s.procs && s.procs[w].Trying? && s.procs[w].todo == [b]
    requires c.messageId(b, s.procs[w].job.payload) == Some(mid) && s.MailboxSize(target) < c.maxInbox
    ensures Enabled(c, s, QuotaPass(w, mid, target))
    ensures Step(c, s, QuotaPass(w, mid, target))
            == s.(procs := s.procs[w := Inserting(s.procs[w].job, [], mid, target)])
  {
    assert [b][1..] == [];
  }

  lemma Lands(c: Config, s: State, w: string, job: Job, mid: string, target: string)
    requires w in s.procs
    ensures var t := s.(procs := s.procs[w := Inserting(job, [], mid, target)]);
      && Enabled(c, t, Insert(w))
      && Step(c, t, Insert(w)) ==
         if mid in s.inbox then s.(procs := s.procs[w := Trying(job, [], true)])
         else WithMail(s.(procs := s.procs[w := Accepted(job, mid)]), mid, target)
  {
    var t := s.(procs := s.procs[w := Inserting(job, [], mid, target)]);
    assert t.procs[w := Trying(job, [], true)] == s.procs[w := Trying(job, [], true)];
    assert t.procs[w := Accepted(job, mid)] == s.procs[w := Accepted(job, mid)];
  }

  // A row whose mail is stored already is failed at its first attempt.
  lemma RefusedAsDuplicate(c: Config, s: State, w: string, g: set<string>, rid: nat, lease: string, b: string,
                           mid: string, target: string, error: string)
    returns (run: seq<Action>)
    requires NextInLine(s, w, g, rid) && lease != "" && lease !in s.issued && ReadsAs(c, s, rid, b, mid)
    requires mid in s.inbox && s.MailboxSize(target) < c.maxInbox
    ensures Valid(c, s, run)
    ensures var t := Exec(c, s, run);
      && t.inbox == s.inbox && t.delivered == s.delivered && rid in t.db.rows
      && t.db.rows[rid].status == Failed && t.db.rows[rid].attempts == s.db.rows[rid].attempts + 1
  {
    run := Claims(c, s, w, g, rid, lease, [b]);
    var s1 := HeldBy(s, w, rid, lease, [b]);
    var job := s1.procs[w].job;
    Passes(c, s1, w, b, mid, target);
    OneMore(c, s, run, QuotaPass(w, mid, target));
    run := run + [QuotaPass(w, mid, target)];
    Lands(c, s1, w, job, mid, target);
    OneMore(c, s, run, Insert(w));
    run := run + [Insert(w)];
    var s3 := s1.(procs := s1.procs[w := Trying(job, [], true)]);
    FailsForGood(c, s3, w, error);
    OneMore(c, s, run, Finish(w, error));
    run := run + [Finish(w, error)];
  }

  lemma FailsForGood(c: Config, s: State, w: string, error: string)
    requires w in s.procs && s.procs[w].Trying? && s.procs[w].todo == [] && s.procs[w].permanent
    requires Holds(s.db, s.procs[w].job.rid, s.procs[w].job.lease)
    ensures Enabled(c, s, Finish(w, error))
    ensures var t, rid := Step(c, s, Finish(w, error)), s.procs[w].job.rid;
      && t.inbox == s.inbox && t.delivered == s.delivered && rid in t.db.rows
      && t.db.rows[rid].status == Failed && t.db.rows[rid].attempts == s.db.rows[rid].attempts + 1
  {
    hide Clipped;
  }

  // A worker that dies between storing a mail and reporting it leaves a row that ends failed, at its
  // first attempt, although the mail is in the inbox.
  lemma StoredButFailed(c: Config, s: State, w: string, g: set<string>, rid: nat, lease: string, again: string,
                        b: string, mid: string, target: string, error: string)
    returns (run: seq<Action>)
    requires NextInLine(s, w, g, rid) && ReadsAs(c, s, rid, b, mid)
    requires lease != "" && lease !in s.issued && again != "" && again !in s.issued && lease != again
    requires mid !in s.inbox && s.MailboxSize(target) + 1 < c.maxInbox
    ensures Valid(c, s, run)
    ensures var t := Exec(c, s, run);
      && t.inbox == s.inbox[mid := target] && t.delivered == s.delivered && rid in t.db.rows
      && t.db.rows[rid].status == Failed && t.db.rows[rid].attempts == s.db.rows[rid].attempts + 1
  {
    hide Step, Enabled;
    var first := StoresAndDies(c, s, w, g, rid, lease, b, mid, target);
    var t := Exec(c, s, first);
    RoundEndsPending(s, w, g, rid, lease);
    MailAdded(s, mid, target);
    assert t.Mailbox(target) == WithMail(s, mid, target).Mailbox(target);
    var second := RefusedAsDuplicate(c, t, w, g, rid, again, b, mid, target, error);
    RunsConcat(c, s, first, second);
    run := first + second;
  }

  // ---- failed for good, and not stored ---------------------------------------------------------------

  lemma FullThenRefused(c: Config, s: State, w: string, reader: string, other: string, target: string)
    requires w in s.procs && s.procs[w].Trying? && s.procs[w].todo == [reader, other]
    requires c.messageId(other, s.procs[w].job.payload) == None && s.MailboxSize(target) >= c.maxInbox
    ensures var job := s.procs[w].job;
      var t := s.(procs := s.procs[w := Trying(job, [other], false)]);
      var u := s.(procs := s.procs[w := Trying(job, [], true)]);
      && Enabled(c, s, MailboxFull(w, target)) && Step(c, s, MailboxFull(w, target)) == t
      && Enabled(c, t, Refuse(w, true)) && Step(c, t, Refuse(w, true)) == u
  {
    assert [reader, other][1..] == [other] && [other][1..] == [];
    var job := s.procs[w].job;
    assert s.procs[w := Trying(job, [other], false)][w := Trying(job, [], true)] == s.procs[w := Trying(job, [], true)];
  }

  // The hypothesis on the last bridge is needed. A job tried on several bridges is failed for good when
  // the last one cannot read it, even if the one that can found its mailbox full.
  lemma LastBridgeDecides(c: Config, s: State, w: string, g: set<string>, rid: nat, lease: string, reader: string,
                          other: string, mid: string, target: string, error: string)
    returns (run: seq<Action>)
    requires NextInLine(s, w, g, rid) && lease != "" && lease !in s.issued && ReadsAs(c, s, rid, reader, mid)
    requires c.messageId(other, s.db.rows[rid].payload) == None
    requires mid !in s.inbox && s.MailboxSize(target) >= c.maxInbox
    ensures Valid(c, s, run)
    ensures var t := Exec(c, s, run);
      && t.inbox == s.inbox && rid in t.db.rows
      && t.db.rows[rid].status == Failed && t.db.rows[rid].attempts == s.db.rows[rid].attempts + 1
  {
    run := Claims(c, s, w, g, rid, lease, [reader, other]);
    var s1 := HeldBy(s, w, rid, lease, [reader, other]);
    var job := s1.procs[w].job;
    var s3 := s1.(procs := s1.procs[w := Trying(job, [], true)]);
    FullThenRefused(c, s1, w, reader, other, target);
    hide Step, Enabled, HeldBy;
    OneMore(c, s, run, MailboxFull(w, target));
    run := run + [MailboxFull(w, target)];
    OneMore(c, s, run, Refuse(w, true));
    run := run + [Refuse(w, true)];
    FailsForGood(c, s3, w, error);
    OneMore(c, s, run, Finish(w, error));
    run := run + [Finish(w, error)];
  }
}
