// Effectively-once delivery: accepted mails, inbox rows and delivered queue rows agree.
module Delivery {
  import opened Wrappers
  import opened Events
  import opened MailQueue
  import opened Protocol
  import opened Fencing

  function Stored(s: State, mid: string): nat {
    Unit(mid in s.inbox)
  }

  lemma InboxStep(c: Config, s: State, a: Action, mid: string)
    requires Enabled(c, s, a)
    ensures var t := Step(c, s, a);
      && Unit(Occurs(s, a, MailAccepted(mid))) + Stored(s, mid)
         == Unit(Occurs(s, a, MailDeleted(mid))) + Stored(t, mid)
      && (mid in t.deleted <==> mid in s.deleted || Occurs(s, a, MailDeleted(mid)))
  {
  }

  // Acceptances of a Message-ID are matched by its deletions and its presence in the inbox.
  lemma {:induction false} InboxLaw(c: Config, s: State, run: seq<Action>, mid: string)
    requires Valid(c, s, run)
    ensures var t := Exec(c, s, run);
      && Count(c, s, run, MailAccepted(mid)) + Stored(s, mid) == Count(c, s, run, MailDeleted(mid)) + Stored(t, mid)
      && (mid in t.deleted <==> mid in s.deleted || Count(c, s, run, MailDeleted(mid)) > 0)
    decreases |run|
  {
    if run != [] {
      InboxStep(c, s, run[0], mid);
      InboxLaw(c, Step(c, s, run[0]), run[1..], mid);
    }
  }

  // ---- the credit for an accepted mail -------------------------------------------------------

  predicate Known(s: State, mid: string) {
    mid in s.inbox || mid in s.deleted
  }

  // One of the bridges reads this Message-ID in the event, or reads none.
  ghost predicate ReadAs(c: Config, e: Event, mid: string) {
    exists b: string :: c.messageId(b, e) == Some("") || c.messageId(b, e) == Some(mid)
  }

  ghost predicate ProcCredited(c: Config, s: State, p: Proc) {
    && (p.Inserting? ==> ReadAs(c, p.job.payload, p.mid))
    && (p.Accepted? ==> Known(s, p.mid) && ReadAs(c, p.job.payload, p.mid))
  }

  ghost predicate RowCredited(c: Config, s: State, rid: nat)
    requires rid in s.delivered
  {
    && rid in s.db.rows && s.db.rows[rid].status == Done
    && Known(s, s.delivered[rid]) && ReadAs(c, s.db.rows[rid].payload, s.delivered[rid])
  }

  ghost predicate Credited(c: Config, s: State) {
    && (forall w <- s.procs :: ProcCredited(c, s, s.procs[w]))
    && (forall rid <- s.delivered :: RowCredited(c, s, rid))
  }

  // A Message-ID no user removed is claimed by one worker or one delivered row at most.
  predicate Exclusive(s: State) {
    && (forall v, w | v in s.procs && w in s.procs && v != w && s.procs[v].Accepted? && s.procs[w].Accepted? ::
          s.procs[v].mid == s.procs[w].mid ==> s.procs[v].mid in s.deleted)
    && (forall w, rid | w in s.procs && rid in s.delivered && s.procs[w].Accepted? ::
          s.procs[w].mid == s.delivered[rid] ==> s.delivered[rid] in s.deleted)
    && (forall q, r | q in s.delivered && r in s.delivered && q != r ::
          s.delivered[q] == s.delivered[r] ==> s.delivered[q] in s.deleted)
  }

  lemma StartIsCredited(c: Config, s: State)
    requires Starts(s)
    ensures Credited(c, s) && Exclusive(s)
  {
  }

  lemma ProcsCreditedStep(c: Config, s: State, a: Action, w: string)
    requires Credited(c, s) && Enabled(c, s, a) && w in Step(c, s, a).procs
    ensures ProcCredited(c, Step(c, s, a), Step(c, s, a).procs[w])
  {
    assert w in s.procs && ProcCredited(c, s, s.procs[w]);
  }

  lemma RowStaysCredited(c: Config, s: State, a: Action, rid: nat)
    requires Safe(s) && Credited(c, s) && Enabled(c, s, a) && rid in s.delivered
    ensures rid in Step(c, s, a).delivered && RowCredited(c, Step(c, s, a), rid)
  {
    assert RowCredited(c, s, rid);
    SettledStep(c, s, a, rid);
    if a.Finish? {
      assert !Holds(s.db, rid, s.procs[a.w].job.lease);
    }
  }

  lemma NewRowIsCredited(c: Config, s: State, a: Action, rid: nat)
    requires Safe(s) && Credited(c, s) && Enabled(c, s, a) && rid !in s.delivered && rid in Step(c, s, a).delivered
    ensures RowCredited(c, Step(c, s, a), rid)
  {
    assert a.Finish? && s.procs[a.w].Accepted?;
    assert ProcCredited(c, s, s.procs[a.w]) && JobGranted(s.procs[a.w], s.db, s.issued);
  }

  lemma AcceptedBefore(c: Config, s: State, a: Action, w: string)
    requires Enabled(c, s, a) && !a.Insert? && w in Step(c, s, a).procs && Step(c, s, a).procs[w].Accepted?
    ensures w in s.procs && s.procs[w] == Step(c, s, a).procs[w]
  {
  }

  lemma ExclusiveStep(c: Config, s: State, a: Action)
    requires Safe(s) && Credited(c, s) && Exclusive(s) && Enabled(c, s, a)
    ensures Exclusive(Step(c, s, a))
  {
    if a.Insert? {
      ExclusiveInsert(c, s, a);
    } else if a.Finish? {
      ExclusiveFinish(c, s, a);
    } else {
      var t := Step(c, s, a);
      assert t.delivered == s.delivered && s.deleted <= t.deleted;
      forall w | w in t.procs && t.procs[w].Accepted? ensures w in s.procs && s.procs[w] == t.procs[w] {
        AcceptedBefore(c, s, a, w);
      }
    }
  }

  lemma ExclusiveInsert(c: Config, s: State, a: Action)
    requires Credited(c, s) && Exclusive(s) && Enabled(c, s, a) && a.Insert?
    ensures Exclusive(Step(c, s, a))
  {
    forall v | v in s.procs && s.procs[v].Accepted? ensures Known(s, s.procs[v].mid) {
      assert ProcCredited(c, s, s.procs[v]);
    }
    forall rid | rid in s.delivered ensures Known(s, s.delivered[rid]) {
      assert RowCredited(c, s, rid);
    }
  }

  lemma ExclusiveFinish(c: Config, s: State, a: Action)
    requires Safe(s) && Credited(c, s) && Exclusive(s) && Enabled(c, s, a) && a.Finish?
    ensures Exclusive(Step(c, s, a))
  {
    var p := s.procs[a.w];
    if p.job.rid in s.delivered {
      assert RowCredited(c, s, p.job.rid);
    }
  }

  lemma {:induction false} ReachableIsExclusive(c: Config, s: State, run: seq<Action>)
    requires Safe(s) && Credited(c, s) && Exclusive(s) && Valid(c, s, run)
    ensures Credited(c, Exec(c, s, run)) && Exclusive(Exec(c, s, run))
    decreases |run|
  {
    if run != [] {
      var t := Step(c, s, run[0]);
      forall w | w in t.procs { ProcsCreditedStep(c, s, run[0], w); }
      forall rid | rid in t.delivered ensures RowCredited(c, t, rid) {
        if rid in s.delivered { RowStaysCredited(c, s, run[0], rid); } else { NewRowIsCredited(c, s, run[0], rid); }
      }
      ExclusiveStep(c, s, run[0]);
      FencedStep(c, s, run[0]);
      OwnedStep(c, s, run[0]);
      ReachableIsExclusive(c, t, run[1..]);
    }
  }

  // ---- delivered rows ------------------------------------------------------------------------

  predicate DoneIn(s: State, rid: nat) {
    rid in s.db.rows && s.db.rows[rid].status == Done
  }

  // Every row done now was done before the run or is credited with the mail it delivered.
  lemma {:induction false} DoneIsCredited(c: Config, s: State, run: seq<Action>, rid: nat)
    requires Valid(c, s, run) && DoneIn(Exec(c, s, run), rid)
    ensures DoneIn(s, rid) || rid in Exec(c, s, run).delivered
    decreases |run|
  {
    if run != [] {
      var t := Step(c, s, run[0]);
      DoneIsCredited(c, t, run[1..], rid);
      if rid in t.delivered {
        DeliveredStays(c, t, run[1..], rid);
      }
    }
  }

  lemma {:induction false} DeliveredStays(c: Config, s: State, run: seq<Action>, rid: nat)
    requires Valid(c, s, run) && rid in s.delivered
    ensures rid in Exec(c, s, run).delivered
    decreases |run|
  {
    if run != [] {
      DeliveredStays(c, Step(c, s, run[0]), run[1..], rid);
    }
  }

  // Every bridge that can read the event reads this Message-ID in it.
  ghost predicate Carries(c: Config, e: Event, mid: string) {
    mid != "" && forall b: string :: c.messageId(b, e).Some? ==> c.messageId(b, e) == Some(mid)
  }

  ghost predicate DeliveredIn(c: Config, s: State, t: State, rid: nat, mid: string) {
    DoneIn(t, rid) && !DoneIn(s, rid) && Carries(c, t.db.rows[rid].payload, mid)
  }

  // Over every interleaving, for a mail no user removes: it is accepted at most once, at most one
  // queue row delivers it, and a row that delivered it has put it in the inbox.
  lemma EffectivelyOnce(c: Config, s: State, run: seq<Action>, mid: string)
    requires Starts(s) && Valid(c, s, run) && Count(c, s, run, MailDeleted(mid)) == 0
    ensures Count(c, s, run, MailAccepted(mid)) <= 1
    ensures Count(c, s, run, MailAccepted(mid)) == 1 <==> mid !in s.inbox && mid in Exec(c, s, run).inbox
    ensures forall rid :: DeliveredIn(c, s, Exec(c, s, run), rid, mid) ==> mid in Exec(c, s, run).inbox
    ensures forall q, r :: DeliveredIn(c, s, Exec(c, s, run), q, mid) && DeliveredIn(c, s, Exec(c, s, run), r, mid)
              ==> q == r
  {
    var t := Exec(c, s, run);
    StartIsSafe(s);
    StartIsCredited(c, s);
    InboxLaw(c, s, run, mid);
    ReachableIsExclusive(c, s, run);
    forall rid | DeliveredIn(c, s, t, rid, mid) ensures rid in t.delivered && t.delivered[rid] == mid {
      DoneIsCredited(c, s, run, rid);
      assert RowCredited(c, t, rid);
    }
  }
}
