// The queue worker: one job at a time, tried on the bridges of its group, settled in the queue.
module Worker {
  import opened Wrappers
  import opened Events
  import opened MailQueue
  import opened MailBridge
  import Digits

  const NO_REASON := "not accepted by any bridge (no reason given)"

  datatype Attempt = Attempt(account: Account, call: Call)

  datatype Verdict = Verdict(ok: bool, reason: string, permanent: bool)

  // An owner's key picks its group by the first byte of its SHA-256, which `hash` gives.
  function GroupOf(hash: string -> nat, pubkey: string, n: nat): (g: nat)
    ensures g < (if n > 1 then n else 1)
  {
    hash(pubkey) % (if n > 1 then n else 1)
  }

  // With fewer workers than byte values the bytes take turns; one worker, or none, has them all.
  lemma GroupIs(hash: string -> nat, pubkey: string, n: nat)
    ensures hash(pubkey) < n ==> GroupOf(hash, pubkey, n) == hash(pubkey)
    ensures n > 1 ==> (hash(pubkey) - GroupOf(hash, pubkey, n)) % n == 0
    ensures n <= 1 ==> GroupOf(hash, pubkey, n) == 0
  {
    if n > 1 {
      ModApart(hash(pubkey), n);
    }
  }

  lemma ModApart(x: nat, n: nat)
    requires n > 0
    ensures (x - x % n) % n == 0
  {
    var q := x / n;
    assert x - x % n == q * n;
    Digits.Quotient(q * n, n, q, 0);
  }

  // An earlier exception, once seen, hides the reasons the bridges give afterwards.
  function FailReason(lastError: string, err: string): string {
    if err != "" then err else lastError
  }

  // Bridge after bridge until one accepts: what is reported, and the inbox afterwards.
  function Tried(env: Env, e: Event, todo: seq<Attempt>, inbox: Inbox, err: string, v: Verdict): (Verdict, Inbox) {
    if todo == [] then (v, inbox)
    else
      var (o, after) := Handled(env, todo[0].account, inbox, e, todo[0].call);
      match o
      case Accepted => (v.(ok := true), after)
      case Refused(error, permanent) =>
        Tried(env, e, todo[1..], after, err, Verdict(false, FailReason(error, err), permanent))
      case Raised(error) => Tried(env, e, todo[1..], after, error, Verdict(false, error, false))
  }

  const UNTRIED := Verdict(false, "", false)

  function Attempts(bridges: seq<Bridge>, calls: seq<Call>): seq<Attempt>
    requires |bridges| == |calls|
  {
    seq(|bridges|, i requires 0 <= i < |bridges| => Attempt(bridges[i].account, calls[i]))
  }

  method TryBridges(env: Env, e: Event, bridges: seq<Bridge>, store: Store, calls: seq<Call>) returns (v: Verdict)
    requires |bridges| == |calls| && forall b <- bridges :: b.store == store
    modifies store, bridges
    ensures (v, store.inbox) == Tried(env, e, Attempts(bridges, calls), old(store.inbox), "", UNTRIED)
  {
    hide Handled;
    v := UNTRIED;
    var err := "";
    ghost var all := Attempts(bridges, calls);
    assert all[0..] == all;
    for i := 0 to |bridges|
      invariant Tried(env, e, all[i..], store.inbox, err, v) == Tried(env, e, all, old(store.inbox), "", UNTRIED)
      invariant !v.ok
    {
      var br := bridges[i];
      assert br in bridges && all[i..][0] == all[i] && all[i..][1..] == all[i + 1..];
      var r := br.HandleEvent(env, e, calls[i]);
      match r {
        case Ok(true) =>
          v := v.(ok := true);
          return;
        case Ok(false) =>
          v := Verdict(false, FailReason(br.lastError, err), br.lastErrorPermanent);
        case Err(error) =>
          err := error;
          v := Verdict(false, error, false);
      }
    }
    assert all[|bridges|..] == [];
  }

  // What one loop iteration does with the job it claimed: the queue and the inbox afterwards.
  function Worked(env: Env, db: Db, inbox: Inbox, rid: nat, wid: string, lease: string, todo: seq<Attempt>,
                  claimedAt: int, finishedAt: int): (Db, Inbox)
    requires rid in db.rows
  {
    var taken := Taken(db, rid, wid, lease, claimedAt);
    var (v, after) := Tried(env, db.rows[rid].payload, todo, inbox, "", UNTRIED);
    var reason := if v.reason == "" then NO_REASON else v.reason;
    (if v.ok then Finished(taken, rid, lease, true, "", false, finishedAt)
     else Finished(taken, rid, lease, false, reason, v.permanent, finishedAt),
     after)
  }

  // The bridge of the job's owner, or every bridge of the group when there is none.
  function Candidates(owned: map<string, Bridge>, all: seq<Bridge>, owner: string): seq<Bridge> {
    if owner in owned then [owned[owner]] else all
  }

  // `calls(i)` is what the i-th handled event finds; `owned` and `all` are the keys and values of one table.
  method Iteration(env: Env, q: QueueDb, store: Store, groups: set<string>, owned: map<string, Bridge>,
                   all: seq<Bridge>, wid: string, lease: string, calls: nat -> Call, claimedAt: int, finishedAt: int)
    returns (job: Option<nat>)
    requires (forall b <- all :: b.store == store) && (forall k <- owned :: owned[k] in all)
    modifies q, store, all
    ensures job.None? ==> q.Value() == old(q.Value()) && store.inbox == old(store.inbox)
                          && forall id <- q.rows :: !Matches(q.rows[id], Some(groups))
    ensures job.Some? ==> IsOldestMatch(old(q.Value()), Some(groups), job.value)
    ensures job.Some? && old(q.rows)[job.value].owner in owned ==>
      var own := Attempt(owned[old(q.rows)[job.value].owner].account, calls(0));
      (q.Value(), store.inbox) == Worked(env, old(q.Value()), old(store.inbox), job.value, wid, lease, [own],
                                         claimedAt, finishedAt)
    ensures job.Some? && old(q.rows)[job.value].owner !in owned ==>
      var each := seq(|all|, i requires 0 <= i < |all| => Attempt(all[i].account, calls(i)));
      (q.Value(), store.inbox) == Worked(env, old(q.Value()), old(store.inbox), job.value, wid, lease, each,
                                         claimedAt, finishedAt)
  {
    hide Tried, Finished;
    job := q.Claim(Some(groups), wid, lease, claimedAt);
    if job.None? {
      return;
    }
    var row := q.rows[job.value];
    var todo := Candidates(owned, all, row.owner);
    var found := seq(|todo|, i requires 0 <= i < |todo| => calls(i));
    ghost var attempts := Attempts(todo, found);
    assert |attempts| == |todo| && forall i :: 0 <= i < |todo| ==> attempts[i] == Attempt(todo[i].account, calls(i));
    if row.owner in owned {
      assert attempts == [Attempt(owned[row.owner].account, calls(0))];
    } else {
      assert attempts == seq(|all|, i requires 0 <= i < |all| => Attempt(all[i].account, calls(i)));
    }
    var v := TryBridges(env, row.payload, todo, store, found);
    if v.ok {
      var _ := q.Finish(job.value, true, "", lease, false, finishedAt);
    } else {
      var reason := if v.reason == "" then NO_REASON else v.reason;
      var _ := q.Finish(job.value, false, reason, lease, v.permanent, finishedAt);
    }
  }

  // ---- what becomes of the job ----------------------------------------------------------------------

  // A job whose owner has a bridge of its own is settled as that bridge says, and nothing else counts: done
  // when it accepts, else one attempt is spent, and the job is failed when the refusal is permanent or the
  // attempt the third.
  lemma OwnBridgeDecides(env: Env, db: Db, inbox: Inbox, rid: nat, wid: string, lease: string, own: Attempt,
                         claimedAt: int, finishedAt: int)
    requires CanTake(db, rid) && lease != ""
    ensures
      var (t, after) := Worked(env, db, inbox, rid, wid, lease, [own], claimedAt, finishedAt);
      var (o, stored) := Handled(env, own.account, inbox, db.rows[rid].payload, own.call);
      && after == stored && t.rows.Keys == db.rows.Keys
      && (forall id <- db.rows :: id != rid ==> t.rows[id] == db.rows[id])
      && var was, now := db.rows[rid], t.rows[rid];
         match o
         case Accepted => now.status == Done && now.attempts == was.attempts && now.error == ""
         case Refused(error, permanent) =>
           && now.attempts == was.attempts + 1 && (0 < |error| <= 300 ==> now.error == error)
           && now.status == if permanent || was.attempts + 1 >= 3 then Failed else Pending
         case Raised(error) =>
           && now.attempts == was.attempts + 1 && (0 < |error| <= 300 ==> now.error == error)
           && now.status == if was.attempts + 1 >= 3 then Failed else Pending
  {
    hide Handled, Tried;
    OneTried(env, db.rows[rid].payload, own, inbox);
  }

  lemma OneTried(env: Env, e: Event, own: Attempt, inbox: Inbox)
    ensures var (o, after) := Handled(env, own.account, inbox, e, own.call);
      Tried(env, e, [own], inbox, "", UNTRIED) ==
        (match o
         case Accepted => Verdict(true, "", false)
         case Refused(error, permanent) => Verdict(false, error, permanent)
         case Raised(error) => Verdict(false, error, false),
         after)
  {
    hide Handled;
    var (o, after) := Handled(env, own.account, inbox, e, own.call);
    assert [own][1..] == [];
    match o {
      case Accepted =>
      case Refused(error, permanent) =>
        var v := Verdict(false, error, permanent);
        assert Tried(env, e, [], after, "", v) == (v, after);
      case Raised(error) =>
        var v := Verdict(false, error, false);
        assert Tried(env, e, [], after, error, v) == (v, after);
    }
  }

  lemma OnlyAcceptanceStores(env: Env, a: Account, inbox: Inbox, e: Event, call: Call)
    ensures var (o, after) := Handled(env, a, inbox, e, call); o != Accepted ==> after == inbox
  {
    hide Read, MailBridge.Row, Mailbox;
  }

  predicate Accepts(env: Env, e: Event, t: Attempt, inbox: Inbox) {
    Handled(env, t.account, inbox, e, t.call).0 == Accepted
  }

  // The first bridge that accepts the event as the inbox stands.
  function FirstAccepting(env: Env, e: Event, todo: seq<Attempt>, inbox: Inbox): (k: nat)
    ensures k <= |todo|
  {
    if todo == [] || Accepts(env, e, todo[0], inbox) then 0 else FirstAccepting(env, e, todo[1..], inbox) + 1
  }

  lemma {:induction false} FirstAcceptingIs(env: Env, e: Event, todo: seq<Attempt>, inbox: Inbox)
    ensures var k := FirstAccepting(env, e, todo, inbox);
      (k < |todo| ==> Accepts(env, e, todo[k], inbox)) && forall j :: 0 <= j < k ==> !Accepts(env, e, todo[j], inbox)
  {
    hide Accepts;
    if todo != [] && !Accepts(env, e, todo[0], inbox) {
      FirstAcceptingIs(env, e, todo[1..], inbox);
      var k := FirstAccepting(env, e, todo[1..], inbox);
      forall j | 0 <= j < k + 1 ensures !Accepts(env, e, todo[j], inbox) {
        assert j > 0 ==> todo[j] == todo[1..][j - 1];
      }
    }
  }

  // Bridges tried in order: the first that accepts stores the mail, whatever those before it answered.
  lemma {:induction false} FirstAcceptanceCounts(env: Env, e: Event, todo: seq<Attempt>, inbox: Inbox, err: string,
                                                 v: Verdict)
    requires !v.ok
    ensures var (verdict, after) := Tried(env, e, todo, inbox, err, v);
      var k := FirstAccepting(env, e, todo, inbox);
      && (verdict.ok <==> k < |todo|) && (k < |todo| ==> Accepts(env, e, todo[k], inbox))
      && (forall j :: 0 <= j < k ==> !Accepts(env, e, todo[j], inbox))
      && after == if k < |todo| then Handled(env, todo[k].account, inbox, e, todo[k].call).1 else inbox
    decreases |todo|
  {
    hide Handled, FailReason;
    FirstAcceptingIs(env, e, todo, inbox);
    if todo != [] {
      var (o, after) := Handled(env, todo[0].account, inbox, e, todo[0].call);
      OnlyAcceptanceStores(env, todo[0].account, inbox, e, todo[0].call);
      if o != Accepted {
        var err' := match o case Raised(error) => error case _ => err;
        var v' := match o case Refused(error, permanent) => Verdict(false, FailReason(error, err), permanent)
                          case _ => Verdict(false, err', false);
        FirstAcceptanceCounts(env, e, todo[1..], inbox, err', v');
      }
    }
  }

  // A job without such a bridge is done exactly when some bridge of the group accepts it.
  lemma AnyBridgeServes(env: Env, db: Db, inbox: Inbox, rid: nat, wid: string, lease: string, todo: seq<Attempt>,
                        claimedAt: int, finishedAt: int)
    requires CanTake(db, rid) && lease != ""
    ensures var (t, after) := Worked(env, db, inbox, rid, wid, lease, todo, claimedAt, finishedAt);
      var e := db.rows[rid].payload;
      var k := FirstAccepting(env, e, todo, inbox);
      && rid in t.rows && (t.rows[rid].status == Done <==> k < |todo|)
      && (t.rows[rid].status != Done ==> t.rows[rid].attempts == db.rows[rid].attempts + 1)
      && after == if k < |todo| then Handled(env, todo[k].account, inbox, e, todo[k].call).1 else inbox
  {
    hide Tried, FirstAccepting, Handled;
    FirstAcceptanceCounts(env, db.rows[rid].payload, todo, inbox, "", UNTRIED);
  }

  // ---- what is reported ----------------------------------------------------------------------------

  // The outcomes of the bridges tried, in order; an acceptance ends the list.
  function Outcomes(env: Env, e: Event, todo: seq<Attempt>, inbox: Inbox): seq<Outcome> {
    if todo == [] then []
    else
      var (o, after) := Handled(env, todo[0].account, inbox, e, todo[0].call);
      [o] + if o == Accepted then [] else Outcomes(env, e, todo[1..], after)
  }

  // The last exception among the outcomes, `before` when there is none.
  function LastRaised(os: seq<Outcome>, before: string): string {
    if os == [] then before
    else LastRaised(os[1..], match os[0] case Raised(error) => error case _ => before)
  }

  // What a verdict says after these outcomes.
  predicate Says(verdict: Verdict, os: seq<Outcome>, err: string) {
    && os != []
    && (forall i :: 0 <= i < |os| - 1 ==> os[i] != Accepted)
    && match os[|os| - 1]
       case Accepted => verdict.ok
       case Refused(error, permanent) => verdict == Verdict(false, FailReason(error, LastRaised(os, err)), permanent)
       case Raised(error) => verdict == Verdict(false, error, false)
  }

  lemma SaysMore(verdict: Verdict, o: Outcome, os: seq<Outcome>, err: string)
    requires o != Accepted && Says(verdict, os, match o case Raised(error) => error case _ => err)
    ensures Says(verdict, [o] + os, err)
  {
    hide FailReason;
    var all := [o] + os;
    assert all[1..] == os && all[|all| - 1] == os[|os| - 1];
  }

  lemma SaysLast(o: Outcome, err: string)
    requires o != Accepted
    ensures Says(match o case Refused(error, permanent) => Verdict(false, FailReason(error, err), permanent)
                         case Raised(error) => Verdict(false, error, false), [o], err)
  {
    hide FailReason;
    assert [o][1..] == [];
    assert LastRaised([], err) == err;
  }

  // A job is done exactly when its last bridge accepted it. Otherwise whether it may be repeated is up
  // to the last bridge alone, and so is the reason, unless some bridge raised: then an exception is
  // reported even when a later bridge refused for a reason of its own.
  lemma {:induction false} VerdictLaw(env: Env, e: Event, todo: seq<Attempt>, inbox: Inbox, err: string, v: Verdict)
    requires todo != [] && !v.ok
    ensures Says(Tried(env, e, todo, inbox, err, v).0, Outcomes(env, e, todo, inbox), err)
    decreases |todo|
  {
    hide Handled, FailReason, Says;
    var (o, after) := Handled(env, todo[0].account, inbox, e, todo[0].call);
    if o == Accepted {
      assert Outcomes(env, e, todo, inbox) == [o];
      SaysAccepted(v, err);
    } else {
      var err' := match o case Raised(error) => error case _ => err;
      var v' := match o case Refused(error, permanent) => Verdict(false, FailReason(error, err), permanent)
                        case _ => Verdict(false, err', false);
      if |todo| > 1 {
        VerdictLaw(env, e, todo[1..], after, err', v');
        SaysMore(Tried(env, e, todo[1..], after, err', v').0, o, Outcomes(env, e, todo[1..], after), err);
      } else {
        assert todo[1..] == [] && Outcomes(env, e, todo, inbox) == [o];
        SaysLast(o, err);
      }
    }
  }

  lemma SaysAccepted(v: Verdict, err: string)
    ensures Says(v.(ok := true), [Accepted], err)
  {
  }
}
