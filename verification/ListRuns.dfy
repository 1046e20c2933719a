// Coherence of the list cache over any run of one web process among others, its handlers interleaved.
module ListRuns {
  import opened Wrappers
  import opened ListCache

  // Handlers run in threads, so a list request `t` looks into the cache and queries the table in one step
  // and stores the result in another, and a write changes the table in one step and drops the lists in
  // another. `Foreign` is whatever other processes do to the table.
  datatype Action =
    | Ask(t: nat, key: Key, at: real)
    | Store(t: nat, at: real)
    | Change(w: Write, at: real)
    | Drop(owner: string, at: real)
    | Foreign(db: Inbox, at: real)

  datatype Pending = Pending(key: Key, listing: Listing)

  // `pending` holds what each thread's list request has queried and not stored yet; a new request means
  // that the thread gave up the old one.
  datatype State = State(db: Inbox, cache: Cache, pending: map<nat, Pending>)

  function Step(h: Host, s: State, a: Action): State {
    match a
    case Ask(t, key, at) =>
      if Usable(s.cache, key, at).Some? then s.(pending := s.pending - {t})
      else s.(cache := s.cache - {key}, pending := s.pending[t := Pending(key, Direct(h, s.db, key))])
    case Store(t, at) =>
      if t !in s.pending then s
      else s.(cache := s.cache[s.pending[t].key := Entry(at, s.pending[t].listing)], pending := s.pending - {t})
    case Change(w, _) => s.(db := DbAfterWrite(s.db, w))
    case Drop(owner, _) => s.(cache := Invalidated(s.cache, owner))
    case Foreign(db, _) => s.(db := db)
  }

  function Exec(h: Host, s: State, run: seq<Action>): State
    decreases |run|
  {
    if run == [] then s else Step(h, Exec(h, s, run[..|run| - 1]), run[|run| - 1])
  }

  // The state at instant k of the run.
  function At(h: Host, s: State, run: seq<Action>, k: nat): State
    requires k <= |run|
  {
    Exec(h, s, run[..k])
  }

  lemma AtLonger(h: Host, s: State, run: seq<Action>, a: Action)
    ensures forall k :: 0 <= k <= |run| ==> At(h, s, run + [a], k) == At(h, s, run, k)
    ensures At(h, s, run, |run|) == Exec(h, s, run)
    ensures At(h, s, run + [a], |run| + 1) == Exec(h, s, run + [a]) == Step(h, Exec(h, s, run), a)
  {
    hide Step;
    assert (run + [a])[..|run| + 1] == run + [a];
    assert forall k :: 0 <= k <= |run| ==> (run + [a])[..k] == run[..k];
    assert run[..|run|] == run;
  }

  lemma TwoSteps(h: Host, s: State, a: Action, b: Action)
    ensures Exec(h, s, [a, b]) == Step(h, Step(h, s, a), b)
  {
    hide Step;
    assert [a, b][..1] == [a] && [a][..0] == [];
    assert Exec(h, s, [a]) == Step(h, s, a);
  }

  // The handlers in place are these steps with nothing in between.
  lemma HandlersAreSteps(h: Host, s: State, t: nat, key: Key, w: Write, owner: string, at: real)
    requires OwnerOf(s.db, w) == Some(owner)
    ensures Exec(h, s, [Ask(t, key, at), Store(t, at)]).cache == CacheAfter(h, s.db, s.cache, key, at)
    ensures Exec(h, s, [Change(w, at), Drop(owner, at)]) == Exec(h, s, [Drop(owner, at), Change(w, at)])
            == s.(db := DbAfterWrite(s.db, w), cache := CacheAfterWrite(s.db, s.cache, w))
  {
    hide Direct, Written;
    TwoSteps(h, s, Ask(t, key, at), Store(t, at));
    TwoSteps(h, s, Change(w, at), Drop(owner, at));
    TwoSteps(h, s, Drop(owner, at), Change(w, at));
  }

  // ---- where a listing comes from --------------------------------------------------------------------

  // Request t asked at instant j, got this listing, and has kept it until instant n.
  predicate AskedAt(h: Host, s: State, run: seq<Action>, t: nat, p: Pending, j: nat, n: nat) {
    && j < n <= |run| && run[j].Ask? && run[j].t == t && run[j].key == p.key
    && p.listing == Direct(h, At(h, s, run, j).db, p.key)
    && forall k :: j < k <= n ==> t in At(h, s, run, k).pending && At(h, s, run, k).pending[t] == p
  }

  ghost predicate Asked(h: Host, s: State, run: seq<Action>, t: nat) {
    var pending := Exec(h, s, run).pending;
    t in pending ==> exists j :: AskedAt(h, s, run, t, pending[t], j, |run|)
  }

  // The entry was asked for at instant j and stored at instant i, and its lists were not dropped since.
  predicate StoredAt(h: Host, s: State, run: seq<Action>, key: Key, e: Entry, j: nat, i: nat) {
    && i < |run| && run[i].Store? && run[i].at == e.ts
    && AskedAt(h, s, run, run[i].t, Pending(key, e.listing), j, i)
    && forall k :: i < k < |run| ==> !DropsLists(run[k], key.own)
  }

  predicate DropsLists(a: Action, owner: string) {
    a.Drop? && a.owner == owner
  }

  ghost predicate Sourced(h: Host, s: State, run: seq<Action>, key: Key) {
    var cache := Exec(h, s, run).cache;
    key in cache ==> exists j, i :: StoredAt(h, s, run, key, cache[key], j, i)
  }

  lemma AskedLonger(h: Host, s: State, run: seq<Action>, a: Action, t: nat, p: Pending, j: nat, n: nat)
    requires AskedAt(h, s, run, t, p, j, n)
    ensures AskedAt(h, s, run + [a], t, p, j, n)
  {
    hide Direct, Exec;
    AtLonger(h, s, run, a);
  }

  lemma AskedStep(h: Host, s: State, run: seq<Action>, a: Action, t: nat)
    requires Asked(h, s, run, t)
    ensures Asked(h, s, run + [a], t)
  {
    hide Direct, Exec, Usable, Invalidated, DbAfterWrite;
    AtLonger(h, s, run, a);
    var was, now := Exec(h, s, run), Exec(h, s, run + [a]);
    if t in now.pending {
      var p := now.pending[t];
      if t in was.pending && was.pending[t] == p && !(a.Ask? && a.t == t) {
        var j :| AskedAt(h, s, run, t, p, j, |run|);
        AskedLonger(h, s, run, a, t, p, j, |run|);
        assert AskedAt(h, s, run + [a], t, p, j, |run| + 1);
      } else {
        assert AskedAt(h, s, run + [a], t, p, |run|, |run| + 1);
      }
    }
  }

  lemma SourcedStep(h: Host, s: State, run: seq<Action>, a: Action, key: Key)
    requires Sourced(h, s, run, key) && forall t :: Asked(h, s, run, t)
    ensures Sourced(h, s, run + [a], key)
  {
    hide Direct, Exec, Usable, DbAfterWrite, AskedAt;
    AtLonger(h, s, run, a);
    var was, now := Exec(h, s, run), Exec(h, s, run + [a]);
    if key in now.cache {
      var e := now.cache[key];
      if a.Store? && a.t in was.pending && was.pending[a.t].key == key {
        assert Asked(h, s, run, a.t);
        var j :| AskedAt(h, s, run, a.t, was.pending[a.t], j, |run|);
        AskedLonger(h, s, run, a, a.t, was.pending[a.t], j, |run|);
        assert StoredAt(h, s, run + [a], key, e, j, |run|);
      } else {
        assert key in was.cache && was.cache[key] == e;
        var j: nat, i: nat :| StoredAt(h, s, run, key, e, j, i);
        AskedLonger(h, s, run, a, run[i].t, Pending(key, e.listing), j, i);
        assert StoredAt(h, s, run + [a], key, e, j, i);
      }
    }
  }

  lemma {:induction false} AlwaysSourced(h: Host, s: State, run: seq<Action>, key: Key)
    requires s.cache == map[] && s.pending == map[]
    ensures Sourced(h, s, run, key) && forall t :: Asked(h, s, run, t)
    decreases |run|
  {
    if run != [] {
      var before, a := run[..|run| - 1], run[|run| - 1];
      assert before + [a] == run;
      hide *;
      AlwaysSourced(h, s, before, key);
      SourcedStep(h, s, before, a, key);
      forall t ensures Asked(h, s, before + [a], t) {
        AskedStep(h, s, before, a, t);
      }
    }
  }

  // What a request at the end of the run answers, and where from: the direct query now, or a listing
  // asked for at instant j and stored at instant i.
  predicate IsSource(h: Host, s: State, run: seq<Action>, key: Key, at: real, listing: Listing, j: nat, i: nat) {
    && j <= |run| && listing == Direct(h, At(h, s, run, j).db, key)
    && (j == |run| || (i < |run| && at - 5.0 <= run[i].at && StoredAt(h, s, run, key, Entry(run[i].at, listing), j, i)))
  }

  // Every answer of /api/mails is what the direct query gives at some instant of the run, and was stored
  // at most five seconds before the answer and after the last time this process dropped the mailbox's
  // lists.
  lemma ListIsCoherent(h: Host, s: State, run: seq<Action>, key: Key, at: real) returns (j: nat, i: nat)
    requires s.cache == map[] && s.pending == map[]
    ensures var t := Exec(h, s, run); IsSource(h, s, run, key, at, Answer(h, t.db, t.cache, key, at), j, i)
  {
    hide Direct;
    var t := Exec(h, s, run);
    AlwaysSourced(h, s, run, key);
    j, i := |run|, |run|;
    assert run[..|run|] == run;
    if Usable(t.cache, key, at).Some? {
      var e := t.cache[key];
      j, i :| StoredAt(h, s, run, key, e, j, i);
      assert StoredAt(h, s, run, key, Entry(e.ts, e.listing), j, i);
    }
  }

  // ---- writes are fenced unless a list request straddles them --------------------------------------------

  // No list request for the mailbox is between its query and its store.
  predicate NonePending(s: State, owner: string) {
    forall t <- s.pending :: s.pending[t].key.own != owner
  }

  // A write that finds no list request under way shows in every answer once it has dropped the lists.
  lemma WriteIsFenced(h: Host, s: State, run: seq<Action>, key: Key, at: real, k: nat, d: nat)
    returns (j: nat, i: nat)
    requires s.cache == map[] && s.pending == map[]
    requires k < d < |run| && run[d].Drop? && run[d].owner == key.own && NonePending(At(h, s, run, k), key.own)
    ensures var t := Exec(h, s, run); IsSource(h, s, run, key, at, Answer(h, t.db, t.cache, key, at), j, i)
    ensures j >= k && (run[k].Change? ==> j > k)
  {
    hide Direct, Exec, Answer;
    j, i := ListIsCoherent(h, s, run, key, at);
  }

  // Opening a mail drops the lists first: no request may be under way then, nor begin before the change.
  lemma OpeningIsFenced(h: Host, s: State, run: seq<Action>, key: Key, at: real, d: nat, k: nat)
    returns (j: nat, i: nat)
    requires s.cache == map[] && s.pending == map[]
    requires d < k < |run| && run[d].Drop? && run[d].owner == key.own && NonePending(At(h, s, run, d), key.own)
    requires run[k].Change? && forall m :: d < m < k && run[m].Ask? ==> run[m].key.own != key.own
    ensures var t := Exec(h, s, run); IsSource(h, s, run, key, at, Answer(h, t.db, t.cache, key, at), j, i)
    ensures j > k
  {
    hide Direct, Exec, Answer;
    j, i := ListIsCoherent(h, s, run, key, at);
  }

  // Handlers that do not interleave: every store follows its query, and every change to the mailbox
  // stands beside its drop.
  predicate Atomic(h: Host, s: State, run: seq<Action>, owner: string) {
    && (forall k :: 0 <= k < |run| && run[k].Store? ==> 0 < k && run[k - 1].Ask? && run[k - 1].t == run[k].t)
    && forall k :: 0 <= k < |run| && WritesTo(h, s, run, k, owner) ==>
         (0 < k && DropsLists(run[k - 1], owner)) || (k + 1 < |run| && DropsLists(run[k + 1], owner))
  }

  predicate WritesTo(h: Host, s: State, run: seq<Action>, k: nat, owner: string)
    requires k < |run|
  {
    run[k].Change? && OwnerOf(At(h, s, run, k).db, run[k].w) == Some(owner)
  }

  // Two steps of one handler.
  predicate IsHandler(a: Action, b: Action, owner: string) {
    || (a.Ask? && b.Store? && a.t == b.t)
    || (a.Change? && DropsLists(b, owner))
    || (DropsLists(a, owner) && b.Change?)
  }

  // Runs of whole handlers are such: the empty run, and any with one handler more.
  lemma WholeHandlersAreAtomic(h: Host, s: State, run: seq<Action>, owner: string, a: Action, b: Action)
    requires IsHandler(a, b, owner)
    ensures Atomic(h, s, [], owner) && (Atomic(h, s, run, owner) ==> Atomic(h, s, run + [a, b], owner))
  {
    if Atomic(h, s, run, owner) {
      hide Exec, Direct, OwnerOf, IsHandler;
      var longer := run + [a, b];
      assert forall k :: 0 <= k <= |run| ==> longer[..k] == run[..k];
      forall k | 0 <= k < |run|
        ensures longer[k] == run[k] && WritesTo(h, s, longer, k, owner) == WritesTo(h, s, run, k, owner)
      {
        assert longer[..k] == run[..k];
      }
      LastTwo(h, s, longer, owner);
    }
  }

  lemma LastTwo(h: Host, s: State, run: seq<Action>, owner: string)
    requires |run| >= 2 && IsHandler(run[|run| - 2], run[|run| - 1], owner)
    ensures forall k :: |run| - 2 <= k < |run| ==>
      && (run[k].Store? ==> 0 < k && run[k - 1].Ask? && run[k - 1].t == run[k].t)
      && (WritesTo(h, s, run, k, owner) ==>
            (0 < k && DropsLists(run[k - 1], owner)) || (k + 1 < |run| && DropsLists(run[k + 1], owner)))
  {
    hide Exec, OwnerOf;
    var n := |run| - 2;
    assert run[n + 1 - 1] == run[n];
    assert WritesTo(h, s, run, n, owner) ==> run[n].Change?;
    assert WritesTo(h, s, run, n + 1, owner) ==> run[n + 1].Change?;
  }

  // Then each answer is the direct query's at an instant at most five seconds earlier and after the last
  // write of this process to that mailbox.
  lemma AtomicIsFenced(h: Host, s: State, run: seq<Action>, key: Key, at: real) returns (j: nat)
    requires s.cache == map[] && s.pending == map[] && Atomic(h, s, run, key.own)
    ensures var t := Exec(h, s, run);
      j <= |run| && Answer(h, t.db, t.cache, key, at) == Direct(h, At(h, s, run, j).db, key)
    ensures forall k :: j <= k < |run| && run[k].Change? ==> OwnerOf(At(h, s, run, k).db, run[k].w) != Some(key.own)
    ensures j < |run| ==> j + 1 < |run| && at - 5.0 <= run[j + 1].at
  {
    hide Direct, Exec, Answer, OwnerOf;
    var i: nat;
    j, i := ListIsCoherent(h, s, run, key, at);
    if j < |run| {
      JustAsked(h, s, run, i - 1);
      j := i - 1;
    }
    forall k | j <= k < |run| && run[k].Change? ensures OwnerOf(At(h, s, run, k).db, run[k].w) != Some(key.own) {
      assert !WritesTo(h, s, run, k, key.own);
    }
  }

  lemma JustAsked(h: Host, s: State, run: seq<Action>, j: nat)
    requires j < |run| && run[j].Ask? && run[j].t in At(h, s, run, j + 1).pending
    ensures At(h, s, run, j + 1).pending[run[j].t] == Pending(run[j].key, Direct(h, At(h, s, run, j).db, run[j].key))
  {
    assert run[..j + 1] == run[..j] + [run[j]];
    AtLonger(h, s, run[..j], run[j]);
  }

  // ---- and they are not when one does --------------------------------------------------------------------

  lemma FourSteps(h: Host, s: State, a: Action, b: Action, c: Action, d: Action)
    ensures Exec(h, s, [a, b, c, d]) == Step(h, Step(h, Step(h, Step(h, s, a), b), c), d)
  {
    hide Step;
    TwoSteps(h, s, a, b);
    assert [a, b, c, d][..3] == [a, b, c] && [a, b, c][..2] == [a, b];
    assert Exec(h, s, [a, b, c]) == Step(h, Step(h, Step(h, s, a), b), c);
  }

  // A list request that queries before any write and stores after it keeps the listing of before the
  // write for five seconds.
  lemma LateStoreIsNotFenced(h: Host, s: State, t: nat, key: Key, w: Write, asked: real, stored: real, after: real)
    requires Usable(s.cache, key, asked).None? && OwnerOf(s.db, w) == Some(key.own)
    requires asked <= stored <= after <= stored + 5.0
    ensures var run := [Ask(t, key, asked), Change(w, asked), Drop(key.own, asked), Store(t, stored)];
      var e := Exec(h, s, run);
      e.db == Written(s.db, w) && Answer(h, e.db, e.cache, key, after) == Direct(h, s.db, key)
  {
    hide Direct, Written;
    FourSteps(h, s, Ask(t, key, asked), Change(w, asked), Drop(key.own, asked), Store(t, stored));
  }

  // Opening a mail drops the lists before it marks the mail read, so a whole list request fits in between,
  // and for five seconds still counts the mail as unread.
  lemma OpeningIsNotFenced(h: Host, s: State, t: nat, key: Key, id: nat, asked: real, stored: real, after: real)
    requires id in s.db && s.db[id].isRead == 0 && Selected(h, s.db[id], key)
    requires asked <= stored <= after <= stored + 5.0
    ensures var run := [Drop(key.own, asked), Ask(t, key, asked), Store(t, stored), Change(View(id), stored)];
      var e := Exec(h, s, run);
      var answer := Answer(h, e.db, e.cache, key, after);
      && e.db == Written(s.db, View(id)) && answer == Direct(h, s.db, key)
      && answer.unread == Direct(h, e.db, key).unread + 1
  {
    FourSteps(h, s, Drop(key.own, asked), Ask(t, key, asked), Store(t, stored), Change(View(id), stored));
    OneUnreadLess(h, s.db, id, key);
    hide Direct, Written;
  }

  lemma OneUnreadLess(h: Host, db: Inbox, id: nat, key: Key)
    requires id in db && db[id].isRead == 0 && Selected(h, db[id], key)
    ensures Direct(h, db, key).unread == Direct(h, Written(db, View(id)), key).unread + 1
  {
    var marked := Written(db, View(id));
    var hits, hitsNow := Hits(h, db, key), Hits(h, marked, key);
    assert Selected(h, marked[id], key) && id in hits && id in hitsNow;
    forall i | i in db && i != id ensures i in hits <==> i in hitsNow {
      assert marked[i] == db[i];
    }
    assert UnreadOf(hits) == UnreadOf(hitsNow) + {id};
  }
}
