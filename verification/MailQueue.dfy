// The SQLite mail queue: one table of jobs fenced by leases, one table of seen event ids.
// Every SQL transaction is a function on `Db`; class `QueueDb` performs the statements in place.
module MailQueue {
  import opened Wrappers
  import opened Events

  const MAX_ATTEMPTS: nat := 3
  const RECLAIM_TIMEOUT: nat := 120
  const SEEN_TTL: nat := 7 * 86400
  const ERROR_LIMIT: nat := 300

  datatype Status = Pending | Processing | Done | Failed

  datatype Row = Row(
    owner: string, payload: Event, status: Status, attempts: nat, worker: string, lease: string,
    createdAt: int, startedAt: int, processedAt: int, error: string)
  {
    predicate HeldUnder(token: string) {
      status == Processing && lease == token
    }

    // Processing since a known second before the cutoff.
    predicate StaleBefore(cutoff: int) {
      status == Processing && 0 < startedAt < cutoff
    }

    function Returned(): Row {
      this.(status := Pending, startedAt := 0, lease := "")
    }
  }

  // `hasLease` tells whether the table has its lease column yet; before that the field means nothing.
  datatype Db = Db(rows: map<nat, Row>, seen: map<string, int>, nextId: nat, hasLease: bool)
  {
    predicate IdsBelowNext() {
      forall id <- rows :: id < nextId
    }
  }

  // ---- transactions as functions -----------------------------------------------------------

  function Migrated(db: Db): Db {
    if db.hasLease then db
    else db.(
      rows := map id <- db.rows ::
        if db.rows[id].status == Processing
        then db.rows[id].Returned().(worker := "")
        else db.rows[id].(lease := ""),
      hasLease := true)
  }

  // The owner column: the first p-tag carrying a 64-character key, or "" when there is none.
  predicate IsOwnerTag(t: seq<string>) {
    |t| > 1 && t[0] == "p" && |t[1]| == 64
  }

  function FirstOwner(tags: seq<seq<string>>): string {
    if tags == [] then ""
    else if IsOwnerTag(tags[0]) then tags[0][1]
    else FirstOwner(tags[1..])
  }

  // `accounts` is None when the table does not exist yet: then nothing is filtered.
  predicate IsRegistered(accounts: Option<set<string>>, owner: string) {
    accounts.None? || owner in accounts.value
  }

  predicate Admits(db: Db, accounts: Option<set<string>>, e: Event) {
    var owner := FirstOwner(e.tags);
    (owner == "" || IsRegistered(accounts, owner)) && (e.id == "" || e.id !in db.seen)
  }

  function FreshRow(e: Event, now: int): Row {
    Row(FirstOwner(e.tags), e, Pending, 0, "", "", now, 0, 0, "")
  }

  // The clock is read twice: for the sighting, and once the sighting is written, for the row.
  function Enqueued(db: Db, accounts: Option<set<string>>, e: Event, seenAt: int, createdAt: int): Db {
    if !Admits(db, accounts, e) then db
    else db.(
      rows := db.rows[db.nextId := FreshRow(e, createdAt)],
      seen := if e.id == "" then db.seen else db.seen[e.id := seenAt],
      nextId := db.nextId + 1)
  }

  function SeenCleaned(db: Db, now: int): Db {
    db.(seen := map id | id in db.seen && db.seen[id] >= now - SEEN_TTL :: db.seen[id])
  }

  predicate Matches(r: Row, groups: Option<set<string>>) {
    r.status == Pending && (groups.None? || r.owner in groups.value || r.owner == "")
  }

  // The answer of the SELECT in claim: the oldest pending job the worker may take.
  predicate IsOldestMatch(db: Db, groups: Option<set<string>>, rid: nat) {
    && rid in db.rows && Matches(db.rows[rid], groups)
    && forall other <- db.rows :: Matches(db.rows[other], groups) ==> rid <= other
  }

  predicate CanTake(db: Db, rid: nat) {
    rid in db.rows && db.rows[rid].status == Pending
  }

  function Taken(db: Db, rid: nat, worker: string, lease: string, now: int): Db {
    if CanTake(db, rid)
    then db.(rows := db.rows[rid :=
      db.rows[rid].(status := Processing, worker := worker, startedAt := now, lease := lease)])
    else db
  }

  predicate Holds(db: Db, rid: nat, lease: string) {
    lease != "" && rid in db.rows && db.rows[rid].HeldUnder(lease)
  }

  function Clipped(error: string): string {
    if |error| <= ERROR_LIMIT then error else error[..ERROR_LIMIT]
  }

  // What one accepted completion does to the row it holds.
  function Completed(r: Row, ok: bool, error: string, permanent: bool, now: int): Row {
    if ok then r.(status := Done, processedAt := now, error := "", lease := "")
    else if permanent || r.attempts + 1 >= MAX_ATTEMPTS then
      r.(status := Failed, attempts := r.attempts + 1, processedAt := now, error := Clipped(error), lease := "")
    else
      r.Returned().(attempts := r.attempts + 1, error := Clipped(error))
  }

  function Finished(db: Db, rid: nat, lease: string, ok: bool, error: string, permanent: bool, now: int): Db {
    if Holds(db, rid, lease)
    then db.(rows := db.rows[rid := Completed(db.rows[rid], ok, error, permanent, now)])
    else db
  }

  function Reclaimed(db: Db, now: int): Db {
    db.(rows := map id <- db.rows ::
      if db.rows[id].StaleBefore(now - RECLAIM_TIMEOUT) then db.rows[id].Returned() else db.rows[id])
  }

  // ---- what the transactions mean for one row ----------------------------------------------------------

  // The owner is the key of the first p-tag that has one of 64 characters; tags after it do not count.
  lemma {:induction false} OwnerIs(tags: seq<seq<string>>)
    ensures var owner := FirstOwner(tags);
      if owner == "" then forall t <- tags :: |t| > 1 && t[0] == "p" ==> |t[1]| != 64
      else exists i :: 0 <= i < |tags| && |tags[i]| > 1 && tags[i][0] == "p" && |owner| == 64 && tags[i][1] == owner
             && forall j :: 0 <= j < i && |tags[j]| > 1 && tags[j][0] == "p" ==> |tags[j][1]| != 64
  {
    if tags != [] && !(|tags[0]| > 1 && tags[0][0] == "p" && |tags[0][1]| == 64) {
      OwnerIs(tags[1..]);
      if FirstOwner(tags) != "" {
        var i :| 0 <= i < |tags| - 1 && |tags[1..][i]| > 1 && tags[1..][i][0] == "p" && |FirstOwner(tags)| == 64
          && tags[1..][i][1] == FirstOwner(tags)
          && forall j :: 0 <= j < i && |tags[1..][j]| > 1 && tags[1..][j][0] == "p" ==> |tags[1..][j][1]| != 64;
        assert tags[i + 1] == tags[1..][i];
        forall j | 0 <= j < i + 1 && |tags[j]| > 1 && tags[j][0] == "p" ensures |tags[j][1]| != 64 {
          assert j > 0 ==> tags[j] == tags[1..][j - 1];
        }
      } else {
        forall t | t in tags && |t| > 1 && t[0] == "p" ensures |t[1]| != 64 {
          assert t == tags[0] || t in tags[1..];
        }
      }
    }
  }

  // A queued event waits untried, for its owner, with nothing but itself and its time.
  lemma EnqueuedWaits(db: Db, accounts: Option<set<string>>, e: Event, seenAt: int, createdAt: int)
    requires db.IdsBelowNext()
    ensures var t := Enqueued(db, accounts, e, seenAt, createdAt);
      var owner := FirstOwner(e.tags);
      var dropped := (e.id != "" && e.id in db.seen) || (owner != "" && accounts.Some? && owner !in accounts.value);
      if dropped then t == db
      else
        && t.rows.Keys == db.rows.Keys + {db.nextId} && (forall id <- db.rows :: t.rows[id] == db.rows[id])
        && t.rows[db.nextId] == Row(owner, e, Pending, 0, "", "", createdAt, 0, 0, "") && t.nextId == db.nextId + 1
        && t.seen == if e.id == "" then db.seen else db.seen[e.id := seenAt]
  {
    hide FirstOwner;
  }

  // A worker of the group g gets the oldest waiting job whose owner is in g or unknown.
  lemma OldestOfGroup(db: Db, g: set<string>, rid: nat)
    ensures IsOldestMatch(db, Some(g), rid) <==>
      && rid in db.rows && db.rows[rid].status == Pending && (db.rows[rid].owner == "" || db.rows[rid].owner in g)
      && forall id <- db.rows ::
           id < rid && db.rows[id].status == Pending ==> db.rows[id].owner != "" && db.rows[id].owner !in g
  {
  }

  // Reclaiming gives back what has been processing for more than 120 seconds, and leaves the rest alone.
  lemma ReclaimedRow(db: Db, now: int, id: nat)
    requires id in db.rows
    ensures var was, r := db.rows[id], Reclaimed(db, now).rows[id];
      if was.status == Processing && was.startedAt > 0 && now - was.startedAt > 120
      then r == was.(status := Pending, startedAt := 0, lease := "") else r == was
  {
  }

  // The upgrade changes no row but those processing, whose owner is gone: they wait again, attempts kept.
  lemma MigratedRow(db: Db, id: nat)
    requires id in db.rows && !db.hasLease
    ensures var was, r := db.rows[id], Migrated(db).rows[id];
      && r.lease == "" && Migrated(db).hasLease && Migrated(db).seen == db.seen && Migrated(db).nextId == db.nextId
      && r.(lease := was.lease) ==
         if was.status == Processing then was.(status := Pending, startedAt := 0, worker := "") else was
  {
  }

  // A completion under the lease ends it. Success is final; a failure spends an attempt and is final at the
  // third or when it is permanent. The error is kept up to 300 characters.
  lemma FinishedRow(db: Db, rid: nat, lease: string, ok: bool, error: string, permanent: bool, now: int)
    requires lease != "" && rid in db.rows && db.rows[rid].status == Processing && db.rows[rid].lease == lease
    ensures var was, r := db.rows[rid], Finished(db, rid, lease, ok, error, permanent, now).rows[rid];
      var kept := if |error| <= 300 then error else error[..300];
      if ok then r == was.(status := Done, lease := "", error := "", processedAt := now)
      else if permanent || was.attempts >= 2 then
        r == was.(status := Failed, lease := "", error := kept, processedAt := now, attempts := was.attempts + 1)
      else r == was.(status := Pending, lease := "", error := kept, startedAt := 0, attempts := was.attempts + 1)
  {
  }

  // An id is remembered for seven days.
  lemma RememberedFor(db: Db, now: int, id: string)
    requires id in db.seen
    ensures var t := SeenCleaned(db, now);
      && (id in t.seen <==> now - db.seen[id] <= 604800) && (id in t.seen ==> t.seen[id] == db.seen[id])
      && t.rows == db.rows
  {
  }

  // ---- the statements in place -------------------------------------------------------------

  // UPDATE mail_queue SET .. WHERE ..: the rows chosen by `where` are rewritten by `assign`.
  function Updated(rows: map<nat, Row>, where: (nat, Row) -> bool, assign: Row -> Row): map<nat, Row> {
    map id <- rows :: if where(id, rows[id]) then assign(rows[id]) else rows[id]
  }

  function Affected(rows: map<nat, Row>, where: (nat, Row) -> bool): nat {
    |set id <- rows | where(id, rows[id])|
  }

  lemma AffectedOne(rows: map<nat, Row>, where: (nat, Row) -> bool, rid: nat)
    requires forall id <- rows :: where(id, rows[id]) ==> id == rid
    ensures Affected(rows, where) == if rid in rows && where(rid, rows[rid]) then 1 else 0
  {
    var hit := set id <- rows | where(id, rows[id]);
    assert hit == if rid in rows && where(rid, rows[rid]) then {rid} else {};
  }

  lemma Least(ids: set<nat>) returns (m: nat)
    requires ids != {}
    ensures m in ids && forall x :: x in ids ==> m <= x
  {
    m :| m in ids;
    var below := set x | x in ids && x < m;
    if below != {} {
      m := Least(below);
    }
    forall x | x in ids ensures m <= x {
      assert x in below || x !in below;
    }
  }

  class QueueDb {
    var rows: map<nat, Row>
    var seen: map<string, int>
    var nextId: nat
    var hasLease: bool

    function Value(): Db
      reads this
    {
      Db(rows, seen, nextId, hasLease)
    }

    constructor ()
      ensures Value() == Db(map[], map[], 1, true)
    {
      rows, seen, nextId, hasLease := map[], map[], 1, true;
    }

    // ensure_schema on an existing database: add the column, then release the ownerless jobs.
    method Migrate()
      modifies this
      ensures Value() == Migrated(old(Value()))
    {
      if !hasLease {
        rows := Updated(rows, (id, r: Row) => true, (r: Row) => r.(lease := ""));
        hasLease := true;
        rows := Updated(rows, (id, r: Row) => r.status == Processing && r.lease == "",
                        (r: Row) => r.(status := Pending, startedAt := 0, worker := "", lease := ""));
      }
    }

    method OwnerOf(e: Event) returns (owner: string)
      ensures owner == FirstOwner(e.tags)
    {
      for i := 0 to |e.tags|
        invariant FirstOwner(e.tags[i..]) == FirstOwner(e.tags)
      {
        var t := e.tags[i];
        if IsOwnerTag(t) {
          return t[1];
        }
      }
      return "";
    }

    method Enqueue(e: Event, accounts: Option<set<string>>, seenAt: int, createdAt: int) returns (id: Option<nat>)
      modifies this
      ensures Value() == Enqueued(old(Value()), accounts, e, seenAt, createdAt)
      ensures id == if Admits(old(Value()), accounts, e) then Some(old(nextId)) else None
    {
      var owner := OwnerOf(e);
      if owner != "" && !IsRegistered(accounts, owner) {
        return None;
      }
      if e.id != "" {
        if e.id in seen {
          return None;
        }
        seen := seen[e.id := seenAt];
      }
      rows := rows[nextId := FreshRow(e, createdAt)];
      id := Some(nextId);
      nextId := nextId + 1;
    }

    method CleanupSeen(now: int) returns (removed: nat)
      modifies this
      ensures Value() == SeenCleaned(old(Value()), now)
      ensures removed == |old(seen).Keys - seen.Keys|
    {
      var dead := set id <- seen | seen[id] < now - SEEN_TTL;
      seen := seen - dead;
      assert seen == SeenCleaned(old(Value()), now).seen;
      assert old(seen).Keys - seen.Keys == dead;
      removed := |dead|;
    }

    // First half of claim: the SELECT.
    method SelectPending(groups: Option<set<string>>) returns (found: Option<nat>)
      ensures found.None? ==> forall id <- rows :: !Matches(rows[id], groups)
      ensures found.Some? ==> IsOldestMatch(Value(), groups, found.value)
    {
      var hits := set id <- rows | Matches(rows[id], groups);
      if hits == {} {
        assert forall id <- rows :: Matches(rows[id], groups) ==> id in hits;
        return None;
      }
      ghost var least := Least(hits);
      assert least in hits && forall x <- hits :: least <= x;
      var rid :| rid in hits && forall x <- hits :: rid <= x;
      assert forall other <- rows :: Matches(rows[other], groups) ==> other in hits;
      return Some(rid);
    }

    // Second half of claim: the compare-and-set UPDATE that issues the lease.
    method Take(rid: nat, worker: string, lease: string, now: int) returns (won: bool)
      modifies this
      ensures Value() == Taken(old(Value()), rid, worker, lease, now)
      ensures won == CanTake(old(Value()), rid)
    {
      var where := (id: nat, r: Row) => id == rid && r.status == Pending;
      AffectedOne(rows, where, rid);
      won := Affected(rows, where) == 1;
      rows := Updated(rows, where,
                      (r: Row) => r.(status := Processing, worker := worker, startedAt := now, lease := lease));
    }

    method Claim(groups: Option<set<string>>, worker: string, lease: string, now: int)
      returns (job: Option<nat>)
      modifies this
      ensures job.None? ==> Value() == old(Value()) && forall id <- rows :: !Matches(rows[id], groups)
      ensures job.Some? ==> IsOldestMatch(old(Value()), groups, job.value)
                            && Value() == Taken(old(Value()), job.value, worker, lease, now)
    {
      job := SelectPending(groups);
      if job.Some? {
        var won := Take(job.value, worker, lease, now);
        if !won {
          assert false;
        }
      }
    }

    method Finish(rid: nat, ok: bool, error: string, lease: string, permanent: bool, now: int)
      returns (accepted: bool)
      modifies this
      ensures Value() == Finished(old(Value()), rid, lease, ok, error, permanent, now)
      ensures accepted == Holds(old(Value()), rid, lease)
    {
      if lease == "" {
        return false;
      }
      if ok {
        accepted := FinishDone(rid, lease, now);
      } else {
        accepted := FinishFailed(rid, error, lease, permanent, now);
      }
    }

    method FinishDone(rid: nat, lease: string, now: int) returns (accepted: bool)
      requires lease != ""
      modifies this
      ensures Value() == Finished(old(Value()), rid, lease, true, "", false, now)
      ensures accepted == Holds(old(Value()), rid, lease)
    {
      var mine := (id: nat, r: Row) => id == rid && r.HeldUnder(lease);
      AffectedOne(rows, mine, rid);
      accepted := Affected(rows, mine) == 1;
      rows := Updated(rows, mine, (r: Row) => r.(status := Done, processedAt := now, error := "", lease := ""));
    }

    // First the row is failed for good, if this was its last attempt; if no row was, it is given back.
    method FinishFailed(rid: nat, error: string, lease: string, permanent: bool, now: int) returns (accepted: bool)
      requires lease != ""
      modifies this
      ensures Value() == Finished(old(Value()), rid, lease, false, error, permanent, now)
      ensures accepted == Holds(old(Value()), rid, lease)
    {
      hide Clipped;
      var last := (id: nat, r: Row) =>
        id == rid && r.HeldUnder(lease) && (permanent || r.attempts + 1 >= MAX_ATTEMPTS);
      AffectedOne(rows, last, rid);
      var count := Affected(rows, last);
      rows := Updated(rows, last, (r: Row) =>
        r.(status := Failed, attempts := r.attempts + 1, processedAt := now, error := Clipped(error), lease := ""));
      if count != 1 {
        var mine := (id: nat, r: Row) => id == rid && r.HeldUnder(lease);
        AffectedOne(rows, mine, rid);
        count := Affected(rows, mine);
        rows := Updated(rows, mine, (r: Row) =>
          r.(status := Pending, attempts := r.attempts + 1, startedAt := 0, lease := "", error := Clipped(error)));
      }
      accepted := count == 1;
    }

    method ReclaimStale(now: int) returns (count: nat)
      modifies this
      ensures Value() == Reclaimed(old(Value()), now)
      ensures count == |set id <- old(rows) | old(rows)[id].StaleBefore(now - RECLAIM_TIMEOUT)|
    {
      var cutoff := now - RECLAIM_TIMEOUT;
      var where := (id: nat, r: Row) => r.StaleBefore(cutoff);
      count := Affected(rows, where);
      assert (set id <- rows | where(id, rows[id])) == set id <- rows | rows[id].StaleBefore(cutoff);
      rows := Updated(rows, where, (r: Row) => r.(status := Pending, startedAt := 0, lease := ""));
    }
  }
}
