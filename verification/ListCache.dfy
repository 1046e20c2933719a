// The cache of inbox lists one web process keeps, and the handlers that fill and drop it.
module ListCache {
  import opened Wrappers
  import Text

  const TTL: real := 5.0

  // A row of the inbox table; `archived` may be NULL.
  datatype DbRow = DbRow(
    owner: string, messageId: string, from: string, to: string, subject: string, body: string,
    receivedAt: int, isRead: int, archived: Option<int>)

  type Inbox = map<nat, DbRow>

  // The columns of a list row.
  datatype ListRow = ListRow(
    id: nat, messageId: string, from: string, subject: string, body: string, receivedAt: int,
    isRead: int, archived: Option<int>)

  datatype Key = Key(kind: string, own: string, offset: nat, limit: nat, q: string, folder: string)

  datatype Listing = Listing(rows: seq<ListRow>, total: nat, unread: nat)

  // SQLite's LIKE for the text q between wildcards, and its order of rows by descending received_at.
  datatype Host = Host(like: (string, string) -> bool, order: Inbox -> seq<ListRow>)

  // ---- the direct query ----------------------------------------------------------------------------

  predicate IsArchived(r: DbRow) {
    r.archived == Some(1)
  }

  predicate IsListed(r: DbRow) {
    r.archived == None || r.archived == Some(0)
  }

  predicate Selected(h: Host, r: DbRow, key: Key) {
    && r.owner == key.own
    && (if key.folder == "archive" then IsArchived(r) else IsListed(r))
    && (key.q == "" || h.like(key.q, r.subject) || h.like(key.q, r.body) || h.like(key.q, r.from)
        || h.like(key.q, r.to))
  }

  function Hits(h: Host, db: Inbox, key: Key): Inbox {
    map id | id in db && Selected(h, db[id], key) :: db[id]
  }

  function UnreadOf(hits: Inbox): set<nat> {
    set id <- hits | hits[id].isRead == 0
  }

  function Page(rows: seq<ListRow>, offset: nat, limit: nat): seq<ListRow> {
    var from := if offset < |rows| then offset else |rows|;
    var to := if from + limit < |rows| then from + limit else |rows|;
    rows[from..to]
  }

  function Direct(h: Host, db: Inbox, key: Key): Listing {
    var hits := Hits(h, db, key);
    Listing(Page(h.order(hits), key.offset, key.limit), |hits|, |UnreadOf(hits)|)
  }

  function Clipped(s: string, n: nat): string {
    if |Text.Strip(s)| <= n then Text.Strip(s) else Text.Strip(s)[..n]
  }

  // The key of a request, its parameters brought into range.
  function KeyOf(own: string, offset: int, limit: int, q: string, folder: string): Key {
    Key("in", own, if offset > 0 then offset else 0, if limit < 1 then 1 else if limit > 100 then 100 else limit,
        Clipped(q, 120), Clipped(folder, 20))
  }

  // ---- the cache as a value ------------------------------------------------------------------------

  datatype Entry = Entry(ts: real, listing: Listing)

  type Cache = map<Key, Entry>

  function Usable(cache: Cache, key: Key, now: real): Option<Listing> {
    if key in cache && now - cache[key].ts <= TTL then Some(cache[key].listing) else None
  }

  function Invalidated(cache: Cache, owner: string): Cache {
    map k | k in cache && k.own != owner :: cache[k]
  }

  function Answer(h: Host, db: Inbox, cache: Cache, key: Key, now: real): Listing {
    var found := Usable(cache, key, now);
    if found.Some? then found.value else Direct(h, db, key)
  }

  function CacheAfter(h: Host, db: Inbox, cache: Cache, key: Key, now: real): Cache {
    if Usable(cache, key, now).Some? then cache else cache[key := Entry(now, Direct(h, db, key))]
  }

  // What a list row looks like in the response: flags become booleans.
  function Shown(r: ListRow): ListRow {
    r.(isRead := if r.isRead != 0 then 1 else 0,
       archived := if r.archived == None || r.archived == Some(0) then Some(0) else Some(1))
  }

  // ---- the cache in place ----------------------------------------------------------------------------

  // A row dictionary.
  class Cell {
    var row: ListRow

    constructor (row: ListRow)
      ensures this.row == row
    {
      this.row := row;
    }
  }

  function Rows(cells: seq<Cell>): (rows: seq<ListRow>)
    reads cells
    ensures |rows| == |cells|
  {
    seq(|cells|, i requires 0 <= i < |cells| reads cells => cells[i].row)
  }

  datatype Item = Item(ts: real, rows: seq<Cell>, total: nat, unread: nat)

  method NewCells(rows: seq<ListRow>) returns (cells: seq<Cell>)
    ensures Rows(cells) == rows && fresh(cells)
  {
    cells := [];
    for i := 0 to |rows|
      invariant |cells| == i && fresh(cells)
      invariant forall k :: 0 <= k < i ==> cells[k].row == rows[k]
    {
      var c := new Cell(rows[i]);
      cells := cells + [c];
    }
  }

  // r = dict(r), then the flags of the copy are set.
  method ShownCopies(rows: seq<Cell>) returns (out: seq<Cell>)
    ensures |out| == |rows| && fresh(out) && forall i :: 0 <= i < |out| ==> out[i].row == Shown(rows[i].row)
  {
    out := [];
    for i := 0 to |rows|
      invariant |out| == i && fresh(out)
      invariant forall k :: 0 <= k < |rows| ==> rows[k].row == old(rows[k].row)
      invariant forall k :: 0 <= k < i ==> out[k].row == Shown(rows[k].row)
    {
      var r := new Cell(rows[i].row);
      r.row := Shown(r.row);
      out := out + [r];
    }
  }

  class MailLists {
    var entries: map<Key, Item>

    ghost function Cells(): set<object>
      reads this
    {
      set k, c | k in entries && c in entries[k].rows :: c
    }

    ghost function Value(): Cache
      reads this, Cells()
    {
      map k | k in entries :: Entry(entries[k].ts, Listing(CellRows(k), entries[k].total, entries[k].unread))
    }

    ghost function CellRows(k: Key): seq<ListRow>
      requires k in entries
      reads this, Cells()
    {
      var cells := entries[k].rows;
      assert forall c <- cells :: c in Cells();
      Rows(cells)
    }

    constructor ()
      ensures Value() == map[]
    {
      entries := map[];
    }

    method Get(key: Key, now: real) returns (found: Option<Item>)
      modifies this
      ensures found.Some? <==> Usable(old(Value()), key, now).Some?
      ensures found.Some? ==> key in old(entries) && found == Some(old(entries)[key]) && entries == old(entries)
      ensures found.None? ==> entries == old(entries) - {key}
    {
      if key !in entries {
        return None;
      }
      if now - entries[key].ts > TTL {
        entries := entries - {key};
        return None;
      }
      return Some(entries[key]);
    }

    method Put(key: Key, now: real, rows: seq<Cell>, total: nat, unread: nat)
      modifies this
      ensures entries == old(entries)[key := Item(now, rows, total, unread)]
    {
      entries := entries[key := Item(now, rows, total, unread)];
    }

    method Invalidate(owner: string)
      modifies this
      ensures Value() == Invalidated(old(Value()), owner)
    {
      var dead := set k <- entries | k.own == owner;
      entries := entries - dead;
    }

    method Load(h: Host, db: Inbox, key: Key, now: real) returns (rows: seq<Cell>, total: nat, unread: nat)
      modifies this
      ensures Value() == CacheAfter(h, db, old(Value()), key, now)
      ensures Listing(Rows(rows), total, unread) == Answer(h, db, old(Value()), key, now)
    {
      hide Direct;
      var found := Get(key, now);
      if found.Some? {
        rows, total, unread := found.value.rows, found.value.total, found.value.unread;
      } else {
        var listing := Direct(h, db, key);
        rows := NewCells(listing.rows);
        total, unread := listing.total, listing.unread;
        Put(key, now, rows, total, unread);
        assert Value()[key] == Entry(now, listing);
      }
    }

    // GET /api/mails: the rows handed out are copies, so nothing done to them reaches the cache.
    method Mails(h: Host, db: Inbox, own: string, offset: int, limit: int, q: string, folder: string, now: real)
      returns (out: seq<Cell>, total: nat, unread: nat, hasMore: bool)
      modifies this
      ensures var key := KeyOf(own, offset, limit, q, folder);
        var answer := Answer(h, db, old(Value()), key, now);
        && Value() == CacheAfter(h, db, old(Value()), key, now)
        && |out| == |answer.rows| && (forall i :: 0 <= i < |out| ==> out[i].row == Shown(answer.rows[i]))
        && total == answer.total && unread == answer.unread && hasMore == (key.offset + |out| < total)
      ensures fresh(out) && Cells() !! (set c | c in out)
    {
      hide Direct, KeyOf, Answer, CacheAfter, Shown;
      var key := KeyOf(own, offset, limit, q, folder);
      var rows: seq<Cell>;
      rows, total, unread := Load(h, db, key, now);
      out := ShownCopies(rows);
      hasMore := key.offset + |out| < total;
    }
  }

  // ---- the handlers that write -------------------------------------------------------------------------

  datatype Write =
    | View(id: nat)
    | SetRead(id: nat, read: bool)
    | CleanRead(owner: string)
    | Delete(id: nat)
    | Archive(id: nat, archived: bool)

  // The mailbox a write concerns, None when the mail does not exist.
  function OwnerOf(db: Inbox, w: Write): Option<string> {
    if w.CleanRead? then Some(w.owner) else if w.id in db then Some(db[w.id].owner) else None
  }

  function Flag(b: bool): int {
    if b then 1 else 0
  }

  function Written(db: Inbox, w: Write): Inbox
    requires OwnerOf(db, w).Some?
  {
    match w
    case View(id) => db[id := db[id].(isRead := 1)]
    case SetRead(id, read) => db[id := db[id].(isRead := Flag(read))]
    case CleanRead(owner) => map id | id in db && !(db[id].owner == owner && db[id].isRead == 1) :: db[id]
    case Delete(id) => db - {id}
    case Archive(id, archived) => db[id := db[id].(archived := Some(Flag(archived)))]
  }

  function DbAfterWrite(db: Inbox, w: Write): Inbox {
    if OwnerOf(db, w).None? then db else Written(db, w)
  }

  function CacheAfterWrite(db: Inbox, cache: Cache, w: Write): Cache {
    if OwnerOf(db, w).None? then cache else Invalidated(cache, OwnerOf(db, w).value)
  }

  // A write shows in no list of another mailbox.
  lemma WriteIsLocal(h: Host, db: Inbox, w: Write, key: Key)
    requires OwnerOf(db, w) != Some(key.own)
    ensures Direct(h, DbAfterWrite(db, w), key) == Direct(h, db, key)
  {
    assert Hits(h, DbAfterWrite(db, w), key) == Hits(h, db, key);
  }

  // ---- what a list shows ---------------------------------------------------------------------------------

  // The list of a mailbox and its archive, searched or not.
  function ListKey(own: string, q: string): Key {
    Key("in", own, 0, 100, q, "")
  }

  function ArchiveKey(own: string, q: string): Key {
    Key("in", own, 0, 100, q, "archive")
  }

  // Archiving a mail takes it from the list into the archive, and taking it back the other way round.
  lemma ArchivingMoves(h: Host, db: Inbox, id: nat)
    requires id in db
    ensures var own := db[id].owner;
      var put, back := Written(db, Archive(id, true)), Written(db, Archive(id, false));
      && id in Hits(h, put, ArchiveKey(own, "")) && id !in Hits(h, put, ListKey(own, ""))
      && id !in Hits(h, back, ArchiveKey(own, "")) && id in Hits(h, back, ListKey(own, ""))
  {
  }

  // A mailbox's mails are divided between its list and its archive; no other mailbox's are in either.
  lemma ListsDivide(h: Host, db: Inbox, own: string)
    requires forall id <- db :: db[id].archived in {None, Some(0), Some(1)}
    ensures Direct(h, db, ListKey(own, "")).total + Direct(h, db, ArchiveKey(own, "")).total
            == |set id <- db | db[id].owner == own|
  {
    hide Hits, Direct;
    var list, archive := Hits(h, db, ListKey(own, "")), Hits(h, db, ArchiveKey(own, ""));
    var all := set id <- db | db[id].owner == own;
    TotalIs(h, db, ListKey(own, ""));
    TotalIs(h, db, ArchiveKey(own, ""));
    Listed(h, db, own);
    Divided(list.Keys, archive.Keys, all);
    assert all == set id <- db | db[id].owner == own;
  }

  lemma TotalIs(h: Host, db: Inbox, key: Key)
    ensures Direct(h, db, key).total == |Hits(h, db, key).Keys|
  {
    hide Hits;
    assert |Hits(h, db, key).Keys| == |Hits(h, db, key)|;
  }

  lemma Listed(h: Host, db: Inbox, own: string)
    ensures forall id :: id in Hits(h, db, ListKey(own, "")) <==>
              id in db && db[id].owner == own && (db[id].archived == None || db[id].archived == Some(0))
    ensures forall id :: id in Hits(h, db, ArchiveKey(own, "")) <==>
              id in db && db[id].owner == own && db[id].archived == Some(1)
  {
  }

  lemma Divided(a: set<nat>, b: set<nat>, all: set<nat>)
    requires a !! b && forall x :: x in all <==> x in a || x in b
    ensures |a| + |b| == |all|
  {
    assert all == a + b;
  }

  // A search finds the listed mails with the text in their subject, body, sender or recipient.
  lemma SearchNarrows(h: Host, db: Inbox, own: string, q: string, id: nat)
    requires q != "" && id in db
    ensures id in Hits(h, db, ListKey(own, q)) <==>
      && id in Hits(h, db, ListKey(own, ""))
      && (h.like(q, db[id].subject) || h.like(q, db[id].body) || h.like(q, db[id].from) || h.like(q, db[id].to))
  {
  }

  // A listing is the slice of the ordered mails that the key asks for, cut at their end, with the number of
  // all of them and of the unread ones.
  lemma ListingIs(h: Host, db: Inbox, key: Key, hits: Inbox)
    requires hits == Hits(h, db, key)
    ensures var all, l := h.order(hits), Direct(h, db, key);
      && (key.offset + key.limit <= |all| ==> l.rows == all[key.offset..key.offset + key.limit])
      && (key.offset <= |all| <= key.offset + key.limit ==> l.rows == all[key.offset..])
      && (key.offset >= |all| ==> l.rows == [])
      && l.total == |hits| && l.unread == |set id <- hits | hits[id].isRead == 0|
  {
    hide Hits;
    PageIs(h.order(hits), key.offset, key.limit);
    hide Page;
    assert UnreadOf(hits) == set id <- hits | hits[id].isRead == 0;
  }

  lemma PageIs(all: seq<ListRow>, offset: nat, limit: nat)
    ensures offset + limit <= |all| ==> Page(all, offset, limit) == all[offset..offset + limit]
    ensures offset <= |all| <= offset + limit ==> Page(all, offset, limit) == all[offset..]
    ensures offset >= |all| ==> Page(all, offset, limit) == []
  {
  }

  // The flags of a shown row: read or not, archived or not, NULL counting as not.
  lemma ShownIs(r: ListRow)
    ensures var s := Shown(r);
      && s.isRead in {0, 1} && (s.isRead == 1 <==> r.isRead != 0)
      && s.archived in {Some(0), Some(1)} && (s.archived == Some(1) <==> r.archived.Some? && r.archived.value != 0)
      && s.(isRead := r.isRead, archived := r.archived) == r
  {
  }

  // Pages of the same size lie end to end, and there is a next page exactly when `has_more` says so.
  lemma PagesJoin(rows: seq<ListRow>, offset: nat, limit: nat)
    requires limit > 0
    ensures var page := Page(rows, offset, limit);
      && page + Page(rows, offset + limit, limit) == Page(rows, offset, limit + limit) && |page| <= limit
      && (offset + |page| < |rows| <==> Page(rows, offset + |page|, 1) != [] && offset <= |rows|)
      && Page(rows, 0, |rows|) == rows
  {
  }

  // Parameters out of range are brought into it: 1 to 100 rows, no negative offset, 120 characters to
  // search for; a page of at most 100 rows within the list is what was asked for.
  lemma KeyIs(own: string, offset: int, limit: int, q: string, folder: string)
    ensures var key := KeyOf(own, offset, limit, q, folder);
      && key.kind == "in" && key.own == own && 1 <= key.limit <= 100 && (1 <= limit <= 100 ==> key.limit == limit)
      && (offset >= 0 ==> key.offset == offset) && (offset < 0 ==> key.offset == 0)
      && key.q <= Text.Strip(q) && (|Text.Strip(q)| <= 120 ==> key.q == Text.Strip(q)) && |key.q| <= 120
      && key.folder <= Text.Strip(folder) && |key.folder| <= 20
      && (|Text.Strip(folder)| <= 20 ==> key.folder == Text.Strip(folder))
  {
    hide Text.Strip;
  }

  // What a write does to the mail it names, and to no other.
  lemma WrittenMail(db: Inbox, id: nat, read: bool)
    requires id in db
    ensures Written(db, View(id)) == Written(db, SetRead(id, true)) == db[id := db[id].(isRead := 1)]
    ensures Written(db, SetRead(id, read))[id].isRead != 0 <==> read
    ensures Written(db, Delete(id)) == db - {id}
    ensures forall m <- db :: m in Written(db, CleanRead(db[id].owner)) <==>
              db[m].owner != db[id].owner || db[m].isRead != 1
  {
  }

  // One web process: the inbox table it shares with others, and its own lists.
  class Mailbox {
    var inbox: Inbox
    const lists: MailLists

    constructor (lists: MailLists)
      ensures this.lists == lists && inbox == map[]
    {
      this.lists := lists;
      inbox := map[];
    }

    // The mail's owner is looked up first: a missing mail is answered 404 and nothing is dropped.
    method MailDetail(id: nat) returns (found: bool)
      modifies this, lists
      ensures inbox == DbAfterWrite(old(inbox), View(id)) && found == OwnerOf(old(inbox), View(id)).Some?
      ensures lists.Value() == CacheAfterWrite(old(inbox), old(lists.Value()), View(id))
    {
      if id !in inbox {
        return false;
      }
      lists.Invalidate(inbox[id].owner);
      inbox := inbox[id := inbox[id].(isRead := 1)];
      return true;
    }

    method MailSetRead(id: nat, read: bool) returns (found: bool)
      modifies this, lists
      ensures inbox == DbAfterWrite(old(inbox), SetRead(id, read))
      ensures found == OwnerOf(old(inbox), SetRead(id, read)).Some?
      ensures lists.Value() == CacheAfterWrite(old(inbox), old(lists.Value()), SetRead(id, read))
    {
      if id !in inbox {
        return false;
      }
      inbox := inbox[id := inbox[id].(isRead := Flag(read))];
      lists.Invalidate(inbox[id].owner);
      return true;
    }

    method MailsClean(me: string) returns (deleted: nat)
      modifies this, lists
      ensures inbox == DbAfterWrite(old(inbox), CleanRead(me)) && deleted == |old(inbox)| - |inbox|
      ensures lists.Value() == CacheAfterWrite(old(inbox), old(lists.Value()), CleanRead(me))
    {
      var gone := set id <- inbox | inbox[id].owner == me && inbox[id].isRead == 1;
      var rest := inbox - gone;
      assert rest.Keys == inbox.Keys - gone && |rest.Keys| == |inbox.Keys| - |gone|;
      deleted := |gone|;
      inbox := rest;
      lists.Invalidate(me);
    }

    method MailDelete(id: nat) returns (found: bool)
      modifies this, lists
      ensures inbox == DbAfterWrite(old(inbox), Delete(id)) && found == OwnerOf(old(inbox), Delete(id)).Some?
      ensures lists.Value() == CacheAfterWrite(old(inbox), old(lists.Value()), Delete(id))
    {
      if id !in inbox {
        return false;
      }
      var owner := inbox[id].owner;
      inbox := inbox - {id};
      lists.Invalidate(owner);
      return true;
    }

    method MailArchive(id: nat, archived: bool) returns (found: bool)
      modifies this, lists
      ensures inbox == DbAfterWrite(old(inbox), Archive(id, archived))
      ensures found == OwnerOf(old(inbox), Archive(id, archived)).Some?
      ensures lists.Value() == CacheAfterWrite(old(inbox), old(lists.Value()), Archive(id, archived))
    {
      if id !in inbox {
        return false;
      }
      var owner := inbox[id].owner;
      inbox := inbox[id := inbox[id].(archived := Some(Flag(archived)))];
      lists.Invalidate(owner);
      return true;
    }
  }
}
