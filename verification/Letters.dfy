// Effectively-once delivery of wrapped letters on a server with any number of mailboxes.
module Letters {
  import opened Wrappers
  import opened Events
  import opened MailQueue
  import opened MailBridge
  import opened Protocol
  import opened Delivery
  import opened WorkerRuns
  import opened Reception
  import MailMessage
  import MailRoundTrip
  import Nip44
  import Nip59
  import Worker

  // The mailboxes of a server by owner, each with the key pair of its owner.
  predicate IsTable(env: Env, table: map<string, Account>, maxInbox: nat) {
    forall b <- table ::
      table[b].owner == b && table[b].maxInbox == maxInbox && env.host.pub(table[b].priv) == Some(table[b].pubkey)
  }

  // The protocol's configuration for these mailboxes.
  function Configured(env: Env, table: map<string, Account>, maxInbox: nat, maxLoop: real, maxWait: nat): Config {
    Config((b, e) => if b in table then ReadId(env, table[b], e) else None, maxInbox, maxLoop, maxWait)
  }

  lemma ConfiguredDescribes(env: Env, table: map<string, Account>, maxInbox: nat, maxLoop: real, maxWait: nat,
                            todo: seq<Worker.Attempt>)
    requires IsTable(env, table, maxInbox)
    requires forall t <- todo :: t.account.owner in table && table[t.account.owner] == t.account
    ensures Describes(Configured(env, table, maxInbox, maxLoop, maxWait), env, todo)
  {
    hide ReadId;
  }

  // Every loop iteration of a worker of this server, whichever of its mailboxes it tries, is a run of the
  // protocol in this configuration; what is proved below of its runs holds of the server.
  lemma ServerIterationIsARun(env: Env, table: map<string, Account>, maxInbox: nat, maxLoop: real, maxWait: nat,
                              s: State, w: string, groups: set<string>, rid: nat, lease: string,
                              todo: seq<Worker.Attempt>, inbox: Inbox, t: real)
    returns (run: seq<Action>)
    requires IsTable(env, table, maxInbox)
    requires forall a <- todo :: a.account.owner in table && table[a.account.owner] == a.account
    requires w in s.procs && s.procs[w].Idle? && IsOldestMatch(s.db, Some(groups), rid)
    requires lease != "" && lease !in s.issued && s.inbox == Owners(inbox)
    requires Enabled(Configured(env, table, maxInbox, maxLoop, maxWait), s, Tick(t))
    ensures var c := Configured(env, table, maxInbox, maxLoop, maxWait);
      var (db, after) := Worker.Worked(env, s.db, inbox, rid, w, lease, todo, s.Wall(), t.Floor);
      && Valid(c, s, run)
      && var s' := Exec(c, s, run);
         s'.db == db && s'.inbox == Owners(after) && s'.procs == s.procs[w := Idle] && s'.now == t
  {
    hide Exec, Valid, Worker.Worked, Configured, IsTable, Owners, Describes;
    ConfiguredDescribes(env, table, maxInbox, maxLoop, maxWait, todo);
    run := IterationIsARun(Configured(env, table, maxInbox, maxLoop, maxWait), env, s, w, groups, rid, lease, todo,
                           inbox, t);
  }

  // A text that parses as a mail with this Message-ID.
  predicate IsLetter(text: string, mid: string) {
    var parsed := MailMessage.Parse(text);
    parsed.from != "" && parsed.subject != "" && parsed.messageId == mid != ""
  }

  // What build_mail prints from plain header values is such a text.
  lemma BuiltIsLetter(l: MailMessage.Letter, s: MailMessage.Stamp)
    requires l.attachments == [] && MailRoundTrip.HasHeaderValues(l, s) && MailMessage.Built(l, s).Ok?
    requires l.from != "" && l.subject != "" && MailMessage.MessageId(l, s) != ""
    ensures IsLetter(MailMessage.Built(l, s).value, MailMessage.MessageId(l, s))
  {
    hide MailMessage.Parse, MailMessage.Built, MailRoundTrip.HasHeaderValues, MailMessage.MessageId;
    MailRoundTrip.PlainRoundTrip(l, s);
  }

  // The gift wrap of a letter, for any recipient and with any random choices.
  ghost predicate IsWrapOf(env: Env, g: Event, sender: string, recipient: string, text: string,
                           tags: Option<seq<seq<string>>>, t: int, d: Nip59.Draw)
  {
    && env.host.pub(sender).Some? && env.host.pub(d.ephemeral).Some?
    && Nip59.WrapMail(env.host, sender, recipient, Nip59.MAIL_KIND, text, tags, t, d) == Ok(g)
  }

  lemma ReadByRecipient(env: Env, a: Account, g: Event, sender: string, text: string, mid: string,
                        tags: Option<seq<seq<string>>>, t: int, d: Nip59.Draw)
    requires Faithful(env.host) && env.host.pub(a.priv) == Some(a.pubkey) && IsLetter(text, mid)
    requires IsWrapOf(env, g, sender, a.pubkey, text, tags, t, d)
    ensures ReadId(env, a, g) == Some(mid)
  {
    hide Read, Nip59.WrapMail, Faithful, MailMessage.Parse;
    WrappedIsRead(env, a, sender, text, tags, t, d);
  }

  lemma NotReadByOthers(env: Env, a: Account, g: Event, sender: string, recipient: string, text: string,
                        tags: Option<seq<seq<string>>>, t: int, d: Nip59.Draw)
    requires env.host.pub(a.priv) != Some(recipient) && IsWrapOf(env, g, sender, recipient, text, tags, t, d)
    ensures ReadId(env, a, g) == None
  {
    hide Nip59.Unwrap, Nip59.MakeSeal, Nip44.Encrypt, Nip59.SealJson;
    var rumor := Nip59.CreateRumor(env.host.pub(sender).value, Nip59.MAIL_KIND, text, tags, t);
    Nip59.OthersAreRefused(env.host, rumor, sender, recipient, t, d, a.priv);
  }

  // Of all mailboxes exactly the recipient's reads the wrapped letter, so the letter is carried however
  // many other mailboxes the server has.
  lemma WrappedIsCarried(env: Env, table: map<string, Account>, maxInbox: nat, maxLoop: real, maxWait: nat,
                         g: Event, sender: string, recipient: string, text: string, mid: string,
                         tags: Option<seq<seq<string>>>, t: int, d: Nip59.Draw)
    requires Faithful(env.host) && IsTable(env, table, maxInbox) && IsLetter(text, mid)
    requires IsWrapOf(env, g, sender, recipient, text, tags, t, d)
    ensures var c := Configured(env, table, maxInbox, maxLoop, maxWait);
      && Carries(c, g, mid)
      && forall b <- table :: c.messageId(b, g) == if table[b].pubkey == recipient then Some(mid) else None
  {
    hide IsLetter, IsWrapOf, Faithful, ReadId;
    forall b | b in table
      ensures ReadId(env, table[b], g) == if table[b].pubkey == recipient then Some(mid) else None
    {
      if table[b].pubkey == recipient {
        ReadByRecipient(env, table[b], g, sender, text, mid, tags, t, d);
      } else {
        NotReadByOthers(env, table[b], g, sender, recipient, text, tags, t, d);
      }
    }
    assert mid != "" by { LetterHasId(text, mid); }
  }

  lemma LetterHasId(text: string, mid: string)
    requires IsLetter(text, mid)
    ensures mid != ""
  {
    hide MailMessage.Parse;
  }

  // A copy of a letter as it may wait in the queue: wrapped by anyone, for anyone, with any random choices.
  ghost predicate IsCopy(env: Env, g: Event, mid: string) {
    exists sender, recipient, text, tags, t, d ::
      IsLetter(text, mid) && IsWrapOf(env, g, sender, recipient, text, tags, t, d)
  }

  // However many copies of a letter are queued on a server with any mailboxes, and however workers,
  // reclaims and crashes interleave: while no user removes it, it is accepted at most once, at most one
  // queue row ends done for it, and then it is in the inbox.
  lemma LetterDeliveredOnce(env: Env, table: map<string, Account>, maxInbox: nat, maxLoop: real, maxWait: nat,
                            s: State, run: seq<Action>, mid: string)
    requires Faithful(env.host) && IsTable(env, table, maxInbox) && Starts(s)
    requires var c := Configured(env, table, maxInbox, maxLoop, maxWait);
      Valid(c, s, run) && Protocol.Count(c, s, run, MailDeleted(mid)) == 0
    ensures var c := Configured(env, table, maxInbox, maxLoop, maxWait);
      var t := Exec(c, s, run);
      && Protocol.Count(c, s, run, MailAccepted(mid)) <= 1
      && (forall r | DoneIn(t, r) && !DoneIn(s, r) && IsCopy(env, t.db.rows[r].payload, mid) :: mid in t.inbox)
      && (forall q, r | DoneIn(t, q) && !DoneIn(s, q) && IsCopy(env, t.db.rows[q].payload, mid)
                        && DoneIn(t, r) && !DoneIn(s, r) && IsCopy(env, t.db.rows[r].payload, mid) :: q == r)
  {
    hide Starts, Faithful, IsTable, Exec, Valid, Configured, Carries, Protocol.Count, IsLetter, IsWrapOf;
    var c := Configured(env, table, maxInbox, maxLoop, maxWait);
    var t := Exec(c, s, run);
    EffectivelyOnce(c, s, run, mid);
    forall r | DoneIn(t, r) && !DoneIn(s, r) && IsCopy(env, t.db.rows[r].payload, mid)
      ensures DeliveredIn(c, s, t, r, mid)
    {
      var g := t.db.rows[r].payload;
      var sender, recipient, text, tags, at, d :|
        IsLetter(text, mid) && IsWrapOf(env, g, sender, recipient, text, tags, at, d);
      WrappedIsCarried(env, table, maxInbox, maxLoop, maxWait, g, sender, recipient, text, mid, tags, at, d);
    }
  }
}
