// The receiving half of the mail bridge: one event becomes a row of the inbox or a stated refusal.
module MailBridge {
  import opened Wrappers
  import opened Events
  import opened Text
  import MailMessage
  import Nip44
  import Nip59
  import Octets

  // Foreign code a bridge calls: keys, encryption and JSON, signatures, UTF-8 decoding.
  datatype Env = Env(
    host: Nip59.Host, verify: (string, string, string) -> bool, text: seq<Octets.byte> -> Option<string>)

  // A mailbox as its bridge knows it.
  datatype Account = Account(priv: string, pubkey: string, owner: string, maxInbox: nat)

  datatype Mail = Mail(
    sender: string, from: string, to: string, subject: string, body: string, receivedAt: int,
    attachments: seq<MailMessage.Attachment>, owner: string, raw: Event)

  // Keyed by Message-ID, which is UNIQUE over all owners.
  type Inbox = map<string, Mail>

  // What varies from call to call: the clock, a Message-ID to draw, the accounts table, and the error
  // either of the two statements on the inbox raises.
  datatype Call = Call(now: int, freshId: string, accounts: map<string, string>,
                       countFault: Option<string>, insertFault: Option<string>)
  {
    predicate Faultless() {
      countFault == None && insertFault == None
    }
  }

  datatype Outcome =
    | Accepted
    | Refused(error: string, permanent: bool)
    | Raised(error: string)

  // ---- reading an event ------------------------------------------------------------------------

  datatype Reading =
    | IsMail(parsed: MailMessage.Parsed, sender: string)
    | NoMail(error: string)
    | Fails(error: string)

  // A text that parses without From and Subject may still be encrypted to us.
  function ReadContent(env: Env, a: Account, content: string, sender: string): Reading {
    var parsed := MailMessage.Parse(content);
    if parsed.from == "" && parsed.subject == "" && content != "" then
      match DecryptContent(env, a, content, sender)
      case Some(inner) => Complete(MailMessage.Parse(inner), sender)
      case None => NoMail("content not decrypted")
    else Complete(parsed, sender)
  }

  function DecryptContent(env: Env, a: Account, content: string, sender: string): Option<string> {
    match env.host.conv(a.priv, sender)
    case None => None
    case Some(key) =>
      match Nip44.Decrypt(env.host.crypto, content, key)
      case Ok(bytes) => env.text(bytes)
      case Err(_) => None
  }

  function Complete(parsed: MailMessage.Parsed, sender: string): Reading {
    if parsed.from == "" || parsed.subject == "" then NoMail("no From or no Subject") else IsMail(parsed, sender)
  }

  function ReadGiftWrap(env: Env, a: Account, e: Event): Reading {
    match Nip59.Unwrap(env.host, e, a.priv)
    case Err(error) => NoMail(error)
    case Ok((inside, sender)) => ReadInner(env, a, inside, sender)
  }

  // Outside the try: looking for a key in anything but an object raises, and so does parsing anything but
  // a text.
  function ReadInner(env: Env, a: Account, inside: Nip59.Inner, sender: string): Reading {
    match inside
    case NoObject => Fails("no attribute 'get'")
    case NoText(kind) =>
      if kind != Nip59.MAIL_KIND then NoMail("not a mail inside the gift wrap") else Fails("expected string")
    case Object(rumor) =>
      if rumor.kind != Nip59.MAIL_KIND then NoMail("not a mail inside the gift wrap")
      else ReadContent(env, a, rumor.content, sender)
  }

  function ReadPlain(env: Env, a: Account, e: Event): Reading {
    if !env.verify(e.pubkey, e.id, e.sig) then NoMail("invalid signature")
    else match Nip59.PTags(e.tags)
      case Err(error) => Fails(error)
      case Ok(tags) =>
        if a.pubkey !in tags then NoMail("no p-tag of ours") else ReadContent(env, a, e.content, e.pubkey)
  }

  function Read(env: Env, a: Account, e: Event): Reading {
    if e.kind == None then NoMail("no kind")
    else if e.kind == Some(Nip59.GIFT_WRAP_KIND) then ReadGiftWrap(env, a, e)
    else if e.kind == Some(Nip59.MAIL_KIND) then ReadPlain(env, a, e)
    else NoMail("kind not supported")
  }

  // ---- storing a mail ----------------------------------------------------------------------------

  // The owner of another mailbox of ours that the To address names.
  function OwnerForTo(a: Account, accounts: map<string, string>, address: string): Option<string> {
    if '@' !in address then None
    else if Strip(address) in accounts && accounts[Strip(address)] != a.owner then Some(accounts[Strip(address)])
    else None
  }

  function Target(a: Account, accounts: map<string, string>, to: string): string {
    var address := Strip(to);
    var other := if address == "" then None else OwnerForTo(a, accounts, address);
    if other.Some? && other.value != "" then other.value else a.owner
  }

  function Mailbox(inbox: Inbox, owner: string): set<string> {
    set id <- inbox | inbox[id].owner == owner
  }

  function MessageIdOf(parsed: MailMessage.Parsed, call: Call): string {
    if parsed.messageId != "" then parsed.messageId else call.freshId
  }

  function Row(a: Account, parsed: MailMessage.Parsed, sender: string, e: Event, call: Call): Mail {
    Mail(sender, parsed.from, parsed.to, parsed.subject, parsed.body, call.now, parsed.attachments,
         Target(a, call.accounts, parsed.to), e)
  }

  function Stored(a: Account, inbox: Inbox, parsed: MailMessage.Parsed, sender: string, e: Event, call: Call)
    : (Outcome, Inbox)
  {
    var row := Row(a, parsed, sender, e, call);
    var id := MessageIdOf(parsed, call);
    if call.countFault.Some? then (Raised(call.countFault.value), inbox)
    else if |Mailbox(inbox, row.owner)| >= a.maxInbox then (Refused("mailbox full", false), inbox)
    else if call.insertFault.Some? then (Raised(call.insertFault.value), inbox)
    else if id in inbox then (Refused("duplicate Message-ID", true), inbox)
    else (Accepted, inbox[id := row])
  }

  function Settled(a: Account, reading: Reading, inbox: Inbox, e: Event, call: Call): (Outcome, Inbox) {
    match reading
    case NoMail(error) => (Refused(error, true), inbox)
    case Fails(error) => (Raised(error), inbox)
    case IsMail(parsed, sender) => Stored(a, inbox, parsed, sender, e, call)
  }

  function Handled(env: Env, a: Account, inbox: Inbox, e: Event, call: Call): (Outcome, Inbox) {
    Settled(a, Read(env, a, e), inbox, e, call)
  }

  // What the caller sees: True, False or an exception.
  function Returned(o: Outcome): Result<bool, string> {
    match o
    case Accepted => Ok(true)
    case Refused(_, _) => Ok(false)
    case Raised(error) => Err(error)
  }

  // ---- the bridge object ---------------------------------------------------------------------------

  class Store {
    var inbox: Inbox

    constructor ()
      ensures inbox == map[]
    {
      inbox := map[];
    }

    method Count(owner: string) returns (n: nat)
      ensures n == |Mailbox(inbox, owner)|
    {
      n := |Mailbox(inbox, owner)|;
    }

    // INSERT OR IGNORE
    method Insert(id: string, row: Mail) returns (inserted: bool)
      modifies this
      ensures inserted == (id !in old(inbox))
      ensures inbox == if inserted then old(inbox)[id := row] else old(inbox)
    {
      inserted := id !in inbox;
      if inserted {
        inbox := inbox[id := row];
      }
    }
  }

  class Bridge {
    const account: Account
    const store: Store
    var lastError: string
    var lastErrorPermanent: bool

    constructor (account: Account, store: Store)
      ensures this.account == account && this.store == store && lastError == "" && !lastErrorPermanent
    {
      this.account, this.store := account, store;
      lastError, lastErrorPermanent := "", false;
    }

    // The reason and the permanence a call leaves behind.
    predicate Reports(o: Outcome)
      reads this
    {
      match o
      case Refused(error, permanent) => lastError == error && lastErrorPermanent == permanent
      case _ => lastError == "" && !lastErrorPermanent
    }

    method Refuse(error: string, permanent: bool)
      modifies this
      ensures lastError == error && lastErrorPermanent == permanent
    {
      lastError, lastErrorPermanent := error, permanent;
    }

    method HandleEvent(env: Env, e: Event, call: Call) returns (r: Result<bool, string>)
      modifies this, store
      ensures var (o, after) := Handled(env, account, old(store.inbox), e, call);
        store.inbox == after && Reports(o) && r == Returned(o)
        && (o.Refused? ==> lastError == o.error && lastErrorPermanent == o.permanent)
        && (!o.Refused? ==> lastError == "" && !lastErrorPermanent)
    {
      lastError, lastErrorPermanent := "", false;
      if e.kind == None {
        Refuse("no kind", true);
        return Ok(false);
      }
      if e.kind == Some(Nip59.GIFT_WRAP_KIND) {
        r := HandleGiftWrap(env, e, call);
      } else if e.kind == Some(Nip59.MAIL_KIND) {
        r := HandlePlain(env, e, call);
      } else {
        Refuse("kind not supported", true);
        r := Ok(false);
      }
    }

    method HandleGiftWrap(env: Env, e: Event, call: Call) returns (r: Result<bool, string>)
      requires e.kind == Some(Nip59.GIFT_WRAP_KIND) && lastError == "" && !lastErrorPermanent
      modifies this, store
      ensures var (o, after) := Handled(env, account, old(store.inbox), e, call);
        store.inbox == after && Reports(o) && r == Returned(o)
    {
      hide ReadContent, Nip59.Unwrap, Stored;
      match Nip59.Unwrap(env.host, e, account.priv) {
        case Err(error) =>
          Refuse(error, true);
          r := Ok(false);
        case Ok((inside, sender)) =>
          if inside.NoObject? {
            return Err("no attribute 'get'");
          }
          var kind := if inside.Object? then inside.rumor.kind else inside.kind;
          if kind != Nip59.MAIL_KIND {
            Refuse("not a mail inside the gift wrap", true);
            return Ok(false);
          }
          if inside.NoText? {
            return Err("expected string");
          }
          r := IngestMail(env, inside.rumor.content, sender, e, call);
      }
    }

    method HandlePlain(env: Env, e: Event, call: Call) returns (r: Result<bool, string>)
      requires e.kind == Some(Nip59.MAIL_KIND) && lastError == "" && !lastErrorPermanent
      modifies this, store
      ensures var (o, after) := Handled(env, account, old(store.inbox), e, call);
        store.inbox == after && Reports(o) && r == Returned(o)
    {
      hide ReadContent, Nip59.PTags, Stored;
      if !env.verify(e.pubkey, e.id, e.sig) {
        Refuse("invalid signature", true);
        return Ok(false);
      }
      match Nip59.PTags(e.tags) {
        case Err(error) => r := Err(error);
        case Ok(tags) =>
          if account.pubkey !in tags {
            Refuse("no p-tag of ours", true);
            return Ok(false);
          }
          r := IngestMail(env, e.content, e.pubkey, e, call);
      }
    }

    method IngestMail(env: Env, content: string, sender: string, e: Event, call: Call) returns (r: Result<bool, string>)
      requires lastError == "" && !lastErrorPermanent
      modifies this, store
      ensures var (o, after) := Settled(account, ReadContent(env, account, content, sender), old(store.inbox), e, call);
        store.inbox == after && Reports(o) && r == Returned(o)
    {
      hide MailMessage.Parse, Target;
      var parsed := MailMessage.ParseMail(content);
      if parsed.from == "" && parsed.subject == "" && content != "" {
        var inner := DecryptContent(env, account, content, sender);
        if inner == None {
          Refuse("content not decrypted", true);
          return Ok(false);
        }
        parsed := MailMessage.ParseMail(inner.value);
      }
      if parsed.from == "" || parsed.subject == "" {
        Refuse("no From or no Subject", true);
        return Ok(false);
      }
      var id := if parsed.messageId != "" then parsed.messageId else call.freshId;
      var owner := Target(account, call.accounts, parsed.to);
      if call.countFault.Some? {
        return Err(call.countFault.value);
      }
      var count := store.Count(owner);
      if count >= account.maxInbox {
        Refuse("mailbox full", false);
        return Ok(false);
      }
      if call.insertFault.Some? {
        return Err(call.insertFault.value);
      }
      var inserted := store.Insert(id, Row(account, parsed, sender, e, call));
      if inserted {
        return Ok(true);
      }
      Refuse("duplicate Message-ID", true);
      return Ok(false);
    }
  }
}
