// What handling an event does to the inbox, and how a letter reaches it.
module Reception {
  import opened Wrappers
  import opened Events
  import opened MailBridge
  import opened MailMessage
  import opened MailRoundTrip
  import opened MailAttachments
  import Nip44
  import Nip59
  import Octets
  import Text
  import Utf8

  // An event is accepted exactly when one new row appears, under its Message-ID, in a mailbox that was
  // below its quota; nothing else in the inbox changes, and any other outcome changes nothing.
  lemma AcceptedIsStored(env: Env, a: Account, inbox: Inbox, e: Event, call: Call)
    ensures var (o, after) := Handled(env, a, inbox, e, call);
      && (o != Accepted <==> after == inbox)
      && (o == Accepted ==>
            && Read(env, a, e).IsMail? && call.Faultless()
            && var r := Read(env, a, e);
               var id, row := MessageIdOf(r.parsed, call), Row(a, r.parsed, r.sender, e, call);
               && id !in inbox && after.Keys == inbox.Keys + {id} && after[id] == row
               && (forall other <- inbox :: after[other] == inbox[other])
               && |Mailbox(inbox, row.owner)| < a.maxInbox
               && |Mailbox(after, row.owner)| == |Mailbox(inbox, row.owner)| + 1
               && (forall owner :: owner != row.owner ==> Mailbox(after, owner) == Mailbox(inbox, owner)))
  {
    hide Read, Row, MessageIdOf, Mailbox;
    var (o, after) := Handled(env, a, inbox, e, call);
    if o == Accepted {
      var r := Read(env, a, e);
      var id, row := MessageIdOf(r.parsed, call), Row(a, r.parsed, r.sender, e, call);
      OneMore(inbox, id, row);
      assert id in after;
    }
  }

  lemma OneMore(inbox: Inbox, id: string, row: Mail)
    requires id !in inbox
    ensures var after := inbox[id := row];
      && |Mailbox(after, row.owner)| == |Mailbox(inbox, row.owner)| + 1
      && (forall owner :: owner != row.owner ==> Mailbox(after, owner) == Mailbox(inbox, owner))
  {
    var after := inbox[id := row];
    assert Mailbox(after, row.owner) == Mailbox(inbox, row.owner) + {id};
    forall owner | owner != row.owner ensures Mailbox(after, owner) == Mailbox(inbox, owner) {
      assert Mailbox(after, owner) <= Mailbox(inbox, owner);
      assert Mailbox(inbox, owner) <= Mailbox(after, owner);
    }
  }

  // The mailbox: when the To address, trimmed, is registered to an owner, that owner's, else the bridge's
  // own. It is that mailbox whose quota counts, and the row stored holds what was read and nothing else.
  lemma GoesToAddressee(env: Env, a: Account, inbox: Inbox, e: Event, call: Call)
    requires Read(env, a, e).IsMail?
    ensures
      var r, (o, after) := Read(env, a, e), Handled(env, a, inbox, e, call);
      var to, accounts := Text.Strip(r.parsed.to), call.accounts;
      var owner := if '@' in to && to in accounts && accounts[to] != "" then accounts[to] else a.owner;
      var id := if r.parsed.messageId == "" then call.freshId else r.parsed.messageId;
      && (o == Refused("mailbox full", false) <==>
            call.countFault == None && |set m <- inbox | inbox[m].owner == owner| >= a.maxInbox)
      && (o == Accepted ==> after == inbox[id :=
            Mail(r.sender, r.parsed.from, r.parsed.to, r.parsed.subject, r.parsed.body, call.now, r.parsed.attachments,
                 owner, e)])
  {
    hide Read, Text.Strip;
    NoAtInEmpty();
    StripTwice(Read(env, a, e).parsed.to);
  }

  lemma NoAtInEmpty()
    ensures '@' !in ""
  {
  }

  lemma StripTwice(s: string)
    ensures Text.Strip(Text.Strip(s)) == Text.Strip(s)
  {
    hide Text.Strip;
    Text.StripTrims(s);
    Text.TrimmedStaysSame(Text.Strip(s));
  }

  // An open mail is read only if its signature is valid and one of its p-tags names us; then its sender is
  // the key that signed it. Without a valid signature it is refused for good.
  lemma PlainIsAuthentic(env: Env, a: Account, inbox: Inbox, e: Event, call: Call)
    requires e.kind == Some(1301)
    ensures Read(env, a, e).IsMail? ==>
      && env.verify(e.pubkey, e.id, e.sig) && Read(env, a, e).sender == e.pubkey
      && exists t <- e.tags :: |t| > 1 && t[0] == "p" && t[1] == a.pubkey
    ensures !env.verify(e.pubkey, e.id, e.sig) ==>
      Handled(env, a, inbox, e, call) == (Refused("invalid signature", true), inbox)
  {
    hide MailMessage.Parse, DecryptContent;
    match Nip59.PTags(e.tags) {
      case Ok(tags) => PTagsAre(e.tags);
      case Err(_) =>
    }
  }

  // Content that is no mail as it stands is decrypted with the sender's conversation key and read again.
  lemma EncryptedContentIsRead(env: Env, a: Account, sender: string, key: Nip44.Bytes32, nonce: Nip44.Bytes32,
                               bytes: seq<Octets.byte>, text: string)
    requires env.host.conv(a.priv, sender) == Some(key) && 1 <= |bytes| <= 65535 && env.text(bytes) == Some(text)
    requires var content := Nip44.Encrypt(env.host.crypto, bytes, key, nonce).value;
      Parse(content).from == "" && Parse(content).subject == ""
    ensures var content := Nip44.Encrypt(env.host.crypto, bytes, key, nonce).value;
      ReadContent(env, a, content, sender) ==
        if Parse(text).from == "" || Parse(text).subject == "" then NoMail("no From or no Subject")
        else IsMail(Parse(text), sender)
  {
    hide Parse, Nip44.Encrypt, Nip44.Decrypt;
    Nip44.RoundTrip(env.host.crypto, bytes, key, nonce);
  }

  lemma {:induction false} PTagsAre(tags: seq<seq<string>>)
    requires Nip59.PTags(tags).Ok?
    ensures forall k :: k in Nip59.PTags(tags).value <==> exists t <- tags :: |t| > 1 && t[0] == "p" && t[1] == k
  {
    if tags != [] {
      PTagsAre(tags[1..]);
      assert tags == [tags[0]] + tags[1..];
      assert tags[0] in tags && forall t <- tags[1..] :: t in tags;
    }
  }

  // A refusal is worth repeating only when the mailbox is full.
  lemma OnlyFullIsTemporary(env: Env, a: Account, inbox: Inbox, e: Event, call: Call)
    ensures var (o, _) := Handled(env, a, inbox, e, call);
      (o.Refused? && !o.permanent) <==>
        && Read(env, a, e).IsMail? && call.countFault == None
        && |Mailbox(inbox, Target(a, call.accounts, Read(env, a, e).parsed.to))| >= a.maxInbox
  {
    hide Read, Target;
  }

  // An event that carries a Message-ID is never accepted twice, by any bridges, while its row stands.
  lemma NeverTwice(env: Env, a: Account, b: Account, inbox: Inbox, later: Inbox, e: Event, f: Event, call: Call,
                   again: Call)
    requires Handled(env, a, inbox, e, call).0 == Accepted
    requires Handled(env, a, inbox, e, call).1.Keys <= later.Keys
    requires Read(env, b, f).IsMail? && Read(env, b, f).parsed.messageId == Read(env, a, e).parsed.messageId != ""
    ensures Handled(env, b, later, f, again).0 != Accepted
    ensures Handled(env, b, later, f, again).1 == later
  {
    hide Read, Row, Mailbox;
  }

  // ---- from a letter to the inbox ------------------------------------------------------------------

  // Hosts that behave as the key, signature and JSON libraries promise.
  ghost predicate Faithful(h: Nip59.Host) {
    Nip59.PrintsHex(h) && Nip59.AgreesOnKeys(h) && Nip59.ReadsBack(h)
  }

  lemma WrappedIsRead(env: Env, a: Account, sender: string, text: string, tags: Option<seq<seq<string>>>, t: int,
                      d: Nip59.Draw)
    requires Faithful(env.host) && env.host.pub(a.priv) == Some(a.pubkey)
    requires env.host.pub(sender).Some? && env.host.pub(d.ephemeral).Some?
    requires Nip59.WrapMail(env.host, sender, a.pubkey, Nip59.MAIL_KIND, text, tags, t, d).Ok?
    ensures Read(env, a, Nip59.WrapMail(env.host, sender, a.pubkey, Nip59.MAIL_KIND, text, tags, t, d).value)
            == ReadContent(env, a, text, env.host.pub(sender).value)
  {
    hide Nip59.Unwrap, ReadContent, Nip59.MakeSeal, Nip44.Encrypt, Nip44.Decrypt;
    hide Nip59.PrintsHex, Nip59.AgreesOnKeys, Nip59.ReadsBack;
    var rumor := Nip59.CreateRumor(env.host.pub(sender).value, Nip59.MAIL_KIND, text, tags, t);
    Nip59.UnwrapWrap(env.host, rumor, sender, a.priv, t, d);
  }

  // A built letter, wrapped for a bridge, ends in the inbox with exactly its headers and its body.
  lemma LetterArrives(env: Env, a: Account, inbox: Inbox, call: Call,
                      sender: string, l: Letter, s: Stamp, tags: Option<seq<seq<string>>>, t: int, d: Nip59.Draw)
    requires Faithful(env.host) && env.host.pub(a.priv) == Some(a.pubkey)
    requires env.host.pub(sender).Some? && env.host.pub(d.ephemeral).Some?
    requires l.attachments == [] && HasHeaderValues(l, s) && Built(l, s).Ok?
    requires l.from != "" && l.subject != "" && MessageId(l, s) != "" && call.Faultless()
    requires Nip59.WrapMail(env.host, sender, a.pubkey, Nip59.MAIL_KIND, Built(l, s).value, tags, t, d).Ok?
    ensures
      var g := Nip59.WrapMail(env.host, sender, a.pubkey, Nip59.MAIL_KIND, Built(l, s).value, tags, t, d).value;
      var owner := Target(a, call.accounts, l.to);
      Handled(env, a, inbox, g, call) ==
        if |Mailbox(inbox, owner)| >= a.maxInbox then (Refused("mailbox full", false), inbox)
        else if MessageId(l, s) in inbox then (Refused("duplicate Message-ID", true), inbox)
        else (Accepted, inbox[MessageId(l, s) :=
          Mail(env.host.pub(sender).value, l.from, l.to, l.subject, l.body, call.now, [], owner, g)])
  {
    hide Nip59.WrapMail, Read, Parse, Built, HasHeaderValues, MessageId, Target, Faithful, MailText;
    WrappedIsRead(env, a, sender, Built(l, s).value, tags, t, d);
    PlainRoundTrip(l, s);
  }

  // The same for a letter with attachments: its body gains the list of links and loses trailing blanks.
  lemma LetterWithAttachmentsArrives(env: Env, a: Account, inbox: Inbox, call: Call,
                      sender: string, l: Letter, s: Stamp, tags: Option<seq<seq<string>>>, t: int, d: Nip59.Draw)
    requires Faithful(env.host) && env.host.pub(a.priv) == Some(a.pubkey)
    requires env.host.pub(sender).Some? && env.host.pub(d.ephemeral).Some?
    requires l.attachments != [] && Sendable(l, s) && Chosen(l, s) <= s.boundary && Built(l, s).Ok?
    requires l.from != "" && l.subject != "" && MessageId(l, s) != "" && call.Faultless()
    requires Nip59.WrapMail(env.host, sender, a.pubkey, Nip59.MAIL_KIND, Built(l, s).value, tags, t, d).Ok?
    ensures
      var g := Nip59.WrapMail(env.host, sender, a.pubkey, Nip59.MAIL_KIND, Built(l, s).value, tags, t, d).value;
      var owner := Target(a, call.accounts, l.to);
      Handled(env, a, inbox, g, call) ==
        if |Mailbox(inbox, owner)| >= a.maxInbox then (Refused("mailbox full", false), inbox)
        else if MessageId(l, s) in inbox then (Refused("duplicate Message-ID", true), inbox)
        else (Accepted, inbox[MessageId(l, s) :=
          Mail(env.host.pub(sender).value, l.from, l.to, l.subject, Text.RStripBy(BodyText(l), IsEdge), call.now,
               ReceivedUrls(WithUrl(l.attachments)) + ReceivedInlines(WithoutUrl(l.attachments)), owner, g)])
  {
    hide Nip59.WrapMail, Read, Parse, Built, HasHeaderValues, Packable, Chosen, MessageId, Target, Faithful, MailText;
    hide ReceivedUrls, ReceivedInlines;
    hide BodyText, Text.RStripBy;
    WrappedIsRead(env, a, sender, Built(l, s).value, tags, t, d);
    AttachmentsRoundTrip(l, s);
  }

  // ---- what cannot be sent ---------------------------------------------------------------------------

  function Filler(n: nat): (s: string)
    ensures |s| == n
  {
    seq(n, _ => 'x')
  }

  // Every letter has bodies that fill a mail to the 60000 bytes build_mail allows; none of these mails
  // can be wrapped.
  lemma CapIsNotEnough(h: Nip59.Host, l: Letter, s: Stamp, sender: string, recipient: string,
                       tags: Option<seq<seq<string>>>, t: int, d: Nip59.Draw) returns (body: string)
    requires Nip59.PrintsHex(h) && h.pub(sender).Some? && h.conv(sender, recipient).Some?
    requires h.pub(d.ephemeral).Some? && h.conv(d.ephemeral, recipient).Some?
    requires l.attachments == [] && |Utf8.Encode(Block(HeaderLines(l, s)))| <= 59998
    ensures var mail := Built(l.(body := body), s);
      && mail.Ok? && |Utf8.Encode(mail.value)| == 60000
      && Nip59.WrapMail(h, sender, recipient, Nip59.MAIL_KIND, mail.value, tags, t, d).Err?
  {
    hide Utf8.Encode, Block, HeaderLines, Nip59.WrapMail, Nip59.PrintsHex;
    var head := Block(HeaderLines(l, s));
    body := Filler(MAX_MAIL_SIZE - 2 - |Utf8.Encode(head)|);
    var big := l.(body := body);
    SameHeaders(l, s, body);
    Utf8.AsciiLength(body);
    Utf8.AsciiLength("\n\n");
    Utf8.EncodeConcat(head + "\n\n", body);
    Utf8.EncodeConcat(head, "\n\n");
    Nip59.LongMailsAreNotWrapped(h, sender, recipient, Nip59.MAIL_KIND, MailText(big, s), tags, t, d);
  }

  lemma SameHeaders(l: Letter, s: Stamp, body: string)
    ensures HeaderLines(l.(body := body), s) == HeaderLines(l, s)
  {
  }
}
