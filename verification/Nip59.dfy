// NIP-59: a rumor encrypted into a signed seal, and the seal into a gift wrap under a throwaway key.
module Nip59 {
  import opened Wrappers
  import opened Events
  import opened Octets
  import Base64
  import Json
  import Nip44
  import Utf8

  const SEAL_KIND: int := 13
  const GIFT_WRAP_KIND: int := 1059
  const MAIL_KIND: int := 1301

  datatype Rumor = Rumor(id: string, pubkey: string, kind: int, content: string, createdAt: int, tags: seq<seq<string>>)

  datatype Seal = Seal(id: string, pubkey: string, content: string, createdAt: int, sig: string)

  // What the receiver looks up in the seal it has read: absent keys are None.
  datatype SealDict = SealDict(kind: Option<int>, pubkey: Option<string>, content: Option<string>)

  datatype Signature = Signature(id: string, sig: string)

  // What JSON inside a seal may hold: an object, one whose content is not a text, or something else.
  // Keys an object lacks have whatever values make the receiver go the same way.
  datatype Inner =
    | Object(rumor: Rumor)
    | NoText(kind: int)
    | NoObject

  // secp256k1 and the JSON reader are foreign code. `pub` and `conv` give None where they raise.
  datatype Host = Host(
    crypto: Nip44.Crypto,
    pub: string -> Option<string>,
    conv: (string, string) -> Option<Nip44.Bytes32>,
    sign: (string, int, int, seq<seq<string>>, string, string) -> Signature,
    readSeal: seq<byte> -> Option<SealDict>,
    readRumor: seq<byte> -> Option<Inner>)

  // Keys, ids and signatures are hex text.
  ghost predicate PrintsHex(h: Host) {
    && (forall priv :: h.pub(priv).Some? ==> |h.pub(priv).value| == 64 && Json.Plain(h.pub(priv).value))
    && (forall p, t, k, tags, text, priv ::
          var s := h.sign(p, t, k, tags, text, priv);
          |s.id| == 64 && Json.Plain(s.id) && |s.sig| == 128 && Json.Plain(s.sig))
  }

  // Both ends of a pair of keys derive the same conversation key.
  ghost predicate AgreesOnKeys(h: Host) {
    forall a, b :: h.pub(a).Some? && h.pub(b).Some? ==>
      h.conv(a, h.pub(b).value).Some? && h.conv(a, h.pub(b).value) == h.conv(b, h.pub(a).value)
  }

  // json.loads reads back what json.dumps printed.
  ghost predicate ReadsBack(h: Host) {
    && (forall r :: h.readRumor(RumorJson(r)) == Some(Object(r)))
    && (forall s: Seal :: PlainSeal(s) ==>
          h.readSeal(SealJson(s)) == Some(SealDict(Some(SEAL_KIND), Some(s.pubkey), Some(s.content))))
  }

  // ---- JSON forms --------------------------------------------------------------------------------

  // What surrounds the escaped content in a rumor's JSON.
  function RumorHead(r: Rumor): string {
    "{\"id\":" + Json.String(r.id) + ",\"pubkey\":" + Json.String(r.pubkey) + ",\"kind\":" + Json.Number(r.kind)
    + ",\"content\":\""
  }

  function RumorTail(r: Rumor): string {
    "\",\"created_at\":" + Json.Number(r.createdAt) + ",\"tags\":" + Json.Lists(r.tags) + "}"
  }

  function RumorText(r: Rumor): string {
    RumorHead(r) + Json.Escaped(r.content) + RumorTail(r)
  }

  function RumorJson(r: Rumor): seq<byte> {
    Utf8.Encode(RumorText(r))
  }

  function SealText(s: Seal): string {
    "{\"id\":" + Json.String(s.id) + ",\"pubkey\":" + Json.String(s.pubkey) + ",\"kind\":13,\"content\":"
    + Json.String(s.content) + ",\"created_at\":" + Json.Number(s.createdAt) + ",\"tags\":[],\"sig\":"
    + Json.String(s.sig) + "}"
  }

  function SealJson(s: Seal): seq<byte> {
    Utf8.Encode(SealText(s))
  }

  predicate PlainSeal(s: Seal) {
    |s.id| == 64 && |s.pubkey| == 64 && |s.sig| == 128
    && Json.Plain(s.id) && Json.Plain(s.pubkey) && Json.Plain(s.content) && Json.Plain(s.sig)
  }

  // The seal adds 333 bytes and the digits of its timestamp to the inner payload.
  lemma SealLength(s: Seal)
    requires PlainSeal(s)
    ensures |SealJson(s)| == |s.content| + 333 + |Json.Number(s.createdAt)|
  {
    hide Json.Number, Json.String, Json.Plain, Utf8.Encode;
    Json.PlainString(s.id);
    Json.PlainString(s.pubkey);
    Json.PlainString(s.content);
    Json.PlainString(s.sig);
    Json.NumberIsAscii(s.createdAt);
    Utf8.AsciiLength(SealText(s));
  }

  // 343 bytes with a timestamp of ten digits.
  lemma SealLengthToday(s: Seal)
    requires PlainSeal(s) && 1000000000 <= s.createdAt < 10000000000
    ensures |SealJson(s)| == |s.content| + 343
  {
    hide SealJson, Json.Number;
    SealLength(s);
    Json.TenDigits(s.createdAt);
  }

  lemma RumorLength(r: Rumor)
    ensures |RumorJson(r)|
            == |Utf8.Encode(RumorHead(r))| + |Utf8.Encode(Json.Escaped(r.content))| + |Utf8.Encode(RumorTail(r))|
  {
    hide Utf8.Encode, Json.Escaped, RumorHead, RumorTail;
    Utf8.EncodeConcat(RumorHead(r) + Json.Escaped(r.content), RumorTail(r));
    Utf8.EncodeConcat(RumorHead(r), Json.Escaped(r.content));
  }

  // A JSON text is at least as long as the text of the mail inside it.
  lemma RumorIsNoShorter(r: Rumor)
    ensures |RumorJson(r)| >= |Utf8.Encode(r.content)| + 2
  {
    hide Utf8.Encode, Json.Escaped, Json.Number, Json.Lists, RumorJson;
    RumorLength(r);
    Json.EscapedIsNoShorter(r.content);
  }

  // The JSON of a mail adds 132 bytes, its timestamp and its tags to the escaped text.
  lemma MailRumorLength(r: Rumor)
    requires r.id == "" && |r.pubkey| == 64 && Json.Plain(r.pubkey) && r.kind == MAIL_KIND
    ensures |RumorJson(r)|
            == |Utf8.Encode(Json.Escaped(r.content))| + 132 + |Json.Number(r.createdAt)|
               + |Utf8.Encode(Json.Lists(r.tags))|
  {
    hide RumorJson, RumorHead, RumorTail, Utf8.Encode, Json.Number, Json.Lists;
    RumorLength(r);
    MailHead(r);
    MailTail(r);
  }

  lemma MailHead(r: Rumor)
    requires r.id == "" && |r.pubkey| == 64 && Json.Plain(r.pubkey) && r.kind == MAIL_KIND
    ensures |Utf8.Encode(RumorHead(r))| == 108
  {
    hide Json.String, Json.Plain, Json.Number, Utf8.Encode;
    assert Json.Plain("") by { EmptyIsPlain(); }
    Json.PlainString("");
    Json.PlainString(r.pubkey);
    Json.NumberIsAscii(MAIL_KIND);
    MailKindDigits();
    Utf8.AsciiLength(RumorHead(r));
  }

  lemma EmptyIsPlain()
    ensures Json.Plain("")
  {
  }

  lemma MailKindDigits()
    ensures |Json.Number(MAIL_KIND)| == 4
  {
    assert |Json.Natural(1)| == 1 && |Json.Natural(13)| == 2 && |Json.Natural(130)| == 3;
  }

  lemma MailTail(r: Rumor)
    ensures |Utf8.Encode(RumorTail(r))| == 24 + |Json.Number(r.createdAt)| + |Utf8.Encode(Json.Lists(r.tags))|
  {
    hide Json.Number, Json.Lists, Utf8.Encode;
    var front := "\",\"created_at\":" + Json.Number(r.createdAt) + ",\"tags\":";
    Json.NumberIsAscii(r.createdAt);
    Utf8.AsciiLength(front);
    Utf8.AsciiLength("}");
    Utf8.EncodeConcat(front, Json.Lists(r.tags) + "}");
    Utf8.EncodeConcat(Json.Lists(r.tags), "}");
    assert RumorTail(r) == front + (Json.Lists(r.tags) + "}");
  }

  // ---- wrap ----------------------------------------------------------------------------------------

  function CreateRumor(pubkey: string, kind: int, content: string, tags: Option<seq<seq<string>>>, at: int): Rumor {
    Rumor("", pubkey, kind, content, at, if tags.Some? then tags.value else [])
  }

  // The random choices of one wrap: the throwaway key, two nonces and the shift of the outer timestamp.
  datatype Draw = Draw(ephemeral: string, inner: Nip44.Bytes32, outer: Nip44.Bytes32, shift: int)

  function FromOption<T>(o: Option<T>, error: string): Result<T, string> {
    if o.Some? then Ok(o.value) else Err(error)
  }

  function MakeSeal(h: Host, rumor: Rumor, sender: string, recipient: string, t: int, nonce: Nip44.Bytes32)
    : Result<Seal, string>
  {
    var senderPub :- FromOption(h.pub(sender), "invalid private key");
    var key :- FromOption(h.conv(sender, recipient), "invalid public key");
    var content :- Nip44.Encrypt(h.crypto, RumorJson(rumor), key, nonce);
    var signed := h.sign(senderPub, t, SEAL_KIND, [], content, sender);
    Ok(Seal(signed.id, senderPub, content, t, signed.sig))
  }

  function Wrap(h: Host, rumor: Rumor, sender: string, recipient: string, t: int, d: Draw): Result<Event, string> {
    var seal :- MakeSeal(h, rumor, sender, recipient, t, d.inner);
    var ephemeralPub :- FromOption(h.pub(d.ephemeral), "invalid private key");
    var key :- FromOption(h.conv(d.ephemeral, recipient), "invalid public key");
    var content :- Nip44.Encrypt(h.crypto, SealJson(seal), key, d.outer);
    var tags := [["p", recipient]];
    var signed := h.sign(ephemeralPub, t + d.shift, GIFT_WRAP_KIND, tags, content, d.ephemeral);
    Ok(Event(signed.id, Some(GIFT_WRAP_KIND), ephemeralPub, tags, content, signed.sig))
  }

  function WrapMail(h: Host, sender: string, recipient: string, kind: int, content: string,
                    tags: Option<seq<seq<string>>>, t: int, d: Draw): Result<Event, string>
  {
    var senderPub :- FromOption(h.pub(sender), "invalid private key");
    Wrap(h, CreateRumor(senderPub, kind, content, tags, t), sender, recipient, t, d)
  }

  // ---- unwrap --------------------------------------------------------------------------------------

  predicate IsPTag(t: seq<string>) {
    t != [] && t[0] == "p"
  }

  function PTags(tags: seq<seq<string>>): Result<seq<string>, string> {
    if tags == [] then Ok([])
    else if !IsPTag(tags[0]) then PTags(tags[1..])
    else if |tags[0]| < 2 then Err("list index out of range")
    else
      var rest :- PTags(tags[1..]);
      Ok([tags[0][1]] + rest)
  }

  function Unwrap(h: Host, g: Event, priv: string): Result<(Inner, string), string> {
    var myPub :- FromOption(h.pub(priv), "invalid private key");
    var pTags :- PTags(g.tags);
    if pTags != [] && myPub !in pTags then Err("not addressed to us")
    else if g.pubkey == "" then Err("gift wrap without pubkey")
    else
      var outer :- FromOption(h.conv(priv, g.pubkey), "invalid public key");
      var sealJson :- Nip44.Decrypt(h.crypto, g.content, outer);
      var seal :- FromOption(h.readSeal(sealJson), "seal is not JSON");
      if seal.kind != Some(SEAL_KIND) then Err("seal expected")
      else
        var sender :- FromOption(seal.pubkey, "seal without pubkey");
        var inner :- FromOption(h.conv(priv, sender), "invalid public key");
        var content :- FromOption(seal.content, "seal without content");
        var rumorJson :- Nip44.Decrypt(h.crypto, content, inner);
        var inside :- FromOption(h.readRumor(rumorJson), "rumor is not JSON");
        Ok((inside, sender))
  }

  // ---- the exact size limit --------------------------------------------------------------------------

  const MAX_RUMOR: nat := 40960
  const MAX_OVERHEAD: nat := 10831

  // Length of the inner payload for a rumor of n bytes.
  function PayloadLength(n: nat): (len: nat)
    requires n > 0
  {
    (Nip44.CalcPaddedLen(n) + 69) / 3 * 4
  }

  predicate Pads(n: int) {
    Nip44.MIN_PLAINTEXT <= n <= Nip44.MAX_PLAINTEXT
  }

  lemma PaddedAround40960(n: nat)
    requires 1 <= n
    ensures n <= 40960 ==> Nip44.CalcPaddedLen(n) <= 40960
    ensures n > 40960 ==> Nip44.CalcPaddedLen(n) >= 49152
    ensures Nip44.CalcPaddedLen(40960) == 40960
  {
    Nip44.Powers();
    Nip44.NextPowerUnique(40959, 65536);
    Nip44.NextPowerUnique(40960, 65536);
    assert Nip44.CalcPaddedLen(40960) == 40960;
    assert Nip44.CalcPaddedLen(40961) == 49152;
    if n <= 40960 {
      Nip44.PaddingMonotone(n, 40960);
    } else {
      Nip44.PaddingMonotone(40961, n);
    }
  }

  // For any overhead the seal may have up to 10831 bytes, both paddings succeed exactly for rumors of
  // 1..40960 bytes; with one byte of overhead more, 40960 no longer fits.
  lemma WrapLimit(n: nat, overhead: nat)
    ensures overhead <= MAX_OVERHEAD ==>
      (Pads(n) && Pads(PayloadLength(n) + overhead) <==> 1 <= n <= 40960)
    ensures n > 40960 ==> !(Pads(n) && Pads(PayloadLength(n) + overhead))
    ensures !Pads(PayloadLength(40960) + 10832)
  {
    hide Nip44.CalcPaddedLen;
    if n >= 1 { PaddedAround40960(n); }
    PaddedAround40960(40960);
  }

  lemma PayloadIsPlain(h: Host, m: seq<byte>, key: Nip44.Bytes32, nonce: Nip44.Bytes32)
    requires Nip44.Encrypt(h.crypto, m, key, nonce).Ok?
    ensures Json.Plain(Nip44.Encrypt(h.crypto, m, key, nonce).value)
  {
    hide Nip44.Sealed, Nip44.Framed, Base64.Encoded;
    var e := Nip44.Sealed(h.crypto, m, key, nonce).value;
    Base64.EncodedIsPlain(Nip44.Framed(e));
  }

  lemma SealIs(h: Host, rumor: Rumor, sender: string, recipient: string, t: int, nonce: Nip44.Bytes32)
    requires PrintsHex(h) && h.pub(sender).Some? && h.conv(sender, recipient).Some?
    ensures var s := MakeSeal(h, rumor, sender, recipient, t, nonce);
      && (s.Ok? <==> Pads(|RumorJson(rumor)|))
      && (s.Ok? ==>
            && PlainSeal(s.value) && s.value.pubkey == h.pub(sender).value && s.value.createdAt == t
            && Nip44.Encrypt(h.crypto, RumorJson(rumor), h.conv(sender, recipient).value, nonce) == Ok(s.value.content)
            && |s.value.content| == PayloadLength(|RumorJson(rumor)|))
  {
    hide Nip44.Encrypt, Nip44.Decrypt, Nip44.CalcPaddedLen, RumorJson, Json.Plain;
    var key := h.conv(sender, recipient).value;
    Nip44.RoundTrip(h.crypto, RumorJson(rumor), key, nonce);
    if Pads(|RumorJson(rumor)|) {
      PayloadIsPlain(h, RumorJson(rumor), key, nonce);
      var content := Nip44.Encrypt(h.crypto, RumorJson(rumor), key, nonce).value;
      var signed := h.sign(h.pub(sender).value, t, SEAL_KIND, [], content, sender);
      assert Json.Plain(signed.id);
    }
  }

  // wrap succeeds exactly for rumors whose JSON takes 1..40960 bytes.
  lemma WrapSucceeds(h: Host, rumor: Rumor, sender: string, recipient: string, t: int, d: Draw)
    requires PrintsHex(h) && h.pub(sender).Some? && h.conv(sender, recipient).Some?
    requires h.pub(d.ephemeral).Some? && h.conv(d.ephemeral, recipient).Some?
    requires 333 + |Json.Number(t)| <= MAX_OVERHEAD
    ensures Wrap(h, rumor, sender, recipient, t, d).Ok? <==> 1 <= |RumorJson(rumor)| <= 40960
  {
    hide MakeSeal, Nip44.Encrypt, Nip44.Decrypt, Nip44.CalcPaddedLen, RumorJson, SealJson, Json.Number;
    SealIs(h, rumor, sender, recipient, t, d.inner);
    WrapLimit(|RumorJson(rumor)|, 333 + |Json.Number(t)|);
    var s := MakeSeal(h, rumor, sender, recipient, t, d.inner);
    if s.Ok? {
      SealLength(s.value);
      Nip44.RoundTrip(h.crypto, SealJson(s.value), h.conv(d.ephemeral, recipient).value, d.outer);
    }
  }

  // What a gift wrap shows and holds: outside only a throwaway key and the recipient, signed with that key;
  // inside a seal signed by the sender, whose content is the rumor.
  lemma WrapIs(h: Host, rumor: Rumor, sender: string, recipient: string, t: int, d: Draw) returns (s: Seal)
    requires PrintsHex(h) && Wrap(h, rumor, sender, recipient, t, d).Ok?
    ensures var g := Wrap(h, rumor, sender, recipient, t, d).value;
      && h.pub(d.ephemeral) == Some(g.pubkey) && g.kind == Some(1059) && g.tags == [["p", recipient]]
      && Signature(g.id, g.sig) == h.sign(g.pubkey, t + d.shift, 1059, g.tags, g.content, d.ephemeral)
      && h.conv(d.ephemeral, recipient).Some?
      && Nip44.Decrypt(h.crypto, g.content, h.conv(d.ephemeral, recipient).value) == Ok(SealJson(s))
      && h.pub(sender) == Some(s.pubkey) && s.createdAt == t
      && Signature(s.id, s.sig) == h.sign(s.pubkey, t, 13, [], s.content, sender)
      && h.conv(sender, recipient).Some?
      && Nip44.Decrypt(h.crypto, s.content, h.conv(sender, recipient).value) == Ok(RumorJson(rumor))
  {
    hide Nip44.Encrypt, Nip44.Decrypt, RumorJson, SealJson;
    s := MakeSeal(h, rumor, sender, recipient, t, d.inner).value;
    Nip44.RoundTrip(h.crypto, RumorJson(rumor), h.conv(sender, recipient).value, d.inner);
    Nip44.RoundTrip(h.crypto, SealJson(s), h.conv(d.ephemeral, recipient).value, d.outer);
  }

  // ---- receiving ---------------------------------------------------------------------------------------

  lemma OnlyRecipient(recipient: string)
    ensures PTags([["p", recipient]]) == Ok([recipient])
  {
    var tags := [["p", recipient]];
    assert tags[0] == ["p", recipient] && tags[1..] == [];
    assert [recipient] + [] == [recipient];
  }

  // Opening a gift wrap with the recipient's key gives back the rumor and the sender.
  lemma UnwrapWrap(h: Host, rumor: Rumor, sender: string, recipientPriv: string, t: int, d: Draw)
    requires PrintsHex(h) && AgreesOnKeys(h) && ReadsBack(h)
    requires h.pub(sender).Some? && h.pub(d.ephemeral).Some? && h.pub(recipientPriv).Some?
    requires Wrap(h, rumor, sender, h.pub(recipientPriv).value, t, d).Ok?
    ensures Unwrap(h, Wrap(h, rumor, sender, h.pub(recipientPriv).value, t, d).value, recipientPriv)
            == Ok((Object(rumor), h.pub(sender).value))
  {
    hide MakeSeal, Nip44.Encrypt, Nip44.Decrypt, Nip44.CalcPaddedLen, RumorJson, SealJson, Json.Plain;
    var recipient := h.pub(recipientPriv).value;
    var g := Wrap(h, rumor, sender, recipient, t, d).value;
    SealIs(h, rumor, sender, recipient, t, d.inner);
    var s := MakeSeal(h, rumor, sender, recipient, t, d.inner).value;
    Nip44.RoundTrip(h.crypto, RumorJson(rumor), h.conv(sender, recipient).value, d.inner);
    Nip44.RoundTrip(h.crypto, SealJson(s), h.conv(d.ephemeral, recipient).value, d.outer);
    OnlyRecipient(recipient);
    assert h.conv(recipientPriv, g.pubkey) == h.conv(d.ephemeral, recipient);
    assert h.conv(recipientPriv, s.pubkey) == h.conv(sender, recipient);
  }

  // A mail's recipient unwraps the unsigned event of the sender with the mail as its content.
  lemma MailIsUnwrapped(h: Host, sender: string, recipientPriv: string, content: string,
                        tags: Option<seq<seq<string>>>, t: int, d: Draw)
    requires PrintsHex(h) && AgreesOnKeys(h) && ReadsBack(h)
    requires h.pub(sender).Some? && h.pub(d.ephemeral).Some? && h.pub(recipientPriv).Some?
    requires WrapMail(h, sender, h.pub(recipientPriv).value, MAIL_KIND, content, tags, t, d).Ok?
    ensures var author := h.pub(sender).value;
      Unwrap(h, WrapMail(h, sender, h.pub(recipientPriv).value, MAIL_KIND, content, tags, t, d).value, recipientPriv)
      == Ok((Object(Rumor("", author, 1301, content, t, match tags case Some(ts) => ts case None => [])), author))
  {
    hide Wrap, Unwrap;
    UnwrapWrap(h, CreateRumor(h.pub(sender).value, MAIL_KIND, content, tags, t), sender, recipientPriv, t, d);
  }

  // Nobody else opens it: the p-tag names the recipient alone.
  lemma OthersAreRefused(h: Host, rumor: Rumor, sender: string, recipient: string, t: int, d: Draw, priv: string)
    requires h.pub(priv) != Some(recipient)
    requires Wrap(h, rumor, sender, recipient, t, d).Ok?
    ensures Unwrap(h, Wrap(h, rumor, sender, recipient, t, d).value, priv).Err?
  {
    hide MakeSeal, Nip44.Encrypt, Nip44.Decrypt, SealJson;
    var g := Wrap(h, rumor, sender, recipient, t, d).value;
    OnlyRecipient(recipient);
  }

  // The 60000-byte cap on a mail does not make it wrappable: no mail above 40958 bytes ever is.
  lemma LongMailsAreNotWrapped(h: Host, sender: string, recipient: string, kind: int, content: string,
                               tags: Option<seq<seq<string>>>, t: int, d: Draw)
    requires PrintsHex(h) && h.pub(sender).Some? && h.conv(sender, recipient).Some?
    requires h.pub(d.ephemeral).Some? && h.conv(d.ephemeral, recipient).Some?
    requires |Utf8.Encode(content)| > 40958
    ensures WrapMail(h, sender, recipient, kind, content, tags, t, d).Err?
  {
    hide MakeSeal, Nip44.Encrypt, Nip44.Decrypt, Nip44.CalcPaddedLen, RumorJson, SealJson, Json.Number;
    var rumor := CreateRumor(h.pub(sender).value, kind, content, tags, t);
    RumorIsNoShorter(rumor);
    SealIs(h, rumor, sender, recipient, t, d.inner);
    WrapLimit(|RumorJson(rumor)|, 333 + |Json.Number(t)|);
    var s := MakeSeal(h, rumor, sender, recipient, t, d.inner);
    if s.Ok? {
      SealLength(s.value);
      Nip44.RoundTrip(h.crypto, SealJson(s.value), h.conv(d.ephemeral, recipient).value, d.outer);
    }
  }

  function TagsOf(tags: Option<seq<seq<string>>>): seq<seq<string>> {
    if tags.Some? then tags.value else []
  }

  // A mail can be wrapped exactly when its escaped text leaves room for 132 bytes, the timestamp and
  // the tags within 40960 bytes.
  lemma MailIsWrapped(h: Host, sender: string, recipient: string, content: string,
                      tags: Option<seq<seq<string>>>, t: int, d: Draw)
    requires PrintsHex(h) && h.pub(sender).Some? && h.conv(sender, recipient).Some?
    requires h.pub(d.ephemeral).Some? && h.conv(d.ephemeral, recipient).Some?
    requires 333 + |Json.Number(t)| <= MAX_OVERHEAD
    ensures WrapMail(h, sender, recipient, MAIL_KIND, content, tags, t, d).Ok? <==>
      |Utf8.Encode(Json.Escaped(content))| + 132 + |Json.Number(t)| + |Utf8.Encode(Json.Lists(TagsOf(tags)))|
      <= 40960
  {
    hide Wrap, RumorJson, Json.Number, Utf8.Encode, Json.Escaped, Json.Lists, Json.Plain;
    var rumor := CreateRumor(h.pub(sender).value, MAIL_KIND, content, tags, t);
    MailRumorLength(rumor);
    WrapSucceeds(h, rumor, sender, recipient, t, d);
  }
}
