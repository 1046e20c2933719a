// A JSON reader for rumors and seals: what the laws of double wrapping ask of a host can be met.
module RumorReader {
  import opened Wrappers
  import opened Octets
  import opened JsonReader
  import opened Nip59
  import Json
  import Nip44
  import Utf8

  // The text after a literal it must start with.
  function After(t: string, literal: string): (r: Option<string>)
    ensures r.Some? ==> t == literal + r.value
  {
    if literal <= t then Some(t[|literal|..]) else None
  }

  function ReadRumor(text: string): Option<Rumor> {
    var t1 :- After(text, "{\"id\":");
    var (id, t2) :- ReadString(t1);
    var t3 :- After(t2, ",\"pubkey\":");
    var (pubkey, t4) :- ReadString(t3);
    var t5 :- After(t4, ",\"kind\":");
    var (kind, t6) :- ReadNumber(t5);
    var t7 :- After(t6, ",\"content\":");
    var (content, t8) :- ReadString(t7);
    var t9 :- After(t8, ",\"created_at\":");
    var (createdAt, t10) :- ReadNumber(t9);
    var t11 :- After(t10, ",\"tags\":");
    var (tags, t12) :- ReadLists(t11);
    if t12 == "}" then Some(Rumor(id, pubkey, kind, content, createdAt, tags)) else None
  }

  function ReadSeal(text: string): Option<SealDict> {
    var t1 :- After(text, "{\"id\":");
    var (_, t2) :- ReadString(t1);
    var t3 :- After(t2, ",\"pubkey\":");
    var (pubkey, t4) :- ReadString(t3);
    var t5 :- After(t4, ",\"kind\":");
    var (kind, t6) :- ReadNumber(t5);
    var t7 :- After(t6, ",\"content\":");
    var (content, t8) :- ReadString(t7);
    var t9 :- After(t8, ",\"created_at\":");
    var (_, t10) :- ReadNumber(t9);
    var t11 :- After(t10, ",\"tags\":");
    var (_, t12) :- ReadLists(t11);
    var t13 :- After(t12, ",\"sig\":");
    var (_, t14) :- ReadString(t13);
    if t14 == "}" then Some(SealDict(Some(kind), Some(pubkey), Some(content))) else None
  }

  lemma AfterLiteral(literal: string, rest: string)
    ensures After(literal + rest, literal) == Some(rest)
  {
    assert (literal + rest)[|literal|..] == rest;
  }

  // Every rumor, whatever its texts and numbers, is read back from what was printed.
  lemma RumorIsRead(r: Rumor)
    ensures ReadRumor(RumorText(r)) == Some(r)
  {
    hide ReadString, ReadNumber, ReadLists, After, Json.String, Json.Number, Json.Lists;
    var u12 := "}";
    var u11 := Json.Lists(r.tags) + u12;
    var u10 := ",\"tags\":" + u11;
    var u9 := Json.Number(r.createdAt) + u10;
    var u8 := ",\"created_at\":" + u9;
    var u7 := Json.String(r.content) + u8;
    var u6 := ",\"content\":" + u7;
    var u5 := Json.Number(r.kind) + u6;
    var u4 := ",\"kind\":" + u5;
    var u3 := Json.String(r.pubkey) + u4;
    var u2 := ",\"pubkey\":" + u3;
    var u1 := Json.String(r.id) + u2;
    RumorParts(r);
    AfterLiteral("{\"id\":", u1);
    StringIsRead(r.id, u2);
    AfterLiteral(",\"pubkey\":", u3);
    StringIsRead(r.pubkey, u4);
    AfterLiteral(",\"kind\":", u5);
    NumberIsRead(r.kind, u6);
    AfterLiteral(",\"content\":", u7);
    StringIsRead(r.content, u8);
    AfterLiteral(",\"created_at\":", u9);
    NumberIsRead(r.createdAt, u10);
    AfterLiteral(",\"tags\":", u11);
    ListsAreRead(r.tags, u12);
  }

  lemma RumorParts(r: Rumor)
    ensures RumorText(r) == "{\"id\":" + (Json.String(r.id) + (",\"pubkey\":" + (Json.String(r.pubkey) + (",\"kind\":"
      + (Json.Number(r.kind) + (",\"content\":" + (Json.String(r.content) + (",\"created_at\":"
      + (Json.Number(r.createdAt) + (",\"tags\":" + (Json.Lists(r.tags) + "}")))))))))))
  {
    hide Json.Number, Json.Lists, Json.Escaped;
  }

  lemma SealParts(s: Seal)
    ensures SealText(s) == "{\"id\":" + (Json.String(s.id) + (",\"pubkey\":" + (Json.String(s.pubkey) + (",\"kind\":"
      + (Json.Number(SEAL_KIND) + (",\"content\":" + (Json.String(s.content) + (",\"created_at\":"
      + (Json.Number(s.createdAt) + (",\"tags\":" + (Json.Lists([]) + (",\"sig\":"
      + (Json.String(s.sig) + "}")))))))))))))
  {
    SealLiterals();
    hide Json.Number, Json.Lists, Json.String;
    var a, b, c, d := "{\"id\":", Json.String(s.id), ",\"pubkey\":", Json.String(s.pubkey);
    var e, f, g, h := ",\"kind\":", Json.Number(SEAL_KIND), ",\"content\":", Json.String(s.content);
    var i, j, k, l := ",\"created_at\":", Json.Number(s.createdAt), ",\"tags\":", Json.Lists([]);
    var m, n, o := ",\"sig\":", Json.String(s.sig), "}";
    assert SealText(s) == a + b + c + d + (e + f + g) + h + i + j + (k + l + m) + n + o;
    Fifteen(a, b, c, d, e, f, g, h, i, j, k, l, m, n, o);
  }

  lemma Fifteen(a: string, b: string, c: string, d: string, e: string, f: string, g: string, h: string, i: string,
                j: string, k: string, l: string, m: string, n: string, o: string)
    ensures a + b + c + d + (e + f + g) + h + i + j + (k + l + m) + n + o
         == a + (b + (c + (d + (e + (f + (g + (h + (i + (j + (k + (l + (m + (n + o)))))))))))))
  {
    Nested(a, b, c, d, e + f + g, h + (i + (j + (k + (l + (m + (n + o)))))));
    Nested(h, i, j, k + l + m, n, o);
    assert e + f + g + (h + (i + (j + (k + (l + (m + (n + o)))))))
        == e + (f + (g + (h + (i + (j + (k + (l + (m + (n + o)))))))));
    assert k + l + m + (n + o) == k + (l + (m + (n + o)));
    Front(a + b + c + d + (e + f + g), h, i, j, k + l + m, n, o);
  }

  lemma Nested(a: string, b: string, c: string, d: string, e: string, rest: string)
    ensures a + b + c + d + e + rest == a + (b + (c + (d + (e + rest))))
  {
  }

  lemma Front(x: string, a: string, b: string, c: string, d: string, e: string, f: string)
    ensures x + a + b + c + d + e + f == x + (a + b + c + d + e + f)
  {
  }

  lemma SealLiterals()
    ensures Json.Number(SEAL_KIND) == "13" && Json.Lists([]) == "[]"
    ensures ",\"kind\":13,\"content\":" == ",\"kind\":" + "13" + ",\"content\":"
    ensures ",\"tags\":[],\"sig\":" == ",\"tags\":" + "[]" + ",\"sig\":"
  {
    assert Json.Natural(1) == "1";
    assert Json.Natural(13) == Json.Natural(1) + "3";
    assert (seq(0, i requires 0 <= i < 0 => "")) == [];
  }

  lemma SealIsRead(s: Seal)
    ensures ReadSeal(SealText(s)) == Some(SealDict(Some(SEAL_KIND), Some(s.pubkey), Some(s.content)))
  {
    hide ReadString, ReadNumber, ReadLists, After, Json.String, Json.Number, Json.Lists;
    var u14 := "}";
    var u13 := Json.String(s.sig) + u14;
    var u12 := ",\"sig\":" + u13;
    var u11 := Json.Lists([]) + u12;
    var u10 := ",\"tags\":" + u11;
    var u9 := Json.Number(s.createdAt) + u10;
    var u8 := ",\"created_at\":" + u9;
    var u7 := Json.String(s.content) + u8;
    var u6 := ",\"content\":" + u7;
    var u5 := Json.Number(SEAL_KIND) + u6;
    var u4 := ",\"kind\":" + u5;
    var u3 := Json.String(s.pubkey) + u4;
    var u2 := ",\"pubkey\":" + u3;
    var u1 := Json.String(s.id) + u2;
    SealParts(s);
    AfterLiteral("{\"id\":", u1);
    StringIsRead(s.id, u2);
    AfterLiteral(",\"pubkey\":", u3);
    StringIsRead(s.pubkey, u4);
    AfterLiteral(",\"kind\":", u5);
    NumberIsRead(SEAL_KIND, u6);
    AfterLiteral(",\"content\":", u7);
    StringIsRead(s.content, u8);
    AfterLiteral(",\"created_at\":", u9);
    NumberIsRead(s.createdAt, u10);
    AfterLiteral(",\"tags\":", u11);
    ListsAreRead([], u12);
    AfterLiteral(",\"sig\":", u13);
    StringIsRead(s.sig, u14);
  }

  // ---- hosts ---------------------------------------------------------------------------------------------

  function RumorIn(bytes: seq<byte>): Option<Inner> {
    var text :- Utf8.Decoded(bytes);
    var rumor :- ReadRumor(text);
    Some(Object(rumor))
  }

  function SealIn(bytes: seq<byte>): Option<SealDict> {
    var text :- Utf8.Decoded(bytes);
    ReadSeal(text)
  }

  // Any host that reads with this reader reads back what it prints.
  lemma ReaderReadsBack(h: Host)
    ensures ReadsBack(h.(readRumor := RumorIn, readSeal := SealIn))
  {
    hide RumorText, SealText, ReadRumor, ReadSeal, PlainSeal;
    forall r ensures RumorIn(RumorJson(r)) == Some(Object(r)) {
      Utf8.DecodeEncode(RumorText(r));
      RumorIsRead(r);
    }
    forall s: Seal
      ensures SealIn(SealJson(s)) == Some(SealDict(Some(SEAL_KIND), Some(s.pubkey), Some(s.content)))
    {
      Utf8.DecodeEncode(SealText(s));
      SealIsRead(s);
    }
  }

  // So the printed forms of two rumors are never equal, nor those of seals that differ in what is read.
  lemma PrintedApart(q: Rumor, r: Rumor, s: Seal, t: Seal)
    ensures RumorJson(q) == RumorJson(r) <==> q == r
    ensures SealJson(s) == SealJson(t) ==> s.pubkey == t.pubkey && s.content == t.content
  {
    hide RumorText, SealText, ReadRumor, ReadSeal;
    Utf8.DecodeEncode(RumorText(q));
    Utf8.DecodeEncode(RumorText(r));
    RumorIsRead(q);
    RumorIsRead(r);
    Utf8.DecodeEncode(SealText(s));
    Utf8.DecodeEncode(SealText(t));
    SealIsRead(s);
    SealIsRead(t);
  }

  // Hosts as the laws of wrapping assume them exist.
  lemma HostExists(c: Nip44.Crypto) returns (h: Host)
    ensures h.crypto == c && PrintsHex(h) && AgreesOnKeys(h) && ReadsBack(h)
    ensures h.pub("").Some?
  {
    var key := seq(64, _ => '0');
    var sig := seq(128, _ => '0');
    var bare := Host(c, _ => Some(key), (_, _) => Some(ZeroBytes(32)), (_, _, _, _, _, _) => Signature(key, sig),
                     _ => None, _ => None);
    ReaderReadsBack(bare);
    h := bare.(readRumor := RumorIn, readSeal := SealIn);
  }
}
