// Hexadecimal and bech32 forms of the 32-byte keys, and the checking decoders.
module KeyCodec {
  import opened Wrappers
  import opened Text
  import opened Digits
  import opened Checksum
  import opened Bech32

  // ---- hexadecimal -------------------------------------------------------------------------------

  predicate Bytes(data: seq<int>) {
    forall i :: 0 <= i < |data| ==> 0 <= data[i] < 256
  }

  lemma BytesFit(data: seq<int>)
    ensures Bytes(data) <==> Fits(8, data)
  {
    assert Pow2(5) == 32 && Pow2(6) == 64 && Pow2(7) == 128 && Pow2(8) == 256 by {
      assert Pow2(1) == 2 && Pow2(2) == 4 && Pow2(3) == 8 && Pow2(4) == 16;
    }
  }

  function ToHex(data: seq<nat>): (s: string)
    requires Bytes(data)
    ensures |s| == 2 * |data|
  {
    if data == [] then "" else [HexDigit(data[0] / 16), HexDigit(data[0] % 16)] + ToHex(data[1..])
  }

  // bytes.fromhex: white space is allowed between the pairs.
  function FromHex(s: string): (r: Option<seq<nat>>)
    ensures r.Some? ==> Bytes(r.value)
  {
    if s == "" then Some([])
    else if s[0] == ' ' || '\t' <= s[0] <= '\r' then FromHex(s[1..])
    else if |s| < 2 || HexValue(s[0]) < 0 || HexValue(s[1]) < 0 then None
    else match FromHex(s[2..])
      case None => None
      case Some(rest) => Some([16 * HexValue(s[0]) + HexValue(s[1])] + rest)
  }

  lemma {:induction false} FromToHex(data: seq<nat>)
    requires Bytes(data)
    ensures FromHex(ToHex(data)) == Some(data)
    decreases |data|
  {
    if data != [] {
      var s := ToHex(data);
      assert s[2..] == ToHex(data[1..]);
      FromToHex(data[1..]);
      assert HexValue(s[0]) == data[0] / 16 && HexValue(s[1]) == data[0] % 16;
      assert [data[0]] + data[1..] == data;
    }
  }

  // Upper-case digits are read as the lower-case ones, and blanks between the pairs are skipped.
  lemma {:induction false} FromUpperHex(data: seq<nat>, s: string)
    requires Bytes(data) && Lower(s) == ToHex(data)
    ensures FromHex(s) == Some(data)
    decreases |data|
  {
    if data == [] {
      assert s == "";
    } else {
      var t := ToHex(data);
      assert t[2..] == ToHex(data[1..]);
      assert Lower(s)[0] == LowerChar(s[0]) && Lower(s)[1] == LowerChar(s[1]) && Lower(s[2..]) == Lower(s)[2..];
      SameDigit(s[0]);
      SameDigit(s[1]);
      assert HexValue(t[0]) == data[0] / 16 && HexValue(t[1]) == data[0] % 16;
      FromUpperHex(data[1..], s[2..]);
      assert [data[0]] + data[1..] == data;
    }
  }

  lemma SameDigit(c: char)
    ensures HexValue(LowerChar(c)) == HexValue(c)
  {
  }

  lemma BlanksAreSkipped(blank: char, s: string)
    requires blank in {' ', 9 as char, 10 as char, 11 as char, 12 as char, 13 as char}
    ensures FromHex([blank] + s) == FromHex(s)
  {
    assert ([blank] + s)[1..] == s;
  }

  // ---- encoders ----------------------------------------------------------------------------------

  function NpubOf(pubkeyHex: string): Option<string> {
    match FromHex(pubkeyHex)
    case None => None
    case Some(data) => BytesFit(data); Some(Encoded("npub", data))
  }

  // The nsec encoder raises on anything but a 32-byte key.
  function NsecOf(privkeyHex: string): Option<string> {
    match FromHex(privkeyHex)
    case None => None
    case Some(data) => BytesFit(data); if |data| != 32 then None else Some(Encoded("nsec", data))
  }

  // The loops both encoders run: regroup, run the checksum over six zero symbols, append it.
  method Encode(hrp: string, data: seq<nat>) returns (s: string)
    requires Bytes(data)
    ensures Fits(8, data) && s == Encoded(hrp, data)
  {
    hide Absorb, Expanded;
    BytesFit(data);
    var vals := EightToFive(data);
    FiveBitFits(vals);
    var head := Expanded(hrp) + Words(vals);
    var register := Polymod(head + Zeros(6));
    var pm := Plus(register, 1);
    s := hrp + "1" + Chars(vals);
    var sums := Split(pm);
    SignatureIsSymbols(head);
    WordsOfNumbers(sums);
    var prefix := s;
    for i := 0 to 6
      invariant s == prefix + Chars(Numbers(sums))[..i]
    {
      assert Chars(Numbers(sums))[..i + 1] == Chars(Numbers(sums))[..i] + [CharOf(sums[i] as int)];
      s := s + [CharOf(sums[i] as int)];
    }
    assert Chars(Numbers(sums))[..6] == Chars(Numbers(sums));
  }

  method PubkeyToNpub(pubkeyHex: string) returns (npub: Option<string>)
    ensures npub == NpubOf(pubkeyHex)
  {
    match FromHex(pubkeyHex) {
      case None => return None;
      case Some(data) =>
        var s := Encode("npub", data);
        return Some(s);
    }
  }

  method HexToNsec(privkeyHex: string) returns (nsec: Option<string>)
    ensures nsec == NsecOf(privkeyHex)
  {
    match FromHex(privkeyHex) {
      case None => return None;
      case Some(data) =>
        if |data| != 32 {
          return None;
        }
        var s := Encode("nsec", data);
        return Some(s);
    }
  }

  // ---- the checking decoder ----------------------------------------------------------------------

  method Bech32Decode(s: string) returns (r: Option<(string, seq<nat>)>)
    ensures r == Decoded(s)
  {
    hide Absorb, Expanded, Words;
    var t := Lower(s);
    var pos := LastIndex(t, '1');
    if pos < 1 || pos + 7 > |t| {
      return None;
    }
    var hrp, data := t[..pos], t[pos + 1..];
    var vals := Values(data);
    if exists v <- vals :: v < 0 {
      assert !Readable(data) by {
        var v :| v in vals && v < 0;
        var i :| 0 <= i < |vals| && vals[i] == v;
        assert SymbolOf(data[i]) < 0;
      }
      return None;
    }
    assert Readable(data) by {
      forall i | 0 <= i < |data| ensures SymbolOf(data[i]) >= 0 { assert vals[i] in vals; }
    }
    var sum := Polymod(Expanded(hrp) + Words(vals));
    if sum != 1 {
      return None;
    }
    FiveBitFits(vals[..|vals| - 6]);
    var out := FiveToEight(vals[..|vals| - 6]);
    return Some((hrp, out));
  }

  function KeyIn(decoded: Option<(string, seq<nat>)>, hrp: string): Option<string> {
    if decoded.Some? && decoded.value.0 == hrp && |decoded.value.1| == 32 && Bytes(decoded.value.1)
    then Some(ToHex(decoded.value.1)) else None
  }

  function Bare(npub: string): string {
    Strip(Before(Strip(npub), '@'))
  }

  // _npub_to_pubkey, the second definition
  function PubkeyOf(npub: string): Option<string> {
    KeyIn(Decoded(Bare(npub)), "npub")
  }

  // A key pasted as 64 hexadecimal digits passes through in lower case.
  function PrivkeyOf(nsec: string): Option<string> {
    var s := Strip(nsec);
    if |s| == 64 && forall c <- s :: HexValue(c) >= 0 then Some(Lower(s)) else KeyIn(Decoded(s), "nsec")
  }

  // ---- round trips -------------------------------------------------------------------------------

  lemma PlainSpelling(hrp: string, vals: seq<nat>)
    requires hrp == "npub" || hrp == "nsec"
    requires FiveBit(vals) && |vals| == 52
    ensures |Spelled(hrp, vals)| == 63 && Trimmed(Spelled(hrp, vals)) && '@' !in Spelled(hrp, vals)
  {
    hide Absorb, Signature;
    assert Lower(hrp) == hrp;
    SpelledParts(hrp, vals);
    var s := Spelled(hrp, vals);
    var all := vals + CheckSymbols(hrp, vals);
    assert FiveBit(all);
    forall i | 4 < i < |s| ensures s[i] != '@' && !IsSpace(s[i]) {
      assert Values(s[5..])[i - 5] == all[i - 5] == SymbolOf(s[i]);
      CharOfIsPlain(all[i - 5]);
    }
  }

  lemma PlainEncoding(hrp: string, data: seq<nat>)
    requires hrp == "npub" || hrp == "nsec"
    requires Fits(8, data) && |data| == 32
    ensures |Encoded(hrp, data)| == 63 && Trimmed(Encoded(hrp, data)) && '@' !in Encoded(hrp, data)
  {
    hide Spelled, Regrouped;
    var vals := Regrouped(data, 8, 5, true);
    RegroupedIs(data, 8, 5, true);
    FiveBitFits(vals);
    PlainSpelling(hrp, vals);
  }

  lemma EncodedKey(hrp: string, key: seq<nat>)
    requires hrp == "npub" || hrp == "nsec"
    requires Bytes(key) && |key| == 32
    ensures Fits(8, key) && KeyIn(Decoded(Encoded(hrp, key)), hrp) == Some(ToHex(key))
  {
    hide Decoded, Encoded, ToHex;
    BytesFit(key);
    assert Lower(hrp) == hrp;
    DecodeEncode(hrp, key);
  }

  lemma PlainStays(s: string)
    requires Trimmed(s) && '@' !in s
    ensures Strip(s) == s && Bare(s) == s
  {
    TrimmedStaysSame(s);
    BeforeNone(s, '@');
  }

  lemma NpubIsEncoding(pubkeyHex: string, key: seq<nat>)
    requires FromHex(pubkeyHex) == Some(key)
    ensures Fits(8, key) && NpubOf(pubkeyHex) == Some(Encoded("npub", key))
  {
    hide Encoded;
    BytesFit(key);
  }

  lemma PubkeyOfEncoding(key: seq<nat>)
    requires Bytes(key) && |key| == 32
    ensures Fits(8, key) && PubkeyOf(Encoded("npub", key)) == Some(ToHex(key))
  {
    hide Decoded, Encoded, ToHex, Bare, KeyIn, Trimmed;
    EncodedKey("npub", key);
    PlainEncoding("npub", key);
    PlainStays(Encoded("npub", key));
  }

  // Every 32-byte key survives the npub form.
  lemma NpubRoundTrip(pubkeyHex: string, key: seq<nat>)
    requires FromHex(pubkeyHex) == Some(key) && |key| == 32
    ensures NpubOf(pubkeyHex).Some? && PubkeyOf(NpubOf(pubkeyHex).value) == Some(ToHex(key))
  {
    hide Encoded, FromHex, ToHex, NpubOf, PubkeyOf;
    NpubIsEncoding(pubkeyHex, key);
    PubkeyOfEncoding(key);
  }

  // An npub is read with blanks around it and with a domain after it just as well.
  lemma AddressIsRead(npub: string, domain: string, front: string, back: string)
    requires npub != "" && Trimmed(npub) && '@' !in npub
    requires (forall c <- front :: IsSpace(c)) && forall c <- back :: IsSpace(c)
    ensures PubkeyOf(front + (npub + ("@" + domain))) == PubkeyOf(npub) == PubkeyOf(front + (npub + back))
  {
    hide Decoded, KeyIn, IsSpace;
    PlainStays(npub);
    BareAddress(npub, "@" + domain, front);
    BareBlank(npub, back, front);
  }

  lemma FrontStripped(front: string, s: string)
    requires (forall c <- front :: IsSpace(c)) && s != "" && !IsSpace(s[0])
    ensures Strip(front + s) == RStripBy(s, IsSpace)
  {
    LStripConcat(front, s, IsSpace);
  }

  lemma BareAddress(npub: string, rest: string, front: string)
    requires npub != "" && Trimmed(npub) && '@' !in npub && rest != "" && rest[0] == '@'
    requires forall c <- front :: IsSpace(c)
    ensures Bare(front + (npub + rest)) == npub
  {
    FrontStripped(front, npub + rest);
    RStripConcat(npub, rest, IsSpace);
    AtStays(rest);
    CutAt(npub, RStripBy(rest, IsSpace));
    PlainStays(npub);
  }

  lemma {:induction false} AtStays(rest: string)
    requires rest != "" && rest[0] == '@'
    ensures RStripBy(rest, IsSpace) != "" && RStripBy(rest, IsSpace)[0] == '@'
    decreases |rest|
  {
    assert !IsSpace('@');
    if IsSpace(rest[|rest| - 1]) {
      AtStays(rest[..|rest| - 1]);
    }
  }

  lemma {:induction false} CutAt(npub: string, rest: string)
    requires '@' !in npub && rest != "" && rest[0] == '@'
    ensures Before(npub + rest, '@') == npub
  {
    if npub == "" {
      assert npub + rest == rest;
    } else {
      assert (npub + rest)[1..] == npub[1..] + rest && npub[0] in npub;
      CutAt(npub[1..], rest);
    }
  }

  lemma BareBlank(npub: string, back: string, front: string)
    requires npub != "" && Trimmed(npub) && '@' !in npub
    requires (forall c <- front :: IsSpace(c)) && forall c <- back :: IsSpace(c)
    ensures Bare(front + (npub + back)) == npub
  {
    FrontStripped(front, npub + back);
    RStripConcat(npub, back, IsSpace);
    NothingLeft(back);
    TrimmedStaysSame(npub);
    PlainStays(npub);
  }

  lemma {:induction false} NothingLeft(back: string)
    requires forall c <- back :: IsSpace(c)
    ensures RStripBy(back, IsSpace) == ""
    decreases |back|
  {
    if back != "" {
      assert back[|back| - 1] in back && forall c <- back[..|back| - 1] :: c in back;
      NothingLeft(back[..|back| - 1]);
    }
  }

  // A private key pasted in hex, in either case and with blanks around it, is taken as it is.
  lemma HexKeyIsTaken(nsec: string, key: seq<nat>)
    requires Bytes(key) && |key| == 32 && Lower(Strip(nsec)) == ToHex(key)
    ensures PrivkeyOf(nsec) == Some(ToHex(key))
  {
    hide Strip, Decoded, KeyIn;
    HexIsHex(key);
    var s := Strip(nsec);
    forall c | c in s ensures HexValue(c) >= 0 {
      var i :| 0 <= i < |s| && s[i] == c;
      assert Lower(s)[i] == LowerChar(c) && Lower(s)[i] in ToHex(key);
      SameDigit(c);
    }
  }

  lemma {:induction false} HexIsHex(key: seq<nat>)
    requires Bytes(key)
    ensures forall c <- ToHex(key) :: HexValue(c) >= 0
  {
    if key != [] {
      HexIsHex(key[1..]);
      assert HexValue(HexDigit(key[0] / 16)) >= 0 && HexValue(HexDigit(key[0] % 16)) >= 0;
    }
  }

  // Only such text is: anything else must be an nsec.
  lemma OtherKeysAreNsecs(nsec: string)
    requires |Strip(nsec)| != 64 || exists c <- Strip(nsec) :: HexValue(c) < 0
    ensures PrivkeyOf(nsec).Some? ==> Decoded(Strip(nsec)).Some? && Decoded(Strip(nsec)).value.0 == "nsec"
  {
    hide Strip, Decoded;
  }

  lemma NsecIsEncoding(privkeyHex: string, key: seq<nat>)
    requires FromHex(privkeyHex) == Some(key) && |key| == 32
    ensures Fits(8, key) && NsecOf(privkeyHex) == Some(Encoded("nsec", key))
  {
    hide Encoded;
    BytesFit(key);
  }

  lemma PrivkeyOfEncoding(key: seq<nat>)
    requires Bytes(key) && |key| == 32
    ensures Fits(8, key) && PrivkeyOf(Encoded("nsec", key)) == Some(ToHex(key))
  {
    hide Decoded, Encoded, ToHex, Strip, KeyIn, Trimmed;
    EncodedKey("nsec", key);
    PlainEncoding("nsec", key);
    PlainStays(Encoded("nsec", key));
  }

  // Every 32-byte private key survives the nsec form.
  lemma NsecRoundTrip(privkeyHex: string, key: seq<nat>)
    requires FromHex(privkeyHex) == Some(key) && |key| == 32
    ensures NsecOf(privkeyHex).Some? && PrivkeyOf(NsecOf(privkeyHex).value) == Some(ToHex(key))
  {
    hide Encoded, FromHex, ToHex, NsecOf, PrivkeyOf;
    NsecIsEncoding(privkeyHex, key);
    PrivkeyOfEncoding(key);
  }
}
