// The strings that name one key to the checking decoder.
module NpubStrings {
  import opened Wrappers
  import opened Text
  import opened Digits
  import opened Checksum
  import opened Bech32
  import opened KeyCodec

  // ---- the symbols of a key ------------------------------------------------------------------------

  lemma LastDigit(width: nat, ds: seq<nat>)
    requires ds != []
    ensures Value(width, ds) == Value(width, ds[..|ds| - 1]) * Pow2(width) + ds[|ds| - 1]
  {
  }

  lemma PowersUsed()
    ensures Pow2(4) == 16 && Pow2(5) == 32
  {
    assert Pow2(1) == 2 && Pow2(2) == 4 && Pow2(3) == 8;
  }

  // The encoder's 52 symbols of a key, their last four bits replaced by d.
  function KeySymbols(key: seq<nat>, d: nat): (vals: seq<nat>)
    requires Bytes(key) && |key| == 32 && d < 16
    ensures FiveBit(vals) && |vals| == 52 && vals[51] % 16 == d
  {
    SpareBits(key);
    var own := Regrouped(key, 8, 5, true);
    LastReplaced(own, d);
    own[51 := own[51] + d]
  }

  lemma LastReplaced(own: seq<nat>, d: nat)
    requires FiveBit(own) && |own| == 52 && own[51] % 16 == 0 && d < 16
    ensures var vals := own[51 := own[51] + d]; FiveBit(vals) && |vals| == 52 && vals[51] % 16 == d
  {
    assert own[51] == 0 || own[51] == 16;
  }

  // The encoder leaves the four bits of the last symbol that no byte fills at zero.
  lemma SpareBits(key: seq<nat>)
    requires Bytes(key) && |key| == 32
    ensures var own := Regrouped(key, 8, 5, true);
      && FiveBit(own) && |own| == 52 && own[51] % 16 == 0 && Value(5, own) == Value(8, key) * 16
  {
    hide Regrouped;
    BytesFit(key);
    RegroupedIs(key, 8, 5, true);
    var own := Regrouped(key, 8, 5, true);
    FiveBitFits(own);
    PowersUsed();
    LastDigit(5, own);
    LowBits(Value(5, own), Value(5, own[..51]), own[51], Value(8, key));
  }

  lemma LowBits(v: nat, w: nat, d: nat, k: nat)
    requires v == w * 32 + d && v == k * 16
    ensures d % 16 == 0
  {
  }

  lemma KeySymbolsDenote(key: seq<nat>, d: nat)
    requires Bytes(key) && |key| == 32 && d < 16
    ensures Value(5, KeySymbols(key, d)) == Value(8, key) * 16 + d
  {
    hide Regrouped;
    SpareBits(key);
    PowersUsed();
    var own, vals := Regrouped(key, 8, 5, true), KeySymbols(key, d);
    LastDigit(5, own);
    LastDigit(5, vals);
    assert vals[..51] == own[..51];
  }

  // 52 symbols denote a key exactly when they are the encoder's up to the last four bits.
  lemma SymbolsOfKey(key: seq<nat>, vals: seq<nat>)
    requires Bytes(key) && |key| == 32 && FiveBit(vals) && |vals| == 52
    ensures Regrouped(vals, 5, 8, false) == key <==> vals == KeySymbols(key, vals[51] % 16)
  {
    hide Regrouped, KeySymbols;
    BytesFit(key);
    FiveBitFits(vals);
    PowersUsed();
    var d := vals[51] % 16;
    var own := KeySymbols(key, d);
    KeySymbolsDenote(key, d);
    FiveBitFits(own);
    if vals == own {
      Settle(vals, 5, key, 8, false);
    } else if Regrouped(vals, 5, 8, false) == key {
      RegroupedIs(vals, 5, 8, false);
      LastDigit(5, vals);
      Remainder(Value(5, vals), Value(5, vals[..51]), vals[51], Value(8, key));
      ValueInjective(5, vals, own);
    }
  }

  lemma Remainder(v: nat, w: nat, d: nat, k: nat)
    requires v == w * 32 + d && k == v / 16
    ensures v == k * 16 + d % 16
  {
  }

  // ---- from strings to symbols -----------------------------------------------------------------------

  // Two valid strings with the same data symbols carry the same checksum symbols.
  lemma SameChecksum(hrp: string, vals: seq<nat>, sums: seq<nat>)
    requires FiveBit(vals) && FiveBit(sums) && |sums| == 6 && FiveBit(vals + sums)
    requires Absorb(1, Expanded(hrp) + Words(vals + sums)) == 1
    ensures sums == CheckSymbols(hrp, vals)
  {
    hide Absorb, Expanded, Words, CheckSymbols;
    CheckSymbolsVerify(hrp, vals);
    var own := CheckSymbols(hrp, vals);
    var a, b := vals + sums, vals + own;
    if a != b {
      assert a[..|vals|] == b[..|vals|] && a[|vals| + 6..] == b[|vals| + 6..];
      WordsBurst(Expanded(hrp), a, b, |vals|);
    }
    assert sums == a[|vals|..] && own == b[|vals|..];
  }

  // What the checking decoder has seen in an npub it accepts: 52 symbols that regroup to the key, and
  // six that hold the checksum.
  lemma NpubParts(npub: string, keyHex: string) returns (vals: seq<nat>, sums: seq<nat>)
    requires Bare(npub) == npub && PubkeyOf(npub) == Some(keyHex)
    ensures var t := Lower(npub);
      && |t| == 63 && t[..4] == "npub" && t[4] == '1' && Readable(t[5..]) && Values(t[5..]) == vals + sums
    ensures FiveBit(vals) && FiveBit(sums) && FiveBit(vals + sums) && |vals| == 52 && |sums| == 6
    ensures Absorb(1, Expanded("npub") + Words(vals + sums)) == 1
    ensures var key := Regrouped(vals, 5, 8, false); |key| == 32 && Fits(8, key) && Bytes(key) && keyHex == ToHex(key)
  {
    hide Absorb, Expanded, Words, ToHex, Regrouped;
    var t := Lower(npub);
    var pos := LastIndex(t, '1');
    assert t[..pos] == "npub";
    assert pos == 4;
    var all := Values(t[5..]);
    FiveBitFits(all);
    vals, sums := all[..|all| - 6], all[|all| - 6..];
    FiveBitFits(vals);
    RegroupedIs(vals, 5, 8, false);
    assert |vals| == 52;
    assert all == vals + sums;
  }

  lemma PrefixIsLower()
    ensures Lower("npub") == "npub"
  {
  }

  lemma SpelledFrom(t: string, vals: seq<nat>)
    requires FiveBit(vals) && |t| >= 5 && t[..4] == "npub" && t[4] == '1' && Readable(t[5..])
    requires Values(t[5..]) == vals + CheckSymbols("npub", vals)
    ensures t == Spelled("npub", vals)
  {
    hide CheckSymbols, Spelled, Values, Lower;
    PrefixIsLower();
    SpelledParts("npub", vals);
    var s := Spelled("npub", vals);
    ValuesInjective(t[5..], s[5..]);
    assert t == t[..4] + [t[4]] + t[5..] && s == s[..4] + [s[4]] + s[5..];
  }

  // What the checking decoder accepts as an npub is the spelling of its 52 symbols.
  lemma AcceptedIsSpelled(npub: string, keyHex: string) returns (vals: seq<nat>)
    requires Bare(npub) == npub && PubkeyOf(npub) == Some(keyHex)
    ensures FiveBit(vals) && |vals| == 52 && Lower(npub) == Spelled("npub", vals)
    ensures var t := Lower(npub); |t| == 63 && Readable(t[5..]) && Values(t[5..])[51] == vals[51]
    ensures var key := Regrouped(vals, 5, 8, false); |key| == 32 && Bytes(key) && keyHex == ToHex(key)
  {
    var sums: seq<nat>;
    vals, sums := NpubParts(npub, keyHex);
    hide Absorb, Expanded, Words, ToHex, CheckSymbols, Spelled, PubkeyOf, Regrouped, Values, Lower, Readable, Bare;
    SameChecksum("npub", vals, sums);
    SpelledFrom(Lower(npub), vals);
    assert (vals + sums)[51] == vals[51];
  }

  lemma SpellingIsRead(npub: string, key: seq<nat>, vals: seq<nat>)
    requires FiveBit(vals) && Bare(npub) == npub && Lower(npub) == Spelled("npub", vals)
    requires Regrouped(vals, 5, 8, false) == key && Bytes(key) && |key| == 32
    ensures PubkeyOf(npub) == Some(ToHex(key))
  {
    hide Spelled, Regrouped, ToHex, Bare, Lower, Decoded;
    PrefixIsLower();
    SpellingIsDecoded("npub", vals);
    SpelledParts("npub", vals);
    SameCase(npub, Spelled("npub", vals));
  }

  lemma SameCase(s: string, t: string)
    requires Lower(s) == Lower(t)
    ensures Decoded(s) == Decoded(t)
  {
    hide Lower;
  }

  // ---- sixteen strings -----------------------------------------------------------------------------------

  function NpubSpelling(key: seq<nat>, d: nat): string
    requires Bytes(key) && |key| == 32 && d < 16
  {
    Spelled("npub", KeySymbols(key, d))
  }

  // The checking decoder reads a key in exactly sixteen strings: the four bits it ignores are free, and
  // the checksum follows them.
  lemma SixteenStrings(npub: string, key: seq<nat>)
    requires Bare(npub) == npub && Bytes(key) && |key| == 32
    ensures PubkeyOf(npub) == Some(ToHex(key)) <==> exists d :: 0 <= d < 16 && Lower(npub) == NpubSpelling(key, d)
  {
    hide Spelled, Regrouped, ToHex, FromHex, Bare, Lower, PubkeyOf, KeySymbols;
    if PubkeyOf(npub) == Some(ToHex(key)) {
      var vals := AcceptedIsSpelled(npub, ToHex(key));
      FromToHex(key);
      FromToHex(Regrouped(vals, 5, 8, false));
      SymbolsOfKey(key, vals);
      assert Lower(npub) == NpubSpelling(key, vals[51] % 16);
    }
    if d :| 0 <= d < 16 && Lower(npub) == NpubSpelling(key, d) {
      SymbolsOfKey(key, KeySymbols(key, d));
      SpellingIsRead(npub, key, KeySymbols(key, d));
    }
  }

  // Each of the sixteen is an npub as it stands.
  lemma SpellingIsBare(key: seq<nat>, d: nat)
    requires Bytes(key) && |key| == 32 && d < 16
    ensures var s := NpubSpelling(key, d); |s| == 63 && Bare(s) == s && Lower(s) == s
  {
    hide Spelled, Regrouped, Lower, Bare, CheckSymbols, KeySymbols, Trimmed;
    PrefixIsLower();
    SpelledParts("npub", KeySymbols(key, d));
    PlainSpelling("npub", KeySymbols(key, d));
    PlainStays(NpubSpelling(key, d));
  }

  // So every key is read in sixteen strings, only one of which is ever printed.
  lemma AllSixteenAreRead(key: seq<nat>, d: nat)
    requires Bytes(key) && |key| == 32 && d < 16
    ensures PubkeyOf(NpubSpelling(key, d)) == Some(ToHex(key))
  {
    hide NpubSpelling, PubkeyOf, ToHex, Bare, Lower;
    SpellingIsBare(key, d);
    SixteenStrings(NpubSpelling(key, d), key);
  }

  lemma SpelledInjective(a: seq<nat>, b: seq<nat>)
    requires FiveBit(a) && FiveBit(b) && |a| == |b| && Spelled("npub", a) == Spelled("npub", b)
    ensures a == b
  {
    hide Spelled, Lower, CheckSymbols, Values, SplitsAt;
    PrefixIsLower();
    SpelledParts("npub", a);
    SpelledParts("npub", b);
    assert (a + CheckSymbols("npub", a))[..|a|] == a && (b + CheckSymbols("npub", b))[..|b|] == b;
  }

  // No two of them are equal, and the first is what the encoder prints.
  lemma SpellingsDiffer(key: seq<nat>, d: nat, d': nat)
    requires Bytes(key) && |key| == 32 && d < 16 && d' < 16
    ensures NpubSpelling(key, d) == NpubSpelling(key, d') <==> d == d'
    ensures Fits(8, key) && NpubSpelling(key, 0) == Encoded("npub", key)
  {
    hide Spelled, Regrouped;
    if NpubSpelling(key, d) == NpubSpelling(key, d') {
      SpelledInjective(KeySymbols(key, d), KeySymbols(key, d'));
    }
    BytesFit(key);
    SpareBits(key);
    assert KeySymbols(key, 0) == Regrouped(key, 8, 5, true);
  }

  // Encoding the decoded key gives back the string that was read exactly when the four bits are zero.
  lemma NpubIsCanonical(npub: string, keyHex: string)
    requires Bare(npub) == npub && PubkeyOf(npub) == Some(keyHex)
    ensures var t := Lower(npub);
      |t| == 63 && Readable(t[5..]) && (NpubOf(keyHex) == Some(t) <==> Values(t[5..])[51] % 16 == 0)
  {
    var vals := AcceptedIsSpelled(npub, keyHex);
    hide Spelled, Regrouped, ToHex, FromHex, NpubOf, PubkeyOf, Values, Lower, Bare, KeySymbols, Encoded, Readable;
    var key := Regrouped(vals, 5, 8, false);
    FromToHex(key);
    NpubIsEncoding(keyHex, key);
    SymbolsOfKey(key, vals);
    SpellingsDiffer(key, vals[51] % 16, 0);
  }
}
