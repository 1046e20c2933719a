// Bech32 strings: the charset, the encoder, the checking decoder, and the corruption the checksum detects.
module Bech32 {
  import opened Wrappers
  import opened Text
  import opened Digits
  import opened Checksum

  // ---- symbols ---------------------------------------------------------------------------------

  // The charset qpzry9x8gf2tvdw0s3jn54khce6mua7l by position.
  function CharOf(v: nat): char
    requires v < 32
  {
    match v
    case 0 => 'q' case 1 => 'p' case 2 => 'z' case 3 => 'r'
    case 4 => 'y' case 5 => '9' case 6 => 'x' case 7 => '8'
    case 8 => 'g' case 9 => 'f' case 10 => '2' case 11 => 't'
    case 12 => 'v' case 13 => 'd' case 14 => 'w' case 15 => '0'
    case 16 => 's' case 17 => '3' case 18 => 'j' case 19 => 'n'
    case 20 => '5' case 21 => '4' case 22 => 'k' case 23 => 'h'
    case 24 => 'c' case 25 => 'e' case 26 => '6' case 27 => 'm' case 28 => 'u' case 29 => 'a' case 30 => '7'
    case _ => 'l'
  }

  // str.find in the charset.
  function SymbolOf(c: char): (v: int)
    ensures -1 <= v < 32
    ensures v >= 0 ==> CharOf(v) == c
  {
    match c
    case 'q' => 0 case 'p' => 1 case 'z' => 2 case 'r' => 3
    case 'y' => 4 case '9' => 5 case 'x' => 6 case '8' => 7
    case 'g' => 8 case 'f' => 9 case '2' => 10 case 't' => 11
    case 'v' => 12 case 'd' => 13 case 'w' => 14 case '0' => 15
    case 's' => 16 case '3' => 17 case 'j' => 18 case 'n' => 19
    case '5' => 20 case '4' => 21 case 'k' => 22 case 'h' => 23
    case 'c' => 24 case 'e' => 25 case '6' => 26 case 'm' => 27
    case 'u' => 28 case 'a' => 29 case '7' => 30 case 'l' => 31
    case _ => -1
  }

  lemma SymbolOfChar(v: nat)
    requires v < 32
    ensures SymbolOf(CharOf(v)) == v
  {
  }

  // No charset character is the separator, an upper-case letter, white space or an at sign.
  lemma CharOfIsPlain(v: nat)
    requires v < 32
    ensures CharOf(v) != '1' && LowerChar(CharOf(v)) == CharOf(v)
    ensures CharOf(v) != '@' && !IsSpace(CharOf(v))
  {
  }

  predicate Readable(s: string) {
    forall i :: 0 <= i < |s| ==> SymbolOf(s[i]) >= 0
  }

  function Values(s: string): (vals: seq<int>)
    ensures |vals| == |s| && forall i :: 0 <= i < |s| ==> -1 <= vals[i] < 32
    ensures Readable(s) ==> FiveBit(vals)
  {
    seq(|s|, i requires 0 <= i < |s| => SymbolOf(s[i]))
  }

  predicate FiveBit(vals: seq<int>) {
    forall i :: 0 <= i < |vals| ==> 0 <= vals[i] < 32
  }

  lemma FiveBitFits(vals: seq<int>)
    ensures FiveBit(vals) <==> Fits(5, vals)
  {
    assert Pow2(1) == 2 && Pow2(2) == 4 && Pow2(3) == 8 && Pow2(4) == 16 && Pow2(5) == 32;
  }

  function Chars(vals: seq<nat>): (s: string)
    requires FiveBit(vals)
    ensures |s| == |vals|
  {
    seq(|vals|, i requires 0 <= i < |vals| => CharOf(vals[i]))
  }

  lemma ValuesOfChars(vals: seq<nat>)
    requires FiveBit(vals)
    ensures Readable(Chars(vals)) && Values(Chars(vals)) == vals
  {
    forall i | 0 <= i < |vals| ensures SymbolOf(Chars(vals)[i]) == vals[i] {
      SymbolOfChar(vals[i]);
    }
  }

  lemma CharsOfValues(s: string)
    requires Readable(s)
    ensures Chars(Values(s)) == s
  {
  }

  function Words(vals: seq<int>): (ws: seq<bv30>)
    requires FiveBit(vals)
    ensures |ws| == |vals|
  {
    seq(|vals|, i requires 0 <= i < |vals| => vals[i] as bv30)
  }

  lemma WordFits(v: nat)
    requires v < 32
    ensures v as bv30 < 32 && (v as bv30) as int == v
  {
  }

  lemma WordsAreSymbols(vals: seq<int>)
    requires FiveBit(vals)
    ensures Symbols(Words(vals))
  {
    forall i | 0 <= i < |vals| ensures Words(vals)[i] < 32 { WordFits(vals[i]); }
  }

  function Numbers(ws: seq<bv30>): (vals: seq<nat>)
    ensures |vals| == |ws|
  {
    seq(|ws|, i requires 0 <= i < |ws| => ws[i] as int)
  }

  lemma NumberFits(w: bv30)
    requires w < 32
    ensures w as int < 32 && (w as int) as bv30 == w
  {
  }

  lemma WordsOfNumbers(ws: seq<bv30>)
    requires Symbols(ws)
    ensures FiveBit(Numbers(ws)) && Words(Numbers(ws)) == ws
  {
    forall i | 0 <= i < |ws| ensures Numbers(ws)[i] < 32 && Numbers(ws)[i] as bv30 == ws[i] { NumberFits(ws[i]); }
  }

  lemma WordsInjective(a: seq<int>, b: seq<int>)
    requires FiveBit(a) && FiveBit(b) && Words(a) == Words(b)
    ensures a == b
  {
    forall i | 0 <= i < |a| ensures a[i] == b[i] {
      WordFits(a[i]);
      WordFits(b[i]);
      assert Words(a)[i] == Words(b)[i];
    }
  }

  // The prefix as the checksum sees it: high bits of its characters, a zero, then their low five bits.
  function Expanded(hrp: string): seq<bv30> {
    seq(|hrp|, i requires 0 <= i < |hrp| => (hrp[i] as int / 32) as bv30) + [0]
    + seq(|hrp|, i requires 0 <= i < |hrp| => (hrp[i] as int % 32) as bv30)
  }

  // ---- bech32 strings ----------------------------------------------------------------------------

  function CheckSymbols(hrp: string, vals: seq<nat>): (c: seq<nat>)
    requires FiveBit(vals)
    ensures |c| == 6
  {
    Numbers(Signature(Expanded(hrp) + Words(vals)))
  }

  lemma CheckSymbolsVerify(hrp: string, vals: seq<nat>)
    requires FiveBit(vals)
    ensures FiveBit(CheckSymbols(hrp, vals)) && FiveBit(vals + CheckSymbols(hrp, vals))
    ensures Absorb(1, Expanded(hrp) + Words(vals + CheckSymbols(hrp, vals))) == 1
  {
    hide Absorb, Signature;
    var head := Expanded(hrp) + Words(vals);
    SignatureIsSymbols(head);
    WordsOfNumbers(Signature(head));
    SignatureVerifies(head);
    assert Expanded(hrp) + Words(vals + CheckSymbols(hrp, vals)) == head + Signature(head);
  }

  lemma SignatureIsSymbols(head: seq<bv30>)
    ensures Symbols(Signature(head))
  {
    PackedSplit(Plus(Absorb(1, head + Zeros(6)), 1));
  }

  // Human-readable part, separator, data symbols, checksum symbols.
  function Spelled(hrp: string, vals: seq<nat>): string
    requires FiveBit(vals)
  {
    CheckSymbolsVerify(hrp, vals);
    hrp + "1" + Chars(vals) + Chars(CheckSymbols(hrp, vals))
  }

  // The encoder.
  function Encoded(hrp: string, data: seq<nat>): string
    requires Fits(8, data)
  {
    var vals := Regrouped(data, 8, 5, true);
    FiveBitFits(vals);
    Spelled(hrp, vals)
  }

  // _bech32_decode
  function Decoded(s: string): Option<(string, seq<nat>)> {
    var t := Lower(s);
    var pos := LastIndex(t, '1');
    if pos < 1 || pos + 7 > |t| then None
    else
      var vals := Values(t[pos + 1..]);
      if !Readable(t[pos + 1..]) || Absorb(1, Expanded(t[..pos]) + Words(vals)) != 1 then None
      else Some((t[..pos], Regrouped(vals[..|vals| - 6], 5, 8, false)))
  }

  // What the decoder sees when the separator stands at `pos` of a lower-case string.
  predicate SplitsAt(t: string, pos: nat) {
    1 <= pos && pos + 7 <= |t| && t[pos] == '1' && Readable(t[pos + 1..])
  }

  lemma SplitIsLast(t: string, pos: nat)
    requires SplitsAt(t, pos)
    ensures LastIndex(t, '1') == pos
  {
    forall k | pos < k < |t| ensures t[k] != '1' {
      assert SymbolOf(t[pos + 1..][k - pos - 1]) >= 0;
    }
    LastIndexIs(t, '1', pos);
  }

  lemma DecodedAt(s: string, pos: nat)
    requires SplitsAt(Lower(s), pos)
    ensures var t := Lower(s);
      var vals := Values(t[pos + 1..]);
      Decoded(s) == if Absorb(1, Expanded(t[..pos]) + Words(vals)) == 1
                    then Some((t[..pos], Regrouped(vals[..|vals| - 6], 5, 8, false))) else None
  {
    hide Absorb, Regrouped, Lower, Words, Expanded, LastIndex;
    SplitIsLast(Lower(s), pos);
  }

  // Any symbols can be spelled with their checksum, and are decoded whatever bits are left over.
  lemma SpellingIsDecoded(hrp: string, vals: seq<nat>)
    requires hrp != "" && Lower(hrp) == hrp && FiveBit(vals)
    ensures Decoded(Spelled(hrp, vals)) == Some((hrp, Regrouped(vals, 5, 8, false)))
  {
    hide Absorb, Regrouped, Lower, Values, Words, Expanded, CheckSymbols, Spelled, Decoded;
    var sums := CheckSymbols(hrp, vals);
    CheckSymbolsVerify(hrp, vals);
    var s := Spelled(hrp, vals);
    var pos := |hrp|;
    SpelledParts(hrp, vals);
    DecodedAt(s, pos);
    assert Words(Values(s[pos + 1..])) == Words(vals + sums);
    assert (vals + sums)[..|vals|] == vals;
  }

  // Decoding an encoding gives back the human-readable part and the data, for data of any length.
  lemma DecodeEncode(hrp: string, data: seq<nat>)
    requires hrp != "" && Lower(hrp) == hrp && Fits(8, data)
    ensures Decoded(Encoded(hrp, data)) == Some((hrp, data))
  {
    hide Regrouped, Lower, Spelled, Decoded, IsRegrouping, Fits;
    var vals := Regrouped(data, 8, 5, true);
    FiveBitFits(vals);
    SpellingIsDecoded(hrp, vals);
    RegroupedIs(data, 8, 5, true);
    RegroupedIs(vals, 5, 8, false);
    RegroupRoundTrip(data, 8, vals, 5, Regrouped(vals, 5, 8, false));
  }

  lemma SpelledParts(hrp: string, vals: seq<nat>)
    requires hrp != "" && Lower(hrp) == hrp && FiveBit(vals)
    ensures var s := Spelled(hrp, vals);
      && SplitsAt(s, |hrp|) && Lower(s) == s && s[..|hrp|] == hrp
      && Values(s[|hrp| + 1..]) == vals + CheckSymbols(hrp, vals)
  {
    hide Absorb, Signature;
    CheckSymbolsVerify(hrp, vals);
    var all := vals + CheckSymbols(hrp, vals);
    var s := Spelled(hrp, vals);
    assert Chars(all) == Chars(vals) + Chars(CheckSymbols(hrp, vals));
    assert s == hrp + "1" + Chars(all);
    assert s[|hrp| + 1..] == Chars(all);
    ValuesOfChars(all);
    forall i | 0 <= i < |s| ensures LowerChar(s[i]) == s[i] {
      if i < |hrp| {
        assert Lower(hrp)[i] == hrp[i];
      } else if i > |hrp| {
        CharOfIsPlain(all[i - |hrp| - 1]);
      }
    }
  }

  // ---- detection ---------------------------------------------------------------------------------

  // Any corruption of a valid string confined to six adjacent data or checksum symbols, written in
  // charset symbols, is rejected; one wrong symbol and two swapped neighbours are special cases.
  lemma CorruptionIsRejected(s: string, s': string, pos: nat, at: nat)
    requires Decoded(s).Some? && SplitsAt(Lower(s), pos) && SplitsAt(Lower(s'), pos) && |s'| == |s|
    requires pos < at && at + 6 <= |s|
    requires Lower(s)[..at] == Lower(s')[..at] && Lower(s)[at + 6..] == Lower(s')[at + 6..]
    requires Lower(s) != Lower(s')
    ensures Decoded(s') == None
  {
    hide Absorb, Lower, Words, Values, Decoded, Expanded;
    var t, t' := Lower(s), Lower(s');
    TailsInWindow(t, t', pos, at);
    var u, u', d := t[pos + 1..], t'[pos + 1..], at - pos - 1;
    ValuesInjective(u, u');
    SameValues(u, u', d);
    WordsBurst(Expanded(t[..pos]), Values(u), Values(u'), d);
    AcceptedIffSum(s, pos);
    AcceptedIffSum(s', pos);
  }

  // One wrong charset symbol anywhere after the separator.
  lemma WrongSymbolIsRejected(s: string, pos: nat, k: nat, c: char)
    requires Decoded(s).Some? && SplitsAt(Lower(s), pos) && pos < k < |s|
    requires SymbolOf(c) >= 0 && c != Lower(s)[k]
    ensures Decoded(s[k := c]) == None
  {
    hide Decoded;
    var t, t' := Lower(s), Lower(s[k := c]);
    CharOfIsPlain(SymbolOf(c));
    assert t' == t[k := c];
    var u, u' := t[pos + 1..], t'[pos + 1..];
    forall i | 0 <= i < |u'| ensures SymbolOf(u'[i]) >= 0 {
      assert pos + 1 + i != k ==> u'[i] == u[i];
    }
    CorruptionIsRejected(s, s[k := c], pos, if k + 6 <= |s| then k else |s| - 6);
  }

  predicate SumHolds(hrp: string, tail: string)
    requires Readable(tail)
  {
    Absorb(1, Expanded(hrp) + Words(Values(tail))) == 1
  }

  lemma AcceptedIffSum(s: string, pos: nat)
    requires SplitsAt(Lower(s), pos)
    ensures Decoded(s).Some? <==> SumHolds(Lower(s)[..pos], Lower(s)[pos + 1..])
  {
    DecodedAt(s, pos);
  }

  lemma TailsInWindow(t: string, t': string, pos: nat, at: nat)
    requires |t'| == |t| && pos < at && at + 6 <= |t| && t[pos] == t'[pos] && t != t'
    requires t[..at] == t'[..at] && t[at + 6..] == t'[at + 6..]
    ensures var u, u', d := t[pos + 1..], t'[pos + 1..], at - pos - 1;
      t[..pos] == t'[..pos] && u != u' && u[..d] == u'[..d] && u[d + 6..] == u'[d + 6..]
  {
    assert t[..pos] == t[..at][..pos] && t'[..pos] == t'[..at][..pos];
    var u, u', d := t[pos + 1..], t'[pos + 1..], at - pos - 1;
    assert u[..d] == t[..at][pos + 1..] && u'[..d] == t'[..at][pos + 1..];
    assert u[d + 6..] == t[at + 6..] && u'[d + 6..] == t'[at + 6..];
    assert t == t[..pos] + [t[pos]] + u && t' == t'[..pos] + [t'[pos]] + u';
  }

  lemma ValuesInjective(u: string, u': string)
    requires Readable(u) && Readable(u')
    ensures Values(u) == Values(u') <==> u == u'
  {
    CharsOfValues(u);
    CharsOfValues(u');
  }

  lemma SameValues(u: string, u': string, d: nat)
    requires |u| == |u'| && d + 6 <= |u| && u[..d] == u'[..d] && u[d + 6..] == u'[d + 6..]
    ensures Values(u)[..d] == Values(u')[..d] && Values(u)[d + 6..] == Values(u')[d + 6..]
  {
    assert Values(u)[..d] == Values(u[..d]) && Values(u)[d + 6..] == Values(u[d + 6..]);
    assert Values(u')[..d] == Values(u'[..d]) && Values(u')[d + 6..] == Values(u'[d + 6..]);
  }

  lemma WordsSlices(v: seq<int>, d: nat)
    requires FiveBit(v) && d + 6 <= |v|
    ensures FiveBit(v[..d]) && Words(v)[..d] == Words(v[..d])
    ensures FiveBit(v[d + 6..]) && Words(v)[d + 6..] == Words(v[d + 6..])
    ensures Symbols(Words(v)[d..d + 6])
  {
    WordsAreSymbols(v);
  }

  lemma WordsBurst(head: seq<bv30>, v: seq<int>, v': seq<int>, d: nat)
    requires FiveBit(v) && FiveBit(v') && |v| == |v'| && d + 6 <= |v| && v != v'
    requires v[..d] == v'[..d] && v[d + 6..] == v'[d + 6..]
    ensures Absorb(1, head + Words(v)) != Absorb(1, head + Words(v'))
  {
    hide Absorb;
    var a, b := Words(v), Words(v');
    AbsorbConcat(1, head, a);
    AbsorbConcat(1, head, b);
    if a == b { WordsInjective(v, v'); }
    WordsSlices(v, d);
    WordsSlices(v', d);
    BurstIsDetected(Absorb(1, head), a, b, d);
  }

  // ---- known strings --------------------------------------------------------------------------------

  lemma Charset()
    ensures Chars([0, 1, 2, 3, 4, 5, 6, 7, 8, 9, 10, 11, 12, 13, 14, 15, 16, 17, 18, 19, 20, 21, 22, 23, 24, 25, 26, 27,
                   28, 29, 30, 31])
            == "qpzry9x8gf2tvdw0s3jn54khce6mua7l"
  {
  }

  lemma MixAt(chk: bv30)
    ensures var b := chk >> 25;
      var taps := Plus(Plus(Plus(Plus(Tap(b, 0), Tap(b, 1)), Tap(b, 2)), Tap(b, 3)), Tap(b, 4));
      Mix(chk) == Plus(Shifted(chk), taps)
  {
    TapsUnrolled(chk >> 25);
  }

  // The register steps that BIP-173's valid string A12UEL5L takes.
  predicate ListedStep(chk: bv30, v: bv30, next: bv30) {
    match chk
    case 1 => v == 3 && next == 0x23
    case 0x23 => v == 0 && next == 0x460
    case 0x460 => v == 1 && next == 0x8C01
    case 0x8C01 => v == 10 && next == 0x11802A
    case 0x11802A => v == 28 && next == 0x230055C
    case 0x230055C => v == 25 && next == 0x3D6AFC2B
    case 0x3D6AFC2B => v == 31 && next == 0x2F84386
    case 0x2F84386 => v == 20 && next == 0x24622766
    case _ => chk == 0x24622766 && v == 31 && next == 1
  }

  lemma Register(chk: bv30, v: bv30, next: bv30)
    requires ListedStep(chk, v, next)
    ensures Plus(Mix(chk), v) == next
  {
    MixAt(chk);
  }

  lemma AbsorbNext(chk: bv30, w: seq<bv30>, k: nat)
    requires k < |w|
    ensures Absorb(chk, w[k..]) == Absorb(Plus(Mix(chk), w[k]), w[k + 1..])
  {
    assert w[k..][1..] == w[k + 1..];
  }

  lemma ListedSum()
    ensures Absorb(1, [3, 0, 1, 10, 28, 25, 31, 20, 31]) == 1
  {
    hide Absorb, Mix, Plus;
    var w: seq<bv30> := [3, 0, 1, 10, 28, 25, 31, 20, 31];
    assert w[0..] == w && w[9..] == [];
    Register(1, 3, 0x23);
    AbsorbNext(1, w, 0);
    Register(0x23, 0, 0x460);
    AbsorbNext(0x23, w, 1);
    Register(0x460, 1, 0x8C01);
    AbsorbNext(0x460, w, 2);
    Register(0x8C01, 10, 0x11802A);
    AbsorbNext(0x8C01, w, 3);
    Register(0x11802A, 28, 0x230055C);
    AbsorbNext(0x11802A, w, 4);
    Register(0x230055C, 25, 0x3D6AFC2B);
    AbsorbNext(0x230055C, w, 5);
    Register(0x3D6AFC2B, 31, 0x2F84386);
    AbsorbNext(0x3D6AFC2B, w, 6);
    Register(0x2F84386, 20, 0x24622766);
    AbsorbNext(0x2F84386, w, 7);
    Register(0x24622766, 31, 1);
    AbsorbNext(0x24622766, w, 8);
    AbsorbNone(1);
  }

  lemma ListedWords()
    ensures var vals := [10, 28, 25, 31, 20, 31];
      FiveBit(vals) && Expanded("a") + Words(vals) == [3, 0, 1, 10, 28, 25, 31, 20, 31]
  {
    assert Expanded("a") == [3, 0, 1];
    assert Words([10, 28, 25, 31, 20, 31]) == [10, 28, 25, 31, 20, 31];
  }

  // A string BIP-173 lists as valid.
  lemma ListedIsValid()
    ensures Decoded("A12UEL5L") == Some(("a", []))
  {
    hide Absorb, Words, Expanded, Decoded;
    var t := "a12uel5l";
    assert Lower("A12UEL5L") == t;
    assert t[2..] == "2uel5l" && t[..1] == "a";
    assert Readable(t[2..]) && Values(t[2..]) == [10, 28, 25, 31, 20, 31];
    ListedWords();
    ListedSum();
    DecodedAt("A12UEL5L", 1);
  }
}
