// The mail bridge's npub decoder, which checks no checksum, against the checking decoder.
module BridgeCodec {
  import opened Wrappers
  import opened Text
  import opened Digits
  import opened Checksum
  import opened Bech32
  import opened KeyCodec

  // ---- the masked accumulator --------------------------------------------------------------------

  lemma MaskStep(full: nat, m: nat, from: nat, v: nat)
    ensures Rem(Rem(full, Pow2(m)) * Pow2(from) + v, Pow2(m)) == Rem(full * Pow2(from) + v, Pow2(m))
  {
    MaskStepWith(full, Pow2(m), Pow2(from), v);
  }

  lemma MaskStepWith(full: nat, p: nat, f: nat, v: nat)
    requires p > 0
    ensures ((full % p) * f + v) % p == (full * f + v) % p
  {
    var q, l := full / p, full % p;
    assert full * f + v == (q * f) * p + (l * f + v) by {
      assert full == q * p + l;
      assert (q * p + l) * f == q * p * f + l * f;
      assert q * p * f == (q * f) * p;
    }
    AddHigh(l * f + v, p, q * f);
  }

  // The last incomplete group comes out of the masked accumulator unharmed too.
  lemma MaskedTail(full: nat, m: nat, k: nat, to: nat)
    requires to <= m
    ensures Rem(Rem(full, Pow2(m)) * Pow2(k), Pow2(to)) == Rem(full * Pow2(k), Pow2(to))
  {
    hide Rem, Pow2;
    Pow2Add(to, m - to);
    MaskedTailWith(full, Pow2(to), Pow2(m - to), Pow2(k));
  }

  lemma MaskedTailWith(full: nat, t: nat, r: nat, f: nat)
    requires t > 0 && r > 0 && t * r > 0
    ensures Rem(Rem(full, t * r) * f, t) == Rem(full * f, t)
  {
    var m := t * r;
    var q, l := full / m, full % m;
    assert full * f == (q * r * f) * t + l * f by {
      assert full == q * m + l;
      assert (q * m + l) * f == q * m * f + l * f;
      assert q * (t * r) * f == (q * r * f) * t;
    }
    AddHigh(l * f, t, q * r * f);
  }

  // A group read through the mask is the group of the full accumulator.
  lemma MaskedGroup(full: nat, m: nat, b: nat, t: nat)
    requires b + t <= m
    ensures Rem(Quo(Rem(full, Pow2(m)), Pow2(b)), Pow2(t)) == Rem(Quo(full, Pow2(b)), Pow2(t))
  {
    MaskedBits(full, m, b, t);
  }

  function Pushed(acc: nat, width: nat, v: nat): nat {
    acc * Pow2(width) + v
  }

  // Where the loop stands after i digits: `acc` is the full accumulator under the mask.
  predicate ReadSoFar(data: seq<int>, from: nat, i: nat, full: nat, acc: nat, m: nat) {
    i <= |data| && Fits(from, data[..i]) && full == Value(from, data[..i]) && acc == Rem(full, Pow2(m))
  }

  lemma ReadStarts(data: seq<int>, from: nat, to: nat, m: nat)
    ensures ReadSoFar(data, from, 0, 0, 0, m) && Cut(0, 0, to, [], from * 0)
  {
    CutStart(to);
  }

  lemma ReadNext(data: seq<int>, from: nat, i: nat, full: nat, acc: nat, m: nat, bits: nat, to: nat, out: seq<nat>)
    requires ReadSoFar(data, from, i, full, acc, m) && Cut(full, bits, to, out, from * i)
    requires i < |data| && 0 <= data[i] < Pow2(from)
    ensures var full' := Pushed(full, from, data[i]);
      && ReadSoFar(data, from, i + 1, full', Rem(Pushed(acc, from, data[i]), Pow2(m)), m)
      && Cut(full', bits + from, to, out, from * (i + 1))
  {
    hide Cut, Value, Rem;
    NextCount(from, i);
    assert data[..i + 1] == data[..i] + [data[i]];
    ValueSnoc(from, data[..i], data[i]);
    CutRead(full, bits, to, out, from * i, from, data[i]);
    MaskStep(full, m, from, data[i]);
  }

  lemma NextCount(from: nat, i: nat)
    ensures from * (i + 1) == from * i + from
  {
  }

  // _convertbits: the accumulator keeps only from + to - 1 bits.
  method ConvertBits(data: seq<int>, from: nat, to: nat, pad: bool) returns (ret: Option<seq<nat>>)
    requires from > 0 && to > 0
    ensures ret == if Fits(from, data) then Some(Regrouped(data, from, to, pad)) else None
  {
    hide Cut, Quo, Rem, Regrouped, Pushed, Value;
    var acc: nat, bits: nat, out: seq<nat> := 0, 0, [];
    var m := from + to - 1;
    ghost var full: nat := 0;
    ReadStarts(data, from, to, m);
    for i := 0 to |data|
      invariant bits < to && ReadSoFar(data, from, i, full, acc, m) && Cut(full, bits, to, out, from * i)
    {
      var value := data[i];
      if value < 0 || value >= Pow2(from) {
        return None;
      }
      ReadNext(data, from, i, full, acc, m, bits, to, out);
      full := Pushed(full, from, value);
      acc := Rem(Pushed(acc, from, value), Pow2(m));
      bits := bits + from;
      while bits >= to
        invariant bits <= m && Cut(full, bits, to, out, from * (i + 1))
      {
        CutEmit(full, bits, to, out, from * (i + 1));
        MaskedGroup(full, m, bits - to, to);
        bits := bits - to;
        out := out + [Rem(Quo(acc, Pow2(bits)), Pow2(to))];
      }
    }
    assert data[..|data|] == data;
    CutEnds(data, from, bits, to, out, pad);
    if pad {
      if bits != 0 {
        MaskedTail(full, m, to - bits, to);
        out := out + [Rem(acc * Pow2(to - bits), Pow2(to))];
      }
    }
    return Some(out);
  }

  // ---- the bridge's decoder ----------------------------------------------------------------------

  // _bech32_to_bytes: an unreadable symbol makes the whole result empty.
  function BridgeBytes(s: string): seq<nat> {
    var t := Lower(s);
    var tail := t[LastIndex(t, '1') + 1..];
    if Readable(tail) then Regrouped(Values(tail), 5, 8, true) else []
  }

  method Bech32ToBytes(s: string) returns (raw: seq<nat>)
    ensures raw == BridgeBytes(s)
  {
    var t := Lower(s);
    var data := t[LastIndex(t, '1') + 1..];
    var vals := Values(data);
    FiveBitFits(vals);
    if !Readable(data) {
      assert !FiveBit(vals) by {
        var i :| 0 <= i < |data| && SymbolOf(data[i]) < 0;
        assert vals[i] < 0;
      }
    }
    var ret := ConvertBits(vals, 5, 8, true);
    return if ret.Some? then ret.value else [];
  }

  lemma BridgeBytesAreBytes(s: string)
    ensures Bytes(BridgeBytes(s))
  {
    BytesFit(BridgeBytes(s));
  }

  // _npub_to_hex
  function BridgeNpub(npub: string): Option<string> {
    BridgeBytesAreBytes(npub);
    var raw := BridgeBytes(npub);
    if "npub1" <= Lower(npub) && |raw| >= 32 then Some(ToHex(raw[..32])) else None
  }

  // Every bare npub the checking decoder accepts, the bridge reads as the same key: neither the mask,
  // nor the checksum symbols, nor the padding reach the first 32 bytes.
  lemma DecodersAgree(npub: string)
    requires Bare(npub) == npub && PubkeyOf(npub).Some?
    ensures BridgeNpub(npub) == PubkeyOf(npub)
  {
    hide Absorb, Expanded, Words, ToHex, Regrouped;
    var t := Lower(npub);
    var pos := LastIndex(t, '1');
    PrefixAgrees(Values(t[pos + 1..]));
    assert t[..pos + 1] == t[..pos] + [t[pos]];
  }

  lemma PrefixAgrees(vals: seq<int>)
    requires FiveBit(vals) && |vals| >= 6
    ensures var part, all := Regrouped(vals[..|vals| - 6], 5, 8, false), Regrouped(vals, 5, 8, true);
      |part| <= |all| && all[..|part|] == part
  {
    hide Regrouped;
    FiveBitFits(vals);
    var n := |vals| - 6;
    FiveBitFits(vals[..n]);
    RegroupedIs(vals[..n], 5, 8, false);
    RegroupedIs(vals, 5, 8, true);
    RegroupPrefix(vals, n, 5, Regrouped(vals[..n], 5, 8, false), Regrouped(vals, 5, 8, true), 8);
  }
}
