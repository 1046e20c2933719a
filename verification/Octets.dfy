// Byte strings.
module Octets {
  import opened Digits

  type byte = n: int | 0 <= n < 256

  function ZeroBytes(n: nat): (z: seq<byte>)
    ensures |z| == n
  {
    seq(n, _ => 0)
  }

  // int.from_bytes(.., "big")
  function FromBigEndian(bs: seq<byte>): nat {
    if bs == [] then 0 else FromBigEndian(bs[..|bs| - 1]) * 256 + bs[|bs| - 1]
  }

  // int.to_bytes(n, "big")
  function ToBigEndian(n: nat, len: nat): (bs: seq<byte>)
    ensures |bs| == len
    decreases len
  {
    if len == 0 then [] else ToBigEndian(n / 256, len - 1) + [n % 256]
  }

  lemma BigEndianPair(n: nat)
    requires n < 65536
    ensures ToBigEndian(n, 2) == [n / 256, n % 256]
    ensures FromBigEndian(ToBigEndian(n, 2)) == n
  {
    assert ToBigEndian(n, 2) == ToBigEndian(n / 256, 1) + [n % 256];
    assert ToBigEndian(n / 256, 1) == ToBigEndian(n / 256 / 256, 0) + [n / 256 % 256];
    PairValue(n / 256, n % 256);
  }

  lemma {:induction false} BigEndianBack(n: nat, len: nat)
    requires n < Pow2(8 * len)
    ensures FromBigEndian(ToBigEndian(n, len)) == n
  {
    if len > 0 {
      EightBits();
      Pow2Add(8 * (len - 1), 8);
      Below(n, 256, Pow2(8 * (len - 1)));
      BigEndianBack(n / 256, len - 1);
      var bs := ToBigEndian(n, len);
      assert bs[..len - 1] == ToBigEndian(n / 256, len - 1);
    }
  }

  lemma ThirtyTwoBits()
    ensures Pow2(32) == 0x1_0000_0000
  {
    EightBits();
    Pow2Add(8, 8);
    Pow2Add(16, 16);
  }

  lemma PairValue(a: byte, b: byte)
    ensures FromBigEndian([a, b]) == a as int * 256 + b
  {
    assert [a, b][..1] == [a] && [a][..0] == [];
    assert FromBigEndian([a]) == FromBigEndian([]) * 256 + a;
  }

  // A slice as Python takes it: bounds past the end are clipped.
  function Slice(bs: seq<byte>, from: nat, to: nat): (r: seq<byte>)
    ensures |r| <= |bs|
  {
    var hi := if to < |bs| then to else |bs|;
    if from < hi then bs[from..hi] else []
  }

  // ---- exclusive or --------------------------------------------------------------------------

  // The lowest `width` bits of a ^ b.
  function Xor(a: nat, b: nat, width: nat): (r: nat)
    ensures r < Pow2(width)
  {
    if width == 0 then 0 else 2 * Xor(a / 2, b / 2, width - 1) + (a + b) % 2
  }

  lemma XorDigit(q: nat, a: nat, b: nat)
    ensures var r := 2 * q + (a + b) % 2; r / 2 == q && (r + b) % 2 == a % 2
  {
  }

  lemma XorParity(a: nat, b: nat)
    ensures (a + b) % 2 == (a % 2 + b % 2) % 2
  {
  }

  lemma {:induction false} XorTwice(a: nat, b: nat, width: nat)
    requires a < Pow2(width)
    ensures Xor(Xor(a, b, width), b, width) == a
  {
    if width != 0 {
      XorTwice(a / 2, b / 2, width - 1);
      XorDigit(Xor(a / 2, b / 2, width - 1), a, b);
    }
  }

  function BitOf(n: nat, k: nat): nat {
    if k == 0 then n % 2 else BitOf(n / 2, k - 1)
  }

  lemma {:induction false} BitOfIs(n: nat, k: nat)
    ensures BitOf(n, k) == n / Pow2(k) % 2
  {
    if k > 0 {
      BitOfIs(n / 2, k - 1);
      Halves(n, k);
      hide Pow2;
    }
  }

  lemma Halves(n: nat, k: nat)
    requires k > 0
    ensures n / Pow2(k) == (n / 2) / Pow2(k - 1)
  {
    assert Pow2(1) == 2;
    ShiftRight(n, 1, k - 1);
  }

  lemma XorUnfolds(a: nat, b: nat, width: nat)
    requires width > 0
    ensures var x := Xor(a, b, width); x / 2 == Xor(a / 2, b / 2, width - 1) && x % 2 == (a % 2 + b % 2) % 2
  {
    hide Pow2;
    var q := Xor(a / 2, b / 2, width - 1);
    assert Xor(a, b, width) == 2 * q + (a + b) % 2;
    hide Xor;
    XorDigit(q, a, b);
    XorParity(a, b);
  }

  lemma BitUnfolds(n: nat, k: nat)
    ensures BitOf(n, k) == if k == 0 then n % 2 else BitOf(n / 2, k - 1)
  {
  }

  // Bit k of the result is set when exactly one of the two bits is.
  lemma {:induction false} XorBit(a: nat, b: nat, width: nat, k: nat)
    requires k < width
    ensures BitOf(Xor(a, b, width), k) == (BitOf(a, k) + BitOf(b, k)) % 2
    decreases k
  {
    hide Pow2, Xor, BitOf;
    XorUnfolds(a, b, width);
    BitUnfolds(Xor(a, b, width), k);
    BitUnfolds(a, k);
    BitUnfolds(b, k);
    if k > 0 {
      XorBit(a / 2, b / 2, width - 1, k - 1);
    }
  }

  lemma XorByteBit(a: byte, b: byte, k: nat)
    requires k < 8
    ensures XorByte(a, b) / Pow2(k) % 2 == (a / Pow2(k) % 2 + b / Pow2(k) % 2) % 2
  {
    hide Pow2, Xor;
    XorBit(a, b, 8, k);
    BitOfIs(XorByte(a, b), k);
    BitOfIs(a, k);
    BitOfIs(b, k);
  }

  lemma EightBits()
    ensures Pow2(8) == 256
  {
    assert Pow2(4) == 16;
  }

  function XorByte(a: byte, b: byte): byte {
    EightBits();
    Xor(a, b, 8)
  }

  lemma XorByteTwice(a: byte, b: byte)
    ensures XorByte(XorByte(a, b), b) == a
  {
    hide Xor, Pow2;
    EightBits();
    XorTwice(a, b, 8);
  }
}
