// NIP-44 version 2: message padding, key derivation and the encrypted payload.
module Nip44 {
  import opened Wrappers
  import opened Octets
  import Base64
  import Digits

  type Bytes32 = s: seq<byte> | |s| == 32 witness ZeroBytes(32)

  // HMAC-SHA256 and the ChaCha20 keystream (one byte per key, nonce and position) are foreign code.
  datatype Crypto = Crypto(
    hmac: (seq<byte>, seq<byte>) -> Bytes32,
    keystream: (seq<byte>, seq<byte>, nat) -> byte)

  const MIN_PLAINTEXT: nat := 1
  const MAX_PLAINTEXT: nat := 65535
  const EXTENDED_THRESHOLD: nat := 65536
  const MAX_PAYLOAD_LEN: nat := 87472
  const MAX_DATA_LEN: nat := 65603

  // ---- padded lengths ----------------------------------------------------------------------------

  // 1 << (floor(log2(m)) + 1): the least power of two above m.
  function NextPower(m: nat): (p: nat)
    ensures p > m && (m > 0 ==> p <= 2 * m) && p > 0
  {
    if m == 0 then 1 else 2 * NextPower(m / 2)
  }

  function Chunk(m: nat): (c: nat)
  {
    var p := NextPower(m);
    if p <= 256 then 32 else p / 8
  }

  function CalcPaddedLen(n: int): nat {
    if n <= 32 then 32 else RoundUp(n, Chunk(n - 1))
  }

  // chunk * (floor((n - 1) / chunk) + 1); a zero chunk never occurs.
  function RoundUp(n: nat, chunk: nat): nat
    requires n > 0
  {
    if chunk == 0 then 0 else chunk * ((n - 1) / chunk + 1)
  }

  // p = 2^k for some k.
  predicate IsPower(p: nat) {
    p == 1 || (p > 1 && p % 2 == 0 && IsPower(p / 2))
  }

  lemma {:induction false} NextPowerIsPower(m: nat)
    ensures IsPower(NextPower(m))
  {
    if m != 0 {
      NextPowerIsPower(m / 2);
    }
  }

  // Between a power of two and its double there is only one value of NextPower.
  lemma {:induction false} NextPowerUnique(m: nat, p: nat)
    requires IsPower(p) && p > m && (m > 0 ==> p <= 2 * m) && (m == 0 ==> p == 1)
    ensures NextPower(m) == p
    decreases m
  {
    if m != 0 {
      if m / 2 == 0 {
        assert m == 1;
      }
      NextPowerUnique(m / 2, p / 2);
    }
  }

  lemma {:induction false} NextPowerMonotone(m: nat, n: nat)
    requires m <= n
    ensures NextPower(m) <= NextPower(n)
    decreases n
  {
    if n != 0 && m != 0 {
      NextPowerMonotone(m / 2, n / 2);
    }
  }

  // A power of two above 256 is a multiple of 256.
  lemma {:induction false} PowerDivides(p: nat, q: nat)
    requires IsPower(p) && IsPower(q) && q <= p
    ensures p % q == 0
    decreases q
  {
    if q != 1 {
      PowerDivides(p / 2, q / 2);
      var k := p / 2 / (q / 2);
      assert p / 2 == k * (q / 2);
      assert p == k * q;
      ModZero(k, q);
    }
  }

  lemma ModZero(k: nat, q: nat)
    requires q > 0
    ensures (k * q) % q == 0 && (k * q) / q == k
  {
    Digits.Quotient(k * q, q, k, 0);
  }

  lemma Powers()
    ensures IsPower(32) && IsPower(256) && IsPower(65536)
  {
    assert IsPower(2) && IsPower(4) && IsPower(8) && IsPower(16) && IsPower(32) && IsPower(64) && IsPower(128);
    assert IsPower(256) && IsPower(512) && IsPower(1024) && IsPower(2048) && IsPower(4096) && IsPower(8192);
    assert IsPower(16384) && IsPower(32768);
  }

  lemma ChunkIs(m: nat)
    requires m >= 32
    ensures var c := Chunk(m);
      && c >= 32 && IsPower(c) && c % 32 == 0
      && (m < 256 ==> c == 32) && (m >= 256 ==> 4 * c <= m < 8 * c)
  {
    NextPowerIsPower(m);
    Powers();
    var p := NextPower(m);
    if p > 256 {
      PowerDivides(p, 256);
      assert IsPower(p / 2) && IsPower(p / 2 / 2) && IsPower(p / 2 / 2 / 2);
      assert p / 2 / 2 / 2 == p / 8;
      PowerDivides(p / 8, 32);
    } else if m >= 256 {
      assert false;
    }
    if m < 256 && p > 256 {
      NextPowerMonotone(m, 255);
      NextPowerUnique(255, 256);
      assert false;
    }
  }

  lemma RoundUpIs(n: nat, c: nat)
    requires n > 0 && c > 0
    ensures var r := RoundUp(n, c);
      r % c == 0 && n <= r < n + c && (n % c == 0 ==> r == n)
  {
    var q := (n - 1) / c;
    var rem := (n - 1) % c;
    assert n - 1 == c * q + rem;
    assert c * (q + 1) == c * q + c;
    ModZero(q + 1, c);
    assert RoundUp(n, c) == c * (q + 1) == (q + 1) * c;
    if n % c == 0 {
      Apart(RoundUp(n, c), n, c);
    }
  }

  lemma Apart(a: nat, b: nat, c: nat)
    requires c > 0 && a % c == 0 && b % c == 0
    ensures a > b ==> a >= b + c
  {
    var x, y := a / c, b / c;
    assert (x - y) * c == a - b by {
      assert a == x * c && b == y * c;
      assert (x - y) * c == x * c - y * c;
    }
    Digits.MulApart(x - y, c);
  }

  lemma MultipleOfMultiple(r: nat, c: nat, d: nat)
    requires c > 0 && d > 0 && r % c == 0 && c % d == 0
    ensures r % d == 0
  {
    var x, y := r / c, c / d;
    assert r == c * x && c == d * y;
    assert r == (y * x) * d by { assert d * y * x == (y * x) * d; }
    ModZero(y * x, d);
  }

  // The padded length is never shorter, is a multiple of 32, and costs at most 31 bytes up to 256
  // bytes and less than a quarter of the length above.
  lemma PaddingCost(n: nat)
    requires n >= 1
    ensures var p := CalcPaddedLen(n);
      && n <= p && p % 32 == 0 && p >= 32
      && (n <= 256 ==> p - n <= 31)
      && (n > 256 ==> 4 * (p - n) < n)
  {
    if n > 32 {
      var c := Chunk(n - 1);
      ChunkIs(n - 1);
      RoundUpIs(n, c);
      MultipleOfMultiple(CalcPaddedLen(n), c, 32);
    }
  }

  // Exactly: with p the least power of two not below n, the next multiple of 32 for p up to 256, else of
  // an eighth of p.
  lemma PaddingIs(n: nat, p: nat)
    requires n >= 1 && IsPower(p) && p / 2 < n <= p
    ensures var c, padded := if p <= 256 then 32 else p / 8, CalcPaddedLen(n);
      c > 0 && padded % c == 0 && n <= padded < n + c
  {
    if n > 32 {
      NextPowerUnique(n - 1, p);
      ChunkIs(n - 1);
      RoundUpIs(n, Chunk(n - 1));
    }
  }

  lemma PaddingMonotone(m: nat, n: nat)
    requires 1 <= m <= n
    ensures CalcPaddedLen(m) <= CalcPaddedLen(n)
  {
    PaddingCost(n);
    if m > 32 {
      hide NextPower, RoundUp, IsPower, Chunk;
      var c, d := Chunk(m - 1), Chunk(n - 1);
      ChunkIs(m - 1);
      ChunkIs(n - 1);
      RoundUpIs(m, c);
      RoundUpIs(n, d);
      ChunkMonotone(m - 1, n - 1);
      // d is a multiple of c, so the padded length of n is a multiple of c that is at least m.
      PowerDivides(d, c);
      MultipleOfMultiple(CalcPaddedLen(n), d, c);
      LeastMultiple(CalcPaddedLen(n), CalcPaddedLen(m), m, c);
    }
  }

  lemma ChunkMonotone(m: nat, n: nat)
    requires m <= n
    ensures Chunk(m) <= Chunk(n)
  {
    NextPowerMonotone(m, n);
  }

  lemma LeastMultiple(r: nat, s: nat, m: nat, c: nat)
    requires c > 0 && r % c == 0 && s % c == 0 && m <= r && m <= s < m + c
    ensures s <= r
  {
    Apart(s, r, c);
  }

  lemma PaddingIdempotent(n: nat)
    requires n >= 1
    ensures CalcPaddedLen(CalcPaddedLen(n)) == CalcPaddedLen(n)
  {
    if n > 32 {
      hide NextPower, RoundUp;
      var c := Chunk(n - 1);
      var p := RoundUp(n, c);
      ChunkIs(n - 1);
      RoundUpIs(n, c);
      SameChunk(n, p);
      RoundUpIs(p, c);
    }
  }

  // Lengths that round up to p share its chunk: the next power of two is a multiple of the chunk,
  // so rounding up stays within it.
  lemma SameChunk(n: nat, p: nat)
    requires n > 32 && Chunk(n - 1) > 0 && p == RoundUp(n, Chunk(n - 1))
    ensures p > 32 && Chunk(p - 1) == Chunk(n - 1)
  {
    hide RoundUp;
    var top := NextPower(n - 1);
    RoundUpIs(n, Chunk(n - 1));
    PowerAboveChunk(n - 1);
    LeastMultiple(top, p, n, Chunk(n - 1));
    NextPowerIsPower(n - 1);
    NextPowerUnique(p - 1, top);
  }

  lemma PowerAboveChunk(m: nat)
    requires m >= 32
    ensures NextPower(m) % Chunk(m) == 0 && Chunk(m) > 0 && NextPower(m) >= m + 1
  {
    NextPowerIsPower(m);
    ChunkIs(m);
    Powers();
    PowerDivides(NextPower(m), Chunk(m));
  }

  // ---- pad and unpad -----------------------------------------------------------------------------

  function LengthPrefix(n: nat): seq<byte> {
    if n >= EXTENDED_THRESHOLD then [0, 0] + ToBigEndian(n, 4) else ToBigEndian(n, 2)
  }

  function Pad(plaintext: seq<byte>): Result<seq<byte>, string> {
    var n := |plaintext|;
    if !(MIN_PLAINTEXT <= n <= MAX_PLAINTEXT) then Err("invalid plaintext length")
    else
      var padded := CalcPaddedLen(n);
      Ok(LengthPrefix(n) + plaintext + ZeroBytes(if padded >= n then padded - n else 0))
  }

  function Unpad(padded: seq<byte>): Result<seq<byte>, string> {
    var firstTwo := FromBigEndian(Slice(padded, 0, 2));
    var extended := FromBigEndian(Slice(padded, 2, 6));
    if firstTwo == 0 && extended < EXTENDED_THRESHOLD then Err("invalid padding")
    else
      var n := if firstTwo == 0 then extended else firstTwo;
      var prefix := if firstTwo == 0 then 6 else 2;
      var unpadded := Slice(padded, prefix, prefix + n);
      if n == 0 || |unpadded| != n || |padded| != prefix + CalcPaddedLen(n) then Err("invalid padding")
      else Ok(unpadded)
  }

  lemma PadShape(m: seq<byte>)
    requires 1 <= |m| <= 65535
    ensures Pad(m).Ok? && |Pad(m).value| == 2 + CalcPaddedLen(|m|)
    ensures Pad(m).value[..2 + |m|] == ToBigEndian(|m|, 2) + m
  {
    PaddingCost(|m|);
  }

  lemma FirstTwo(p: seq<byte>)
    requires |p| >= 2
    ensures FromBigEndian(Slice(p, 0, 2)) == p[0] as int * 256 + p[1]
  {
    assert Slice(p, 0, 2) == [p[0], p[1]];
    PairValue(p[0], p[1]);
  }

  lemma UnpadPad(m: seq<byte>)
    requires 1 <= |m| <= 65535
    ensures Pad(m).Ok? && Unpad(Pad(m).value) == Ok(m)
  {
    PadShape(m);
    var n, p := |m|, Pad(m).value;
    PaddingCost(n);
    BigEndianPair(n);
    assert p[0] == p[..2 + n][0] && p[1] == p[..2 + n][1];
    FirstTwo(p);
    assert Slice(p, 2, 2 + n) == p[..2 + n][2..] == m;
  }

  // The longer prefix, which pad never writes: two zero bytes and a length of 65536 or more in four bytes.
  lemma UnpadExtended(m: seq<byte>)
    requires 65536 <= |m| < 0x1_0000_0000
    ensures LengthPrefix(|m|) == [0, 0] + ToBigEndian(|m|, 4) && CalcPaddedLen(|m|) >= |m|
    ensures Unpad([0, 0] + ToBigEndian(|m|, 4) + m + ZeroBytes(CalcPaddedLen(|m|) - |m|)) == Ok(m)
  {
    hide CalcPaddedLen, Slice, ToBigEndian, FromBigEndian;
    PaddingCost(|m|);
    ThirtyTwoBits();
    BigEndianBack(|m|, 4);
    ExtendedParts(ToBigEndian(|m|, 4), m, ZeroBytes(CalcPaddedLen(|m|) - |m|));
  }

  lemma ExtendedParts(len: seq<byte>, m: seq<byte>, filling: seq<byte>)
    requires |len| == 4
    ensures var p := [0, 0] + len + m + filling;
      FromBigEndian(Slice(p, 0, 2)) == 0 && Slice(p, 2, 6) == len && Slice(p, 6, 6 + |m|) == m
  {
    hide FromBigEndian;
    var p := [0, 0] + len + m + filling;
    FirstTwo(p);
    assert p[2..6] == len && p[6..6 + |m|] == m;
  }

  // Within the size limit of a decoded payload the six-byte prefix never passes: what unpad accepts
  // is a two-byte length, that many bytes, and filling up to the padded length.
  lemma UnpadAccepts(p: seq<byte>, m: seq<byte>)
    requires |p| <= MAX_DATA_LEN - 65 && Unpad(p) == Ok(m)
    ensures 1 <= |m| <= 65535 && |p| == |Pad(m).value| && p[..2 + |m|] == Pad(m).value[..2 + |m|]
  {
    hide Unpad, Pad, CalcPaddedLen, ToBigEndian, FromBigEndian, Slice;
    ShortPrefix(p, m);
    FirstTwo(p);
    TwoDigits(p[0], p[1]);
    PadShape(m);
    assert p[..2 + |m|] == [p[0], p[1]] + p[2..2 + |m|];
  }

  lemma TwoDigits(a: byte, b: byte)
    ensures ToBigEndian(a as int * 256 + b, 2) == [a, b]
  {
    BigEndianPair(a as int * 256 + b);
  }

  lemma ShortPrefix(p: seq<byte>, m: seq<byte>)
    requires |p| <= MAX_DATA_LEN - 65 && Unpad(p) == Ok(m)
    ensures FromBigEndian(Slice(p, 0, 2)) == |m| > 0 && |p| == 2 + CalcPaddedLen(|m|)
    ensures 2 + |m| <= |p| && m == p[2..2 + |m|]
  {
    hide FromBigEndian, CalcPaddedLen;
    if FromBigEndian(Slice(p, 2, 6)) > 0 { PaddingCost(FromBigEndian(Slice(p, 2, 6))); }
    if FromBigEndian(Slice(p, 0, 2)) > 0 { PaddingCost(FromBigEndian(Slice(p, 0, 2))); }
  }

  // Conversely every such byte string is accepted: unpad does not look at the filling.
  lemma UnpadIgnoresFilling(p: seq<byte>, m: seq<byte>)
    requires 1 <= |m| <= 65535 && |p| == |Pad(m).value| && p[..2 + |m|] == Pad(m).value[..2 + |m|]
    ensures Unpad(p) == Ok(m)
  {
    PadShape(m);
    PaddingCost(|m|);
    BigEndianPair(|m|);
    assert p[0] == p[..2 + |m|][0] && p[1] == p[..2 + |m|][1];
    FirstTwo(p);
    assert Slice(p, 2, 2 + |m|) == p[..2 + |m|][2..] == m;
  }

  // ---- key derivation ----------------------------------------------------------------------------

  // T(i) of RFC 5869, section 2.3.
  function Block(c: Crypto, prk: seq<byte>, info: seq<byte>, i: nat): seq<byte>
    requires i <= 255
  {
    if i == 0 then [] else c.hmac(prk, Block(c, prk, info, i - 1) + info + [i])
  }

  // T(1) + .. + T(n)
  function Blocks(c: Crypto, prk: seq<byte>, info: seq<byte>, n: nat): (out: seq<byte>)
    requires n <= 255
    ensures |out| == 32 * n
  {
    if n == 0 then [] else Blocks(c, prk, info, n - 1) + Block(c, prk, info, n)
  }

  function HkdfExpanded(c: Crypto, prk: seq<byte>, info: seq<byte>, length: nat): (r: Result<seq<byte>, string>)
    ensures r.Ok? <==> length <= 255 * 32
    ensures r.Ok? ==> |r.value| == length
  {
    var n := (length + 31) / 32;
    if n > 255 then Err("HKDF expand: too long") else Ok(Blocks(c, prk, info, n)[..length])
  }

  method HkdfExpand(c: Crypto, prk: seq<byte>, info: seq<byte>, length: nat) returns (r: Result<seq<byte>, string>)
    ensures r == HkdfExpanded(c, prk, info, length)
  {
    var n := (length + 31) / 32;
    if n > 255 {
      return Err("HKDF expand: too long");
    }
    var out: seq<byte>, t: seq<byte> := [], [];
    for i := 0 to n
      invariant t == Block(c, prk, info, i)
      invariant out == Blocks(c, prk, info, i)
    {
      t := c.hmac(prk, t + info + [i + 1]);
      out := out + t;
    }
    return Ok(out[..length]);
  }

  lemma {:induction false} BlocksPrefix(c: Crypto, prk: seq<byte>, info: seq<byte>, m: nat, n: nat)
    requires m <= n <= 255
    ensures Blocks(c, prk, info, m) <= Blocks(c, prk, info, n)
    decreases n
  {
    if m < n {
      BlocksPrefix(c, prk, info, m, n - 1);
    }
  }

  // Asking for more output never changes the output already given.
  lemma HkdfPrefix(c: Crypto, prk: seq<byte>, info: seq<byte>, a: nat, b: nat)
    requires a <= b <= 255 * 32
    ensures HkdfExpanded(c, prk, info, a).value <= HkdfExpanded(c, prk, info, b).value
  {
    hide Blocks;
    var m, n := (a + 31) / 32, (b + 31) / 32;
    BlocksPrefix(c, prk, info, m, n);
    var x, y := Blocks(c, prk, info, m), Blocks(c, prk, info, n);
    assert x[..a] == y[..a] == y[..b][..a];
  }

  // RFC 5869, section 2.3: each 32 bytes of output authenticate the 32 before them, the info and a counter.
  lemma HkdfFeedback(c: Crypto, prk: seq<byte>, info: seq<byte>, length: nat, i: nat)
    requires 1 <= i <= 255 && 32 * i <= length <= 255 * 32
    ensures var out := HkdfExpanded(c, prk, info, length).value;
      out[32 * (i - 1)..32 * i] == c.hmac(prk, (if i == 1 then [] else out[32 * (i - 2)..32 * (i - 1)]) + info + [i])
  {
    hide Blocks, Block;
    var n := (length + 31) / 32;
    var all := Blocks(c, prk, info, n);
    assert HkdfExpanded(c, prk, info, length).value == all[..length];
    BlockAt(c, prk, info, n, i);
    assert all[..length][32 * (i - 1)..32 * i] == all[32 * (i - 1)..32 * i];
    if i > 1 {
      BlockAt(c, prk, info, n, i - 1);
      assert all[..length][32 * (i - 2)..32 * (i - 1)] == all[32 * (i - 2)..32 * (i - 1)];
    }
    BlockIs(c, prk, info, i);
  }

  lemma BlockIs(c: Crypto, prk: seq<byte>, info: seq<byte>, i: nat)
    requires 1 <= i <= 255
    ensures Block(c, prk, info, 0) == []
    ensures Block(c, prk, info, i) == c.hmac(prk, Block(c, prk, info, i - 1) + info + [i])
  {
  }

  lemma {:induction false} BlockAt(c: Crypto, prk: seq<byte>, info: seq<byte>, n: nat, i: nat)
    requires 1 <= i <= n <= 255
    ensures Blocks(c, prk, info, n)[32 * (i - 1)..32 * i] == Block(c, prk, info, i)
  {
    BlockIs(c, prk, info, n);
    hide Block;
    if i < n {
      BlockAt(c, prk, info, n - 1, i);
    }
  }

  datatype Keys = Keys(cipher: seq<byte>, iv: seq<byte>, mac: seq<byte>)

  function GetMessageKeys(c: Crypto, key: seq<byte>, nonce: seq<byte>): (r: Result<Keys, string>)
    ensures r.Ok? <==> |key| == 32 && |nonce| == 32
    ensures r.Ok? ==> |r.value.cipher| == 32 && |r.value.iv| == 12 && |r.value.mac| == 32
    ensures r.Ok? ==> r.value.cipher + r.value.iv + r.value.mac == HkdfExpanded(c, key, nonce, 76).value
  {
    if |key| != 32 then Err("invalid conversation_key length")
    else if |nonce| != 32 then Err("invalid nonce length")
    else
      var keys := HkdfExpanded(c, key, nonce, 76).value;
      Ok(Keys(keys[..32], keys[32..44], keys[44..76]))
  }

  // ---- stream cipher and authentication ------------------------------------------------------------

  function ChaCha(c: Crypto, key: seq<byte>, iv: seq<byte>, data: seq<byte>): (r: seq<byte>)
    ensures |r| == |data|
  {
    seq<byte>(|data|, i requires 0 <= i < |data| => XorByte(data[i], c.keystream(key, iv, i)))
  }

  lemma ChaChaTwice(c: Crypto, key: seq<byte>, iv: seq<byte>, data: seq<byte>)
    ensures ChaCha(c, key, iv, ChaCha(c, key, iv, data)) == data
  {
    hide XorByte;
    var once := ChaCha(c, key, iv, data);
    forall i | 0 <= i < |data| ensures ChaCha(c, key, iv, once)[i] == data[i] {
      XorByteTwice(data[i], c.keystream(key, iv, i));
    }
  }

  // The nonce is the associated data; its length has been checked with the message keys.
  function HmacAad(c: Crypto, key: seq<byte>, message: seq<byte>, aad: seq<byte>): Bytes32
    requires |aad| == 32
  {
    c.hmac(key, aad + message)
  }

  // ---- payload ---------------------------------------------------------------------------------------

  datatype Envelope = Envelope(nonce: seq<byte>, ciphertext: seq<byte>, mac: seq<byte>)

  function Framed(e: Envelope): seq<byte> {
    [2] + e.nonce + e.ciphertext + e.mac
  }

  function Unframed(data: seq<byte>): Result<Envelope, string> {
    var n := |data|;
    if n < 99 then Err("invalid data size")
    else if n > MAX_DATA_LEN then Err("invalid data length")
    else if data[0] != 2 then Err("unknown version")
    else Ok(Envelope(data[1..33], data[33..n - 32], data[n - 32..]))
  }

  function DecodePayload(payload: string): Result<Envelope, string> {
    if |payload| == 0 || payload[0] == '#' then Err("unknown version")
    else if |payload| < 132 then Err("invalid payload size")
    else if |payload| > MAX_PAYLOAD_LEN then Err("invalid payload length")
    else match Base64.Decoded(payload)
      case None => Err("invalid base64")
      case Some(data) => Unframed(data)
  }

  function Sealed(c: Crypto, plaintext: seq<byte>, key: seq<byte>, nonce: seq<byte>): Result<Envelope, string> {
    var keys :- GetMessageKeys(c, key, nonce);
    var padded :- Pad(plaintext);
    var ciphertext := ChaCha(c, keys.cipher, keys.iv, padded);
    var mac := HmacAad(c, keys.mac, ciphertext, nonce);
    Ok(Envelope(nonce, ciphertext, mac))
  }

  function Encrypt(c: Crypto, plaintext: seq<byte>, key: seq<byte>, nonce: seq<byte>): Result<string, string> {
    var e :- Sealed(c, plaintext, key, nonce);
    Ok(Base64.Encoded(Framed(e)))
  }

  function Opened(c: Crypto, e: Envelope, key: seq<byte>): Result<seq<byte>, string> {
    var keys :- GetMessageKeys(c, key, e.nonce);
    var mac := HmacAad(c, keys.mac, e.ciphertext, e.nonce);
    if mac != e.mac then Err("invalid MAC") else Unpad(ChaCha(c, keys.cipher, keys.iv, e.ciphertext))
  }

  function Decrypt(c: Crypto, payload: string, key: seq<byte>): Result<seq<byte>, string> {
    var e :- DecodePayload(payload);
    Opened(c, e, key)
  }

  // ---- round trip and limits ---------------------------------------------------------------------------

  lemma SealedIs(c: Crypto, m: seq<byte>, key: seq<byte>, nonce: seq<byte>)
    requires |key| == 32 && |nonce| == 32
    ensures Sealed(c, m, key, nonce).Ok? <==> 1 <= |m| <= 65535
    ensures 1 <= |m| <= 65535 ==>
      var e := Sealed(c, m, key, nonce).value;
      e.nonce == nonce && |e.mac| == 32 && |e.ciphertext| == 2 + CalcPaddedLen(|m|)
  {
    hide CalcPaddedLen, ChaCha;
    if 1 <= |m| <= 65535 { PadShape(m); }
  }

  lemma OpenedSealed(c: Crypto, m: seq<byte>, key: seq<byte>, nonce: seq<byte>)
    requires |key| == 32 && |nonce| == 32 && 1 <= |m| <= 65535
    ensures Opened(c, Sealed(c, m, key, nonce).value, key) == Ok(m)
  {
    hide Pad, Unpad, ChaCha, CalcPaddedLen;
    UnpadPad(m);
    var keys := GetMessageKeys(c, key, nonce).value;
    ChaChaTwice(c, keys.cipher, keys.iv, Pad(m).value);
  }

  lemma UnframedFramed(e: Envelope)
    requires |e.nonce| == 32 && |e.mac| == 32 && 34 <= |e.ciphertext| <= 65538
    ensures Unframed(Framed(e)) == Ok(e)
    ensures |Framed(e)| == 65 + |e.ciphertext|
  {
    var data := Framed(e);
    assert data[1..33] == e.nonce && data[33..|data| - 32] == e.ciphertext && data[|data| - 32..] == e.mac;
  }

  lemma PaddedRange(n: nat)
    requires 1 <= n <= 65535
    ensures 32 <= CalcPaddedLen(n) <= 65536
    ensures n == 65535 ==> CalcPaddedLen(n) == 65536
  {
    PaddingCost(n);
    PaddingMonotone(n, 65535);
    Powers();
    NextPowerUnique(65534, 65536);
  }

  // Framing and base64 lose nothing, whatever the limits of the decoder.
  lemma DecodeFramed(e: Envelope)
    requires |e.nonce| == 32 && |e.mac| == 32 && 34 <= |e.ciphertext| <= 65538
    ensures DecodePayload(Base64.Encoded(Framed(e))) == Ok(e)
    ensures var payload := Base64.Encoded(Framed(e));
      |payload| == (|e.ciphertext| + 67) / 3 * 4 && 132 <= |payload| <= MAX_PAYLOAD_LEN
  {
    hide Unframed, Framed, Base64.Encoded, Base64.Decoded, Base64.SixBits;
    var data := Framed(e);
    UnframedFramed(e);
    Base64.DecodeEncode(data);
    EncodedIsNoComment(data);
  }

  lemma EncodedIsNoComment(data: seq<byte>)
    requires data != []
    ensures Base64.Encoded(data)[0] != '#'
  {
  }

  // encrypt accepts exactly the plaintexts of 1..65535 bytes; its payloads keep the published limits
  // of 99..65603 raw bytes and 132..87472 characters, and decrypt gives the plaintext back.
  lemma RoundTrip(c: Crypto, m: seq<byte>, key: seq<byte>, nonce: seq<byte>)
    requires |key| == 32 && |nonce| == 32
    ensures Encrypt(c, m, key, nonce).Ok? <==> 1 <= |m| <= 65535
    ensures 1 <= |m| <= 65535 ==>
      var payload := Encrypt(c, m, key, nonce).value;
      && Decrypt(c, payload, key) == Ok(m)
      && |payload| == (CalcPaddedLen(|m|) + 69) / 3 * 4 && 132 <= |payload| <= MAX_PAYLOAD_LEN
      && Base64.Decoded(payload).Some? && |Base64.Decoded(payload).value| == 67 + CalcPaddedLen(|m|)
      && 99 <= |Base64.Decoded(payload).value| <= MAX_DATA_LEN
  {
    hide Sealed, Opened, Framed, DecodePayload, CalcPaddedLen, Base64.Decoded, Base64.Encoded;
    SealedIs(c, m, key, nonce);
    if 1 <= |m| <= 65535 {
      var e := Sealed(c, m, key, nonce).value;
      PaddedRange(|m|);
      OpenedSealed(c, m, key, nonce);
      UnframedFramed(e);
      DecodeFramed(e);
      Base64.DecodeEncode(Framed(e));
    }
  }

  // All four limits are attained: by one byte, and by 65535 bytes.
  lemma LimitsAttained(c: Crypto, small: seq<byte>, large: seq<byte>, key: seq<byte>, nonce: seq<byte>)
    requires |key| == 32 && |nonce| == 32 && |small| == MIN_PLAINTEXT && |large| == MAX_PLAINTEXT
    ensures var s := Encrypt(c, small, key, nonce);
      s.Ok? && |s.value| == 132 && Base64.Decoded(s.value).Some? && |Base64.Decoded(s.value).value| == 99
    ensures var l := Encrypt(c, large, key, nonce);
      l.Ok? && |l.value| == MAX_PAYLOAD_LEN
      && Base64.Decoded(l.value).Some? && |Base64.Decoded(l.value).value| == MAX_DATA_LEN
  {
    hide Encrypt, Decrypt, Base64.Decoded;
    RoundTrip(c, small, key, nonce);
    RoundTrip(c, large, key, nonce);
    PaddedRange(65535);
    assert CalcPaddedLen(1) == 32;
  }

  // ---- the payload in bytes -----------------------------------------------------------------------------

  // The keystream a message is enciphered with, and its authentication code: bytes 0..32, 32..44 and
  // 44..76 of the expanded key.
  predicate Enciphers(c: Crypto, key: seq<byte>, nonce: seq<byte>, plain: seq<byte>, cipher: seq<byte>) {
    var k := HkdfExpanded(c, key, nonce, 76).value;
    && |plain| <= |cipher|
    && forall i :: 0 <= i < |plain| ==> cipher[i] == XorByte(plain[i], c.keystream(k[..32], k[32..44], i))
  }

  predicate Authenticates(c: Crypto, key: seq<byte>, nonce: seq<byte>, cipher: seq<byte>, code: seq<byte>) {
    var k := HkdfExpanded(c, key, nonce, 76).value;
    code == c.hmac(k[44..], nonce + cipher)
  }

  // A payload in the layout of NIP-44: the version, the nonce, at least the enciphered length and text, as
  // many bytes as their padding takes, and the code over nonce and ciphertext.
  predicate CarriesText(c: Crypto, key: seq<byte>, raw: seq<byte>, m: seq<byte>) {
    && 1 <= |m| <= 65535 && |raw| == 67 + CalcPaddedLen(|m|) && raw[0] == 2
    && Enciphers(c, key, raw[1..33], Head(m), raw[33..|raw| - 32])
    && Authenticates(c, key, raw[1..33], raw[33..|raw| - 32], raw[|raw| - 32..])
  }

  function Head(m: seq<byte>): (h: seq<byte>)
    requires |m| <= 65535
    ensures |h| == 2 + |m|
  {
    [|m| / 256, |m| % 256] + m
  }

  lemma PadIs(m: seq<byte>)
    requires 1 <= |m| <= 65535
    ensures CalcPaddedLen(|m|) >= |m| && Pad(m) == Ok(Head(m) + ZeroBytes(CalcPaddedLen(|m|) - |m|))
  {
    hide CalcPaddedLen;
    PaddingCost(|m|);
    BigEndianPair(|m|);
  }

  lemma KeysAre(c: Crypto, key: seq<byte>, nonce: seq<byte>)
    requires |key| == 32 && |nonce| == 32
    ensures var k, keys := HkdfExpanded(c, key, nonce, 76).value, GetMessageKeys(c, key, nonce).value;
      keys.cipher == k[..32] && keys.iv == k[32..44] && keys.mac == k[44..]
  {
    hide HkdfExpanded;
    var k, keys := HkdfExpanded(c, key, nonce, 76).value, GetMessageKeys(c, key, nonce).value;
    assert keys.cipher == (keys.cipher + keys.iv + keys.mac)[..32];
    assert keys.iv == (keys.cipher + keys.iv + keys.mac)[32..44];
    assert keys.mac == (keys.cipher + keys.iv + keys.mac)[44..];
  }

  lemma SealedIsWritten(c: Crypto, m: seq<byte>, key: seq<byte>, nonce: seq<byte>)
    requires |key| == 32 && |nonce| == 32 && 1 <= |m| <= 65535
    ensures var e := Sealed(c, m, key, nonce);
      e.Ok? && Pad(m).Ok? && Enciphers(c, key, nonce, Pad(m).value, e.value.ciphertext)
      && Authenticates(c, key, nonce, e.value.ciphertext, e.value.mac)
  {
    hide Pad, GetMessageKeys, HkdfExpanded, XorByte;
    PadIs(m);
    KeysAre(c, key, nonce);
  }

  lemma EnciphersPrefix(c: Crypto, key: seq<byte>, nonce: seq<byte>, a: seq<byte>, b: seq<byte>, cipher: seq<byte>)
    requires |key| == 32 && |nonce| == 32 && Enciphers(c, key, nonce, a + b, cipher)
    ensures Enciphers(c, key, nonce, a, cipher)
  {
    hide HkdfExpanded, XorByte;
    assert forall i :: 0 <= i < |a| ==> (a + b)[i] == a[i];
  }

  // What encrypt prints, byte by byte: such a payload, with zeros after the text.
  lemma EncryptIs(c: Crypto, m: seq<byte>, key: seq<byte>, nonce: seq<byte>)
    requires |key| == 32 && |nonce| == 32 && 1 <= |m| <= 65535
    ensures var s, filling := Encrypt(c, m, key, nonce), CalcPaddedLen(|m|) - |m|;
      && s.Ok? && Base64.Decoded(s.value).Some? && filling >= 0
      && var raw := Base64.Decoded(s.value).value;
         && CarriesText(c, key, raw, m) && raw[1..33] == nonce
         && Enciphers(c, key, nonce, Head(m) + ZeroBytes(filling), raw[33..|raw| - 32])
  {
    hide Pad, CalcPaddedLen, Base64.Decoded, Base64.Encoded, GetMessageKeys, HkdfExpanded, Enciphers, Authenticates;
    PadIs(m);
    var e := Sealed(c, m, key, nonce).value;
    SealedIs(c, m, key, nonce);
    SealedIsWritten(c, m, key, nonce);
    EnciphersPrefix(c, key, nonce, Head(m), ZeroBytes(CalcPaddedLen(|m|) - |m|), e.ciphertext);
    PaddedRange(|m|);
    UnframedFramed(e);
    Base64.DecodeEncode(Framed(e));
  }

  lemma DeciphersTo(c: Crypto, key: seq<byte>, nonce: seq<byte>, plain: seq<byte>, cipher: seq<byte>)
    requires |key| == 32 && |nonce| == 32 && |plain| <= |cipher|
    ensures var keys := GetMessageKeys(c, key, nonce).value;
      Enciphers(c, key, nonce, plain, cipher) <==> ChaCha(c, keys.cipher, keys.iv, cipher)[..|plain|] == plain
  {
    hide XorByte, GetMessageKeys, HkdfExpanded;
    KeysAre(c, key, nonce);
    var keys := GetMessageKeys(c, key, nonce).value;
    var p := ChaCha(c, keys.cipher, keys.iv, cipher);
    forall i | 0 <= i < |plain|
      ensures p[i] == plain[i] <==> cipher[i] == XorByte(plain[i], c.keystream(keys.cipher, keys.iv, i))
    {
      XorByteTwice(cipher[i], c.keystream(keys.cipher, keys.iv, i));
      XorByteTwice(plain[i], c.keystream(keys.cipher, keys.iv, i));
    }
    assert p[..|plain|] == plain <==> forall i :: 0 <= i < |plain| ==> p[i] == plain[i];
  }

  lemma OpenedIs(c: Crypto, e: Envelope, key: seq<byte>, m: seq<byte>)
    requires |key| == 32 && |e.nonce| == 32 && |e.ciphertext| <= MAX_DATA_LEN - 65
    ensures Opened(c, e, key) == Ok(m) <==>
      && 1 <= |m| <= 65535 && |e.ciphertext| == 2 + CalcPaddedLen(|m|)
      && Enciphers(c, key, e.nonce, Head(m), e.ciphertext) && Authenticates(c, key, e.nonce, e.ciphertext, e.mac)
  {
    hide Pad, Unpad, ChaCha, CalcPaddedLen, GetMessageKeys, HkdfExpanded, Enciphers;
    KeysAre(c, key, e.nonce);
    var keys := GetMessageKeys(c, key, e.nonce).value;
    var p := ChaCha(c, keys.cipher, keys.iv, e.ciphertext);
    if Unpad(p) == Ok(m) {
      UnpadAccepts(p, m);
      PadIs(m);
      DeciphersTo(c, key, e.nonce, Head(m), e.ciphertext);
    }
    if 1 <= |m| <= 65535 && |e.ciphertext| == 2 + CalcPaddedLen(|m|) {
      PadIs(m);
      DeciphersTo(c, key, e.nonce, Head(m), e.ciphertext);
      if Enciphers(c, key, e.nonce, Head(m), e.ciphertext) {
        UnpadIgnoresFilling(p, m);
      }
    }
  }

  // What decrypt accepts, exactly: payloads of the right size that carry the text, whatever fills the rest.
  lemma DecryptAccepts(c: Crypto, payload: string, key: seq<byte>, m: seq<byte>)
    requires |key| == 32
    ensures Decrypt(c, payload, key) == Ok(m) <==>
      && 132 <= |payload| <= 87472 && payload[0] != '#'
      && Base64.Decoded(payload).Some? && CarriesText(c, key, Base64.Decoded(payload).value, m)
  {
    hide Opened, CalcPaddedLen, Base64.Decoded, HkdfExpanded, Enciphers, Authenticates;
    if 1 <= |m| <= 65535 {
      PaddedRange(|m|);
    }
    if DecodePayload(payload).Ok? {
      EnvelopeSizes(payload);
      OpenedIs(c, DecodePayload(payload).value, key, m);
    }
  }

  lemma EnvelopeSizes(payload: string)
    requires DecodePayload(payload).Ok?
    ensures var e := DecodePayload(payload).value; |e.nonce| == 32 && |e.ciphertext| <= MAX_DATA_LEN - 65
  {
    hide Base64.Decoded;
  }
}
