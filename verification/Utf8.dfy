// UTF-8.
module Utf8 {
  import opened Wrappers
  import opened Octets

  function Bytes(c: char): (bs: seq<byte>)
    ensures 1 <= |bs| <= 4
  {
    var n := c as int;
    if n < 0x80 then [n]
    else if n < 0x800 then [0xC0 + n / 64, 0x80 + n % 64]
    else if n < 0x10000 then [0xE0 + n / 4096, 0x80 + n / 64 % 64, 0x80 + n % 64]
    else [0xF0 + n / 262144, 0x80 + n / 4096 % 64, 0x80 + n / 64 % 64, 0x80 + n % 64]
  }

  // str.encode("utf-8")
  function Encode(s: string): (bs: seq<byte>)
    ensures |bs| >= |s|
  {
    if s == "" then [] else Bytes(s[0]) + Encode(s[1..])
  }

  // ---- decoding (RFC 3629, section 3) ----------------------------------------------------------------

  predicate IsTail(b: byte) {
    0x80 <= b < 0xC0
  }

  function CharOf(n: int): Option<char> {
    if 0 <= n < 0xD800 || 0xE000 <= n < 0x110000 then Some(n as char) else None
  }

  // The first character and how many bytes it takes; longer forms than needed are errors.
  function Two(a: int, b: int): int {
    (a - 0xC0) * 64 + (b - 0x80)
  }

  function Three(a: int, b: int, c: int): int {
    ((a - 0xE0) * 64 + (b - 0x80)) * 64 + (c - 0x80)
  }

  function Four(a: int, b: int, c: int, d: int): int {
    (((a - 0xF0) * 64 + (b - 0x80)) * 64 + (c - 0x80)) * 64 + (d - 0x80)
  }

  // The first character and how many bytes it takes; longer forms than needed are errors.
  function First(bs: seq<byte>): (r: Option<(char, nat)>)
    ensures r.Some? ==> 1 <= r.value.1 <= |bs|
  {
    if bs == [] then None
    else if bs[0] < 0x80 then Some((bs[0] as char, 1))
    else if 0xC2 <= bs[0] < 0xE0 && |bs| >= 2 && IsTail(bs[1]) then
      var c :- CharOf(Two(bs[0], bs[1]));
      Some((c, 2))
    else if 0xE0 <= bs[0] < 0xF0 && |bs| >= 3 && IsTail(bs[1]) && IsTail(bs[2]) then
      if Three(bs[0], bs[1], bs[2]) < 0x800 then None else
      var c :- CharOf(Three(bs[0], bs[1], bs[2]));
      Some((c, 3))
    else if 0xF0 <= bs[0] < 0xF5 && |bs| >= 4 && IsTail(bs[1]) && IsTail(bs[2]) && IsTail(bs[3]) then
      if Four(bs[0], bs[1], bs[2], bs[3]) < 0x10000 then None else
      var c :- CharOf(Four(bs[0], bs[1], bs[2], bs[3]));
      Some((c, 4))
    else None
  }

  // bytes.decode("utf-8")
  function Decoded(bs: seq<byte>): Option<string>
    decreases |bs|
  {
    if bs == [] then Some("")
    else
      var (c, n) :- First(bs);
      var rest :- Decoded(bs[n..]);
      Some([c] + rest)
  }

  lemma InSixties(n: nat)
    ensures n == n / 64 * 64 + n % 64
    ensures n == (n / 4096 * 64 + n / 64 % 64) * 64 + n % 64
    ensures n == ((n / 262144 * 64 + n / 4096 % 64) * 64 + n / 64 % 64) * 64 + n % 64
  {
    assert n / 4096 == n / 64 / 64 && n / 262144 == n / 4096 / 64;
  }

  lemma BytesDenote(c: char)
    ensures var n, bs := c as int, Bytes(c);
      && CharOf(n) == Some(c)
      && (0x80 <= n < 0x800 ==> |bs| == 2 && Two(bs[0], bs[1]) == n)
      && (0x800 <= n < 0x10000 ==> |bs| == 3 && Three(bs[0], bs[1], bs[2]) == n)
      && (0x10000 <= n ==> |bs| == 4 && Four(bs[0], bs[1], bs[2], bs[3]) == n)
  {
    InSixties(c as int);
  }

  lemma FirstIsRead(c: char, tail: seq<byte>)
    ensures First(Bytes(c) + tail) == Some((c, |Bytes(c)|)) && (Bytes(c) + tail)[|Bytes(c)|..] == tail
  {
    hide Two, Three, Four, CharOf;
    BytesDenote(c);
  }

  // Decoding what was encoded gives the text back, for every text.
  lemma {:induction false} DecodeEncode(s: string)
    ensures Decoded(Encode(s)) == Some(s)
  {
    hide First, Bytes;
    if s != "" {
      FirstIsRead(s[0], Encode(s[1..]));
      DecodeEncode(s[1..]);
      assert [s[0]] + s[1..] == s;
    }
  }

  lemma FirstIsBytes(bs: seq<byte>)
    requires First(bs).Some?
    ensures var (c, n) := First(bs).value; Bytes(c) == bs[..n]
  {
    hide Two, Three, Four, CharOf, Bytes;
    var (c, n) := First(bs).value;
    if n == 1 {
      OneByte(bs[0]);
    } else if n == 2 {
      TwoBytes(bs[0], bs[1], c);
    } else if n == 3 {
      ThreeBytes(bs[0], bs[1], bs[2], c);
    } else {
      FourBytes(bs[0], bs[1], bs[2], bs[3], c);
    }
  }

  lemma OneByte(a: byte)
    requires a < 0x80
    ensures Bytes(a as char) == [a]
  {
  }

  lemma TwoBytes(a: byte, b: byte, c: char)
    requires 0xC2 <= a < 0xE0 && IsTail(b) && CharOf(Two(a, b)) == Some(c)
    ensures Bytes(c) == [a, b]
  {
    TwoSixties(a - 0xC0, b - 0x80);
  }

  lemma ThreeBytes(a: byte, b: byte, d: byte, c: char)
    requires 0xE0 <= a < 0xF0 && IsTail(b) && IsTail(d)
    requires Three(a, b, d) >= 0x800 && CharOf(Three(a, b, d)) == Some(c)
    ensures Bytes(c) == [a, b, d]
  {
    var q := (a - 0xE0) as int * 64 + (b - 0x80) as int;
    TwoSixties(a - 0xE0, b - 0x80);
    TwoSixties(q, d - 0x80);
  }

  lemma FourBytes(a: byte, b: byte, d: byte, e: byte, c: char)
    requires 0xF0 <= a < 0xF5 && IsTail(b) && IsTail(d) && IsTail(e)
    requires Four(a, b, d, e) >= 0x10000 && CharOf(Four(a, b, d, e)) == Some(c)
    ensures Bytes(c) == [a, b, d, e]
  {
    var p := (a - 0xF0) as int * 64 + (b - 0x80) as int;
    TwoSixties(a - 0xF0, b - 0x80);
    TwoSixties(p, d - 0x80);
    TwoSixties(p * 64 + (d - 0x80) as int, e - 0x80);
  }

  lemma TwoSixties(q: int, r: int)
    requires 0 <= q && 0 <= r < 64
    ensures (q * 64 + r) / 64 == q && (q * 64 + r) % 64 == r
    ensures (q * 64 + r) / 4096 == q / 64 && (q * 64 + r) / 262144 == q / 4096
  {
    assert (q * 64 + r) / 4096 == (q * 64 + r) / 64 / 64;
    assert (q * 64 + r) / 262144 == (q * 64 + r) / 64 / 4096;
  }

  // Nothing else is decoded: what gives a text is the encoding of that text.
  lemma {:induction false} DecodedIsEncoded(bs: seq<byte>)
    ensures Decoded(bs).Some? ==> Encode(Decoded(bs).value) == bs
    decreases |bs|
  {
    hide First, Bytes;
    if bs != [] && Decoded(bs).Some? {
      var (c, n) := First(bs).value;
      FirstIsBytes(bs);
      DecodedIsEncoded(bs[n..]);
      var rest := Decoded(bs[n..]).value;
      assert Decoded(bs).value == [c] + rest && ([c] + rest)[1..] == rest;
      assert bs[..n] + bs[n..] == bs;
    }
  }

  predicate Ascii(s: string) {
    forall c <- s :: c < 128 as char
  }

  lemma {:induction false} AsciiLength(s: string)
    requires Ascii(s)
    ensures |Encode(s)| == |s|
  {
    if s != "" {
      assert s[0] in s;
      assert forall c <- s[1..] :: c in s;
      AsciiLength(s[1..]);
    }
  }

  lemma {:induction false} EncodeConcat(a: string, b: string)
    ensures Encode(a + b) == Encode(a) + Encode(b)
  {
    if a == "" {
      assert a + b == b;
    } else {
      assert (a + b)[1..] == a[1..] + b;
      EncodeConcat(a[1..], b);
    }
  }
}
