// Base64 (RFC 4648, section 4): the encoder, and the lenient decoder of the standard library.
module Base64 {
  import opened Wrappers
  import opened Octets
  import Utf8

  function CharOf(v: nat): char
    requires v < 64
  {
    if v < 26 then ('A' as int + v) as char
    else if v < 52 then ('a' as int + v - 26) as char
    else if v < 62 then ('0' as int + v - 52) as char
    else if v == 62 then '+' else '/'
  }

  function SixBits(c: char): (v: int)
    ensures -1 <= v < 64
  {
    if 'A' <= c <= 'Z' then c as int - 'A' as int
    else if 'a' <= c <= 'z' then c as int - 'a' as int + 26
    else if '0' <= c <= '9' then c as int - '0' as int + 52
    else if c == '+' then 62 else if c == '/' then 63 else -1
  }

  lemma SixBitsOfChar(v: nat)
    requires v < 64
    ensures SixBits(CharOf(v)) == v && CharOf(v) != '='
  {
  }

  function Encoded(data: seq<byte>): (s: string)
    ensures |s| == (|data| + 2) / 3 * 4
  {
    if data == [] then ""
    else if |data| == 1 then
      [CharOf(data[0] / 4), CharOf(data[0] % 4 * 16), '=', '=']
    else if |data| == 2 then
      [CharOf(data[0] / 4), CharOf(data[0] % 4 * 16 + data[1] / 16), CharOf(data[1] % 16 * 4), '=']
    else
      Group(data[0], data[1], data[2]) + Encoded(data[3..])
  }

  function Group(a: byte, b: byte, c: byte): (s: string)
    ensures |s| == 4
  {
    [CharOf(a / 4), CharOf(a % 4 * 16 + b / 16), CharOf(b % 16 * 4 + c / 64), CharOf(c % 64)]
  }

  // The decoder's registers: position in the quad, bits left over, pad characters in a row.
  datatype Decoder = Decoder(quad: nat, left: nat, pads: nat, out: seq<byte>, done: bool)
  {
    predicate Sound() {
      match quad
      case 0 => true
      case 1 => left < 64
      case 2 => left < 16
      case 3 => left < 4
      case _ => false
    }
  }

  // One character. Characters outside the alphabet are skipped; a completed pad ends the input.
  function Fed(d: Decoder, c: char): (d': Decoder)
    requires d.Sound()
    ensures d'.Sound()
  {
    if d.done then d
    else if c == '=' then
      if d.quad >= 2 then d.(pads := d.pads + 1, done := d.quad + d.pads + 1 >= 4) else d
    else
      var v := SixBits(c);
      if v < 0 then d
      else match d.quad
        case 0 => d.(quad := 1, left := v, pads := 0)
        case 1 => Decoder(2, v % 16, 0, d.out + [d.left * 4 + v / 16], false)
        case 2 => Decoder(3, v % 4, 0, d.out + [d.left * 16 + v / 4], false)
        case _ => Decoder(0, 0, 0, d.out + [d.left * 64 + v], false)
  }

  function FedAll(d: Decoder, s: string): (d': Decoder)
    requires d.Sound()
    ensures d'.Sound()
    decreases |s|
  {
    if s == "" then d else FedAll(Fed(d, s[0]), s[1..])
  }

  // base64.b64decode on a string: None for its two errors, a character that is not ASCII and an
  // incomplete last quad.
  function Decoded(s: string): Option<seq<byte>> {
    var d := FedAll(Decoder(0, 0, 0, [], false), s);
    if !Utf8.Ascii(s) || (!d.done && d.quad != 0) then None else Some(d.out)
  }

  method Decode(s: string) returns (r: Option<seq<byte>>)
    ensures r == Decoded(s)
  {
    if exists c <- s :: c >= 128 as char {
      return None;
    }
    var d := Decoder(0, 0, 0, [], false);
    var i := 0;
    while i < |s| && !d.done
      invariant i <= |s| && d.Sound()
      invariant FedAll(d, s[i..]) == FedAll(Decoder(0, 0, 0, [], false), s)
    {
      assert s[i..][1..] == s[i + 1..];
      d := Fed(d, s[i]);
      i := i + 1;
    }
    if d.done { DoneStays(d, s[i..]); } else { assert s[i..] == ""; }
    return if !d.done && d.quad != 0 then None else Some(d.out);
  }

  lemma {:induction false} DoneStays(d: Decoder, s: string)
    requires d.Sound() && d.done
    ensures FedAll(d, s) == d
    decreases |s|
  {
    if s != "" {
      DoneStays(d, s[1..]);
    }
  }

  lemma FeedOne(d: Decoder, c: char, rest: string)
    requires d.Sound()
    ensures FedAll(d, [c] + rest) == FedAll(Fed(d, c), rest)
  {
    assert ([c] + rest)[1..] == rest;
  }

  lemma GroupBits(a: byte, b: byte, c: byte)
    ensures var v0, v1, v2, v3 := a / 4, a % 4 * 16 + b / 16, b % 16 * 4 + c / 64, c % 64;
      && v0 < 64 && v1 < 64 && v2 < 64 && v3 < 64
      && v0 * 4 + v1 / 16 == a && v1 % 16 * 16 + v2 / 4 == b && v2 % 4 * 64 + v3 == c
  {
  }

  // Four characters whose six bits are known.
  lemma FeedQuad(out: seq<byte>, c0: char, c1: char, c2: char, c3: char, rest: string)
    requires SixBits(c0) >= 0 && SixBits(c1) >= 0 && SixBits(c2) >= 0 && SixBits(c3) >= 0
    requires c0 != '=' && c1 != '=' && c2 != '=' && c3 != '='
    ensures var v0, v1, v2, v3 := SixBits(c0), SixBits(c1), SixBits(c2), SixBits(c3);
      FedAll(Decoder(0, 0, 0, out, false), [c0, c1, c2, c3] + rest)
      == FedAll(Decoder(0, 0, 0, out + [v0 * 4 + v1 / 16, v1 % 16 * 16 + v2 / 4, v2 % 4 * 64 + v3], false), rest)
  {
    hide FedAll, SixBits;
    var v0, v1, v2, v3 := SixBits(c0), SixBits(c1), SixBits(c2), SixBits(c3);
    var d0 := Decoder(0, 0, 0, out, false);
    var d1 := Fed(d0, c0);
    var d2 := Fed(d1, c1);
    var d3 := Fed(d2, c2);
    var x, y, z := v0 * 4 + v1 / 16, v1 % 16 * 16 + v2 / 4, v2 % 4 * 64 + v3;
    assert Fed(d3, c3).out == out + [x] + [y] + [z];
    assert out + [x] + [y] + [z] == out + [x, y, z];
    FeedOne(d0, c0, [c1, c2, c3] + rest);
    FeedOne(d1, c1, [c2, c3] + rest);
    FeedOne(d2, c2, [c3] + rest);
    FeedOne(d3, c3, rest);
    assert [c0, c1, c2, c3] + rest == [c0] + ([c1, c2, c3] + rest);
    assert [c1, c2, c3] + rest == [c1] + ([c2, c3] + rest);
    assert [c2, c3] + rest == [c2] + ([c3] + rest);
  }

  lemma FeedGroup(out: seq<byte>, a: byte, b: byte, c: byte, rest: string)
    ensures FedAll(Decoder(0, 0, 0, out, false), Group(a, b, c) + rest)
            == FedAll(Decoder(0, 0, 0, out + [a, b, c], false), rest)
  {
    hide FedAll, SixBits, CharOf;
    var v0, v1, v2, v3 := a / 4, a % 4 * 16 + b / 16, b % 16 * 4 + c / 64, c % 64;
    GroupBits(a, b, c);
    SixBitsOfChar(v0);
    SixBitsOfChar(v1);
    SixBitsOfChar(v2);
    SixBitsOfChar(v3);
    FeedQuad(out, CharOf(v0), CharOf(v1), CharOf(v2), CharOf(v3), rest);
  }

  lemma {:induction false} FeedEncoded(out: seq<byte>, data: seq<byte>)
    ensures var d := FedAll(Decoder(0, 0, 0, out, false), Encoded(data));
      d.out == out + data && (d.done || d.quad == 0)
    decreases |data|
  {
    if |data| >= 3 {
      FeedGroup(out, data[0], data[1], data[2], Encoded(data[3..]));
      FeedEncoded(out + [data[0], data[1], data[2]], data[3..]);
      assert out + [data[0], data[1], data[2]] + data[3..] == out + data;
    } else if |data| == 2 {
      FeedTwo(out, data[0], data[1]);
      assert data == [data[0], data[1]];
    } else if |data| == 1 {
      FeedSingle(out, data[0]);
      assert data == [data[0]];
    }
  }

  lemma FeedTwo(out: seq<byte>, a: byte, b: byte)
    ensures var d := FedAll(Decoder(0, 0, 0, out, false), Encoded([a, b])); d.out == out + [a, b] && d.done
  {
    hide FedAll;
    var v0, v1, v2 := a / 4, a % 4 * 16 + b / 16, b % 16 * 4;
    SixBitsOfChar(v0);
    SixBitsOfChar(v1);
    SixBitsOfChar(v2);
    var d0 := Decoder(0, 0, 0, out, false);
    var d1 := Fed(d0, CharOf(v0));
    var d2 := Fed(d1, CharOf(v1));
    var d3 := Fed(d2, CharOf(v2));
    FeedOne(d0, CharOf(v0), [CharOf(v1), CharOf(v2), '=']);
    FeedOne(d1, CharOf(v1), [CharOf(v2), '=']);
    FeedOne(d2, CharOf(v2), ['=']);
    FeedOne(d3, '=', []);
    DoneStays(Fed(d3, '='), []);
    assert Encoded([a, b]) == [CharOf(v0)] + [CharOf(v1), CharOf(v2), '='];
    assert [CharOf(v1), CharOf(v2), '='] == [CharOf(v1)] + [CharOf(v2), '='];
    assert [CharOf(v2), '='] == [CharOf(v2)] + ['='] && ['='] == ['='] + [];
    assert out + [a] + [b] == out + [a, b];
  }

  lemma FeedSingle(out: seq<byte>, a: byte)
    ensures var d := FedAll(Decoder(0, 0, 0, out, false), Encoded([a])); d.out == out + [a] && d.done
  {
    hide FedAll;
    var v0, v1 := a / 4, a % 4 * 16;
    SixBitsOfChar(v0);
    SixBitsOfChar(v1);
    var d0 := Decoder(0, 0, 0, out, false);
    var d1 := Fed(d0, CharOf(v0));
    var d2 := Fed(d1, CharOf(v1));
    var d3 := Fed(d2, '=');
    FeedOne(d0, CharOf(v0), [CharOf(v1), '=', '=']);
    FeedOne(d1, CharOf(v1), ['=', '=']);
    FeedOne(d2, '=', ['=']);
    FeedOne(d3, '=', []);
    DoneStays(Fed(d3, '='), []);
    assert Encoded([a]) == [CharOf(v0)] + [CharOf(v1), '=', '='];
    assert [CharOf(v1), '=', '='] == [CharOf(v1)] + ['=', '='];
    assert ['=', '='] == ['='] + ['='] && ['='] == ['='] + [];
  }

  lemma {:induction false} EncodedIsPlain(data: seq<byte>)
    ensures forall i :: 0 <= i < |Encoded(data)| ==> SixBits(Encoded(data)[i]) >= 0 || Encoded(data)[i] == '='
    ensures Utf8.Ascii(Encoded(data))
    decreases |data|
  {
    if |data| >= 3 {
      EncodedIsPlain(data[3..]);
    }
  }

  lemma DecodeEncode(data: seq<byte>)
    ensures Decoded(Encoded(data)) == Some(data)
  {
    FeedEncoded([], data);
    EncodedIsPlain(data);
    assert [] + data == data;
  }
}
