// The JSON text the program prints: json.dumps with compact separators and ensure_ascii off, in UTF-8.
module Json {
  import Text
  import Utf8

  function Escape(c: char): (t: string)
    ensures t != ""
  {
    if c == '"' then "\\\""
    else if c == '\\' then "\\\\"
    else if c == '\n' then "\\n"
    else if c == '\r' then "\\r"
    else if c == '\t' then "\\t"
    else if c as int == 8 then "\\b"
    else if c as int == 12 then "\\f"
    else if c as int < 32 then "\\u00" + [Text.HexDigit(c as int / 16), Text.HexDigit(c as int % 16)]
    else [c]
  }

  function Escaped(s: string): string {
    if s == "" then "" else Escape(s[0]) + Escaped(s[1..])
  }

  function String(s: string): string {
    "\"" + Escaped(s) + "\""
  }

  function Natural(n: nat): (t: string)
    ensures |t| >= 1
  {
    if n < 10 then [Text.HexDigit(n)] else Natural(n / 10) + [Text.HexDigit(n % 10)]
  }

  function Number(n: int): (t: string)
    ensures |t| >= 1
  {
    if n < 0 then "-" + Natural(-n) else Natural(n)
  }

  function Strings(items: seq<string>): string {
    "[" + Text.Join(seq(|items|, i requires 0 <= i < |items| => String(items[i])), ",") + "]"
  }

  function Lists(lists: seq<seq<string>>): string {
    "[" + Text.Join(seq(|lists|, i requires 0 <= i < |lists| => Strings(lists[i])), ",") + "]"
  }

  // Text that json.dumps copies unchanged, one byte a character.
  predicate Plain(s: string) {
    forall i :: 0 <= i < |s| ==> ' ' <= s[i] <= '~' && s[i] != '"' && s[i] != '\\'
  }

  lemma {:induction false} PlainIsCopied(s: string)
    requires Plain(s)
    ensures Escaped(s) == s
  {
    if s != "" {
      PlainIsCopied(s[1..]);
    }
  }

  lemma PlainString(s: string)
    requires Plain(s)
    ensures |String(s)| == |s| + 2 && Utf8.Ascii(String(s))
  {
    PlainIsCopied(s);
  }

  lemma EscapeIsNoShorter(c: char)
    ensures |Utf8.Encode(Escape(c))| >= |Utf8.Bytes(c)|
  {
    if Escape(c) == [c] {
      assert Utf8.Encode([c]) == Utf8.Bytes(c) + Utf8.Encode([]);
    }
  }

  // Escaping never makes a text shorter.
  lemma {:induction false} EscapedIsNoShorter(s: string)
    ensures |Utf8.Encode(Escaped(s))| >= |Utf8.Encode(s)|
  {
    if s != "" {
      EscapeIsNoShorter(s[0]);
      EscapedIsNoShorter(s[1..]);
      Utf8.EncodeConcat(Escape(s[0]), Escaped(s[1..]));
    }
  }

  lemma NumberIsAscii(n: int)
    ensures Utf8.Ascii(Number(n))
  {
    NaturalIsAscii(if n < 0 then -n else n);
  }

  lemma {:induction false} NaturalIsAscii(n: nat)
    ensures Utf8.Ascii(Natural(n))
  {
    if n >= 10 {
      NaturalIsAscii(n / 10);
    }
  }

  lemma TenDigits(n: int)
    requires 1000000000 <= n < 10000000000
    ensures |Number(n)| == 10
  {
    assert |Natural(n / 1000000000)| == 1;
    assert |Natural(n / 100000000)| == 2;
    assert |Natural(n / 10000000)| == 3;
    assert |Natural(n / 1000000)| == 4;
    assert |Natural(n / 100000)| == 5;
    assert |Natural(n / 10000)| == 6;
    assert |Natural(n / 1000)| == 7;
    assert |Natural(n / 100)| == 8;
    assert |Natural(n / 10)| == 9;
  }
}
