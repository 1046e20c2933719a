// Reading JSON text: strings, integers and arrays as RFC 8259 states them in sections 7, 6 and 5.
module JsonReader {
  import opened Wrappers
  import opened Text
  import Json

  // ---- strings -------------------------------------------------------------------------------------

  // Four hexadecimal digits of a \u escape.
  function CodeUnit(t: string): (r: Option<nat>)
    ensures r.Some? ==> r.value < 0x10000
  {
    if |t| < 4 || HexValue(t[0]) < 0 || HexValue(t[1]) < 0 || HexValue(t[2]) < 0 || HexValue(t[3]) < 0 then None
    else Some(((HexValue(t[0]) * 16 + HexValue(t[1])) * 16 + HexValue(t[2])) * 16 + HexValue(t[3]))
  }

  // A character beyond the first 65536 takes two escapes, a surrogate pair.
  function UnicodeEscape(t: string): (r: Option<(char, string)>)
    ensures r.Some? ==> |r.value.1| < |t|
  {
    var u :- CodeUnit(t);
    if u < 0xD800 || u >= 0xE000 then Some((u as char, t[4..]))
    else if u >= 0xDC00 || !("\\u" <= t[4..]) then None
    else
      var v :- CodeUnit(t[6..]);
      if v < 0xDC00 || v >= 0xE000 then None
      else Some(((0x10000 + (u - 0xD800) * 0x400 + (v - 0xDC00)) as char, t[10..]))
  }

  // What follows a backslash.
  function EscapeSequence(t: string): (r: Option<(char, string)>)
    ensures r.Some? ==> |r.value.1| < |t|
  {
    if t == "" then None
    else match t[0]
      case '"' => Some(('"', t[1..]))
      case '\\' => Some(('\\', t[1..]))
      case '/' => Some(('/', t[1..]))
      case 'b' => Some((8 as char, t[1..]))
      case 'f' => Some((12 as char, t[1..]))
      case 'n' => Some((10 as char, t[1..]))
      case 'r' => Some((13 as char, t[1..]))
      case 't' => Some((9 as char, t[1..]))
      case 'u' =>
        var (c, rest) :- UnicodeEscape(t[1..]);
        Some((c, rest))
      case _ => None
  }

  // The characters up to the closing quotation mark, and what follows it.
  function Characters(t: string): (r: Option<(string, string)>)
    ensures r.Some? ==> |r.value.1| < |t|
    decreases |t|
  {
    if t == "" then None
    else if t[0] == '"' then Some(("", t[1..]))
    else if t[0] == '\\' then
      var (c, rest) :- EscapeSequence(t[1..]);
      var (s, after) :- Characters(rest);
      Some(([c] + s, after))
    else if t[0] < ' ' then None
    else
      var (s, after) :- Characters(t[1..]);
      Some(([t[0]] + s, after))
  }

  function ReadString(t: string): (r: Option<(string, string)>)
    ensures r.Some? ==> |r.value.1| < |t|
  {
    if t == "" || t[0] != '"' then None else Characters(t[1..])
  }

  lemma EscapeIsRead(c: char, tail: string)
    ensures var t := Json.Escape(c) + tail;
      if t[0] == '\\' then EscapeSequence(t[1..]) == Some((c, tail))
      else t == [c] + tail && c != '"' && c >= ' '
  {
    var e := Json.Escape(c);
    assert (e + tail)[1..] == e[1..] + tail;
    if |e| == 6 {
      ControlIsRead(c, tail);
    } else if |e| == 2 {
      assert (e[1..] + tail)[1..] == tail;
    }
  }

  lemma ControlIsRead(c: char, tail: string)
    requires c as int < 32
    ensures var hex := "00" + [HexDigit(c as int / 16), HexDigit(c as int % 16)];
      UnicodeEscape(hex + tail) == Some((c, tail))
  {
    var hex := "00" + [HexDigit(c as int / 16), HexDigit(c as int % 16)];
    assert HexValue('0') == 0;
    assert (hex + tail)[4..] == tail;
  }

  // Escaped text and a quotation mark are read as the text, for every text.
  lemma {:induction false} EscapedIsRead(s: string, tail: string)
    ensures Characters(Json.Escaped(s) + ("\"" + tail)) == Some((s, tail))
  {
    hide EscapeSequence, Json.Escape;
    if s == "" {
      assert Json.Escaped(s) + ("\"" + tail) == "\"" + tail && ("\"" + tail)[1..] == tail;
    } else {
      var rest := Json.Escaped(s[1..]) + ("\"" + tail);
      EscapedIsRead(s[1..], tail);
      EscapeIsRead(s[0], rest);
      var t := Json.Escape(s[0]) + rest;
      assert Json.Escaped(s) + ("\"" + tail) == t;
      assert ([s[0]] + rest)[1..] == rest;
      assert [s[0]] + s[1..] == s;
    }
  }

  lemma StringIsRead(s: string, tail: string)
    ensures ReadString(Json.String(s) + tail) == Some((s, tail))
  {
    var t := Json.String(s) + tail;
    assert t[1..] == Json.Escaped(s) + ("\"" + tail);
    EscapedIsRead(s, tail);
  }

  // ---- integers ------------------------------------------------------------------------------------

  predicate IsDigit(c: char) {
    '0' <= c <= '9'
  }

  function Digits(t: string, value: nat): (r: (nat, string))
    ensures |r.1| <= |t|
    decreases |t|
  {
    if t != "" && IsDigit(t[0]) then Digits(t[1..], value * 10 + (t[0] as int - '0' as int)) else (value, t)
  }

  // A leading zero stands alone.
  function ReadNatural(t: string): (r: Option<(nat, string)>)
    ensures r.Some? ==> |r.value.1| < |t|
  {
    if t == "" || !IsDigit(t[0]) then None
    else if t[0] == '0' then Some((0, t[1..]))
    else Some(Digits(t[1..], t[0] as int - '0' as int))
  }

  function ReadNumber(t: string): (r: Option<(int, string)>)
    ensures r.Some? ==> |r.value.1| < |t|
  {
    if t != "" && t[0] == '-' then
      var (n, rest) :- ReadNatural(t[1..]);
      var value: int := n;
      Some((0 - value, rest))
    else
      var (n, rest) :- ReadNatural(t);
      var value: int := n;
      Some((value, rest))
  }

  lemma {:induction false} NaturalIsRead(n: nat, tail: string)
    ensures IsDigit(Json.Natural(n)[0]) && Digits(Json.Natural(n) + tail, 0) == Digits(tail, n)
    ensures Json.Natural(n)[0] == '0' ==> n == 0
  {
    var last := HexDigit(n % 10);
    assert IsDigit(last) && last as int - '0' as int == n % 10;
    if n < 10 {
      assert (Json.Natural(n) + tail)[1..] == tail;
    } else {
      NaturalIsRead(n / 10, [last] + tail);
      assert Json.Natural(n) + tail == Json.Natural(n / 10) + ([last] + tail);
      assert ([last] + tail)[1..] == tail;
    }
  }

  lemma NumberIsRead(n: int, tail: string)
    requires tail == "" || !IsDigit(tail[0])
    ensures ReadNumber(Json.Number(n) + tail) == Some((n, tail))
  {
    var m := if n < 0 then -n else n;
    var t := Json.Natural(m) + tail;
    NaturalIsRead(m, tail);
    assert Digits(tail, m) == (m, tail);
    assert Digits(t, 0) == Digits(t[1..], t[0] as int - '0' as int);
    if m == 0 {
      assert t[1..] == tail;
    }
    assert ReadNatural(t) == Some((m, tail));
    if n < 0 {
      assert ("-" + Json.Natural(m)) + tail == "-" + t;
      assert ("-" + t)[1..] == t;
    }
  }

  // ---- arrays --------------------------------------------------------------------------------------

  // The items of an array of strings from the first on, up to its bracket.
  function StringItems(t: string): (r: Option<(seq<string>, string)>)
    ensures r.Some? ==> |r.value.1| < |t|
    decreases |t|
  {
    var (s, rest) :- ReadString(t);
    if rest != "" && rest[0] == ']' then Some(([s], rest[1..]))
    else if rest != "" && rest[0] == ',' then
      var (more, after) :- StringItems(rest[1..]);
      Some(([s] + more, after))
    else None
  }

  function ReadStrings(t: string): (r: Option<(seq<string>, string)>)
    ensures r.Some? ==> |r.value.1| < |t|
  {
    if "[]" <= t then Some(([], t[2..])) else if t != "" && t[0] == '[' then StringItems(t[1..]) else None
  }

  function ListItems(t: string): (r: Option<(seq<seq<string>>, string)>)
    ensures r.Some? ==> |r.value.1| < |t|
    decreases |t|
  {
    var (s, rest) :- ReadStrings(t);
    if rest != "" && rest[0] == ']' then Some(([s], rest[1..]))
    else if rest != "" && rest[0] == ',' then
      var (more, after) :- ListItems(rest[1..]);
      Some(([s] + more, after))
    else None
  }

  function ReadLists(t: string): (r: Option<(seq<seq<string>>, string)>)
    ensures r.Some? ==> |r.value.1| < |t|
  {
    if "[]" <= t then Some(([], t[2..])) else if t != "" && t[0] == '[' then ListItems(t[1..]) else None
  }

  function Printed(items: seq<string>): seq<string> {
    seq(|items|, i requires 0 <= i < |items| => Json.String(items[i]))
  }

  lemma {:induction false} StringItemsRead(items: seq<string>, tail: string)
    requires items != []
    ensures StringItems(Join(Printed(items), ",") + ("]" + tail)) == Some((items, tail))
  {
    hide ReadString, Json.String;
    var printed := Printed(items);
    if |items| == 1 {
      StringIsRead(items[0], "]" + tail);
      assert ("]" + tail)[1..] == tail && items == [items[0]];
    } else {
      assert printed[1..] == Printed(items[1..]);
      var rest := Join(Printed(items[1..]), ",") + ("]" + tail);
      assert Join(printed, ",") + ("]" + tail) == Json.String(items[0]) + ("," + rest);
      StringIsRead(items[0], "," + rest);
      assert ("," + rest)[1..] == rest;
      StringItemsRead(items[1..], tail);
      assert [items[0]] + items[1..] == items;
    }
  }

  lemma StringStarts(s: string)
    ensures Json.String(s) != "" && Json.String(s)[0] == '"'
  {
  }

  lemma {:induction false} JoinStarts(items: seq<string>)
    requires items != [] && items[0] != ""
    ensures Join(items, ",") != "" && Join(items, ",")[0] == items[0][0]
  {
  }

  lemma StringsAreRead(items: seq<string>, tail: string)
    ensures ReadStrings(Json.Strings(items) + tail) == Some((items, tail))
  {
    hide Json.String, StringItems, Join;
    var t := Json.Strings(items) + tail;
    if items == [] {
      assert Printed(items) == [];
      EmptyJoin();
      assert t == "[]" + tail && t[2..] == tail;
    } else {
      assert t == "[" + (Join(Printed(items), ",") + ("]" + tail));
      assert t[1..] == Join(Printed(items), ",") + ("]" + tail);
      StringItemsRead(items, tail);
      StringStarts(items[0]);
      JoinStarts(Printed(items));
      assert t[1] == '"';
    }
  }

  lemma EmptyJoin()
    ensures Join([], ",") == ""
  {
  }

  function PrintedLists(lists: seq<seq<string>>): seq<string> {
    seq(|lists|, i requires 0 <= i < |lists| => Json.Strings(lists[i]))
  }

  lemma {:induction false} ListItemsRead(lists: seq<seq<string>>, tail: string)
    requires lists != []
    ensures ListItems(Join(PrintedLists(lists), ",") + ("]" + tail)) == Some((lists, tail))
  {
    hide ReadStrings, Json.Strings;
    var printed := PrintedLists(lists);
    if |lists| == 1 {
      StringsAreRead(lists[0], "]" + tail);
      assert ("]" + tail)[1..] == tail && lists == [lists[0]];
    } else {
      assert printed[1..] == PrintedLists(lists[1..]);
      var rest := Join(PrintedLists(lists[1..]), ",") + ("]" + tail);
      assert Join(printed, ",") + ("]" + tail) == Json.Strings(lists[0]) + ("," + rest);
      StringsAreRead(lists[0], "," + rest);
      assert ("," + rest)[1..] == rest;
      ListItemsRead(lists[1..], tail);
      assert [lists[0]] + lists[1..] == lists;
    }
  }

  lemma StringsStart(items: seq<string>)
    ensures Json.Strings(items) != "" && Json.Strings(items)[0] == '['
  {
  }

  lemma ListsAreRead(lists: seq<seq<string>>, tail: string)
    ensures ReadLists(Json.Lists(lists) + tail) == Some((lists, tail))
  {
    hide Json.Strings, ListItems, Join;
    var t := Json.Lists(lists) + tail;
    if lists == [] {
      assert PrintedLists(lists) == [];
      EmptyJoin();
      assert t == "[]" + tail && t[2..] == tail;
    } else {
      assert t == "[" + (Join(PrintedLists(lists), ",") + ("]" + tail));
      assert t[1..] == Join(PrintedLists(lists), ",") + ("]" + tail);
      ListItemsRead(lists, tail);
      StringsStart(lists[0]);
      JoinStarts(PrintedLists(lists));
      assert t[1] == '[';
    }
  }
}
