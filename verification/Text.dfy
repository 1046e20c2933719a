// The string operations the program uses, on sequences of characters.
module Text {

  // str.isspace for one character.
  predicate IsSpace(c: char) {
    var n := c as int;
    || 9 <= n <= 13 || 28 <= n <= 32 || n == 0x85 || n == 0xA0 || n == 0x1680 || 0x2000 <= n <= 0x200A
    || n == 0x2028 || n == 0x2029 || n == 0x202F || n == 0x205F || n == 0x3000
  }

  function LStripBy(s: string, drop: char -> bool): (r: string)
    ensures r == [] || !drop(r[0])
    ensures |r| <= |s| && s[|s| - |r|..] == r
  {
    if s != [] && drop(s[0]) then LStripBy(s[1..], drop) else s
  }

  function RStripBy(s: string, drop: char -> bool): (r: string)
    ensures r == [] || !drop(r[|r| - 1])
    ensures r <= s
  {
    if s != [] && drop(s[|s| - 1]) then RStripBy(s[..|s| - 1], drop) else s
  }

  function StripBy(s: string, drop: char -> bool): string {
    RStripBy(LStripBy(s, drop), drop)
  }

  function Strip(s: string): string {
    StripBy(s, IsSpace)
  }

  // Neither end is white space.
  predicate Trimmed(s: string) {
    s == [] || (!IsSpace(s[0]) && !IsSpace(s[|s| - 1]))
  }

  lemma Associative(a: string, b: string, c: string)
    ensures a + (b + c) == (a + b) + c
  {
  }

  lemma TrimmedStaysSame(s: string)
    requires Trimmed(s)
    ensures Strip(s) == s
  {
  }

  lemma StripTrims(s: string)
    ensures Trimmed(Strip(s))
  {
    var l := LStripBy(s, IsSpace);
    var r := RStripBy(l, IsSpace);
    if r != [] {
      assert r[0] == l[0];
    }
  }

  // A hexadecimal digit, in lower case.
  function HexDigit(v: nat): char
    requires v < 16
  {
    if v < 10 then ('0' as int + v) as char else ('a' as int + v - 10) as char
  }

  // What a hexadecimal digit denotes, in either case; -1 for any other character.
  function HexValue(c: char): (v: int)
    ensures -1 <= v < 16
  {
    if '0' <= c <= '9' then c as int - '0' as int
    else if 'a' <= c <= 'f' then c as int - 'a' as int + 10
    else if 'A' <= c <= 'F' then c as int - 'A' as int + 10
    else -1
  }

  function LowerChar(c: char): char {
    if 'A' <= c <= 'Z' then (c as int + 32) as char else c
  }

  function Lower(s: string): (r: string)
    ensures |r| == |s|
  {
    seq(|s|, i requires 0 <= i < |s| => LowerChar(s[i]))
  }

  lemma LowerConcat(a: string, b: string)
    ensures Lower(a + b) == Lower(a) + Lower(b)
  {
  }

  predicate AllIn(s: string, p: char -> bool) {
    forall i :: 0 <= i < |s| ==> p(s[i])
  }

  // s.split(c)[0]
  function Before(s: string, c: char): (r: string)
    ensures r <= s && c !in r
  {
    if s == [] || s[0] == c then [] else [s[0]] + Before(s[1..], c)
  }

  lemma BeforeNone(s: string, c: char)
    requires c !in s
    ensures Before(s, c) == s
  {
  }

  // str.rfind of one character, -1 when it is absent.
  function LastIndex(s: string, c: char): (i: int)
    ensures -1 <= i < |s|
    ensures i >= 0 ==> s[i] == c
    ensures forall k :: i < k < |s| ==> s[k] != c
  {
    if s == [] then -1
    else if s[|s| - 1] == c then |s| - 1
    else LastIndex(s[..|s| - 1], c)
  }

  lemma LastIndexIs(s: string, c: char, i: nat)
    requires i < |s| && s[i] == c && forall k :: i < k < |s| ==> s[k] != c
    ensures LastIndex(s, c) == i
  {
  }

  // ---- searching, splitting and joining ----------------------------------------------------------

  // str.find: where the first occurrence starts, -1 when there is none.
  function Find(s: string, sub: string): (r: int)
    ensures -1 <= r && (r >= 0 ==> r + |sub| <= |s|)
  {
    if sub <= s then 0
    else if s == "" then -1
    else
      var r := Find(s[1..], sub);
      if r < 0 then -1 else r + 1
  }

  predicate Contains(s: string, sub: string) {
    Find(s, sub) >= 0
  }

  // str.split(sep)
  function SplitOn(s: string, sep: string): (parts: seq<string>)
    requires sep != ""
    ensures parts != []
  {
    var r := Find(s, sep);
    if r < 0 then [s] else [s[..r]] + SplitOn(s[r + |sep|..], sep)
  }

  // sep.join(items)
  function Join(items: seq<string>, sep: string): string {
    if items == [] then ""
    else if |items| == 1 then items[0]
    else items[0] + sep + Join(items[1..], sep)
  }

  lemma {:induction false} FindSkip(t: string, s: string, sub: string)
    requires sub != "" && sub[0] !in t
    ensures Find(t + s, sub) == if Find(s, sub) < 0 then -1 else |t| + Find(s, sub)
  {
    if t == "" {
      assert t + s == s;
    } else {
      assert (t + s)[1..] == t[1..] + s;
      assert (t + s)[0] == t[0] && t[0] in t;
      FindSkip(t[1..], s, sub);
    }
  }

  // A separator absent from `t` is not found before the end of `t` and a character it does not contain.
  lemma {:induction false} FindBeyond(t: string, c: char, rest: string, sep: string)
    requires sep != "" && c !in sep && Find(t, sep) < 0
    ensures Find(t + [c] + rest, sep) == if Find(rest, sep) < 0 then -1 else |t| + 1 + Find(rest, sep)
  {
    var s := t + [c] + rest;
    if |sep| <= |t| {
      assert s[..|sep|] == t[..|sep|];
    } else if |sep| <= |s| {
      assert s[|t|] == c && sep[|t|] in sep;
    }
    assert !(sep <= s);
    if t == "" {
      assert s[1..] == rest;
    } else {
      assert s[1..] == t[1..] + [c] + rest;
      FindBeyond(t[1..], c, rest, sep);
    }
  }

  lemma {:induction false} JoinAppend(a: seq<string>, b: seq<string>, sep: string)
    requires a != [] && b != []
    ensures Join(a + b, sep) == Join(a, sep) + sep + Join(b, sep)
  {
    assert (a + b)[1..] == a[1..] + b;
    if |a| > 1 {
      JoinAppend(a[1..], b, sep);
    } else {
      assert a + b == [a[0]] + b;
    }
  }

  // ---- trailing and leading characters ------------------------------------------------------------

  lemma {:induction false} RStripConcat(a: string, b: string, drop: char -> bool)
    ensures RStripBy(a + b, drop)
            == if RStripBy(b, drop) != "" then a + RStripBy(b, drop) else RStripBy(a, drop)
    decreases |b|
  {
    if b == "" {
      assert a + b == a;
    } else if drop(b[|b| - 1]) {
      assert (a + b)[..|a + b| - 1] == a + b[..|b| - 1];
      RStripConcat(a, b[..|b| - 1], drop);
    }
  }

  lemma {:induction false} LStripConcat(a: string, b: string, drop: char -> bool)
    requires forall c <- a :: drop(c)
    ensures LStripBy(a + b, drop) == LStripBy(b, drop)
  {
    if a == "" {
      assert a + b == b;
    } else {
      assert (a + b)[1..] == a[1..] + b && a[0] in a;
      assert forall c <- a[1..] :: c in a;
      LStripConcat(a[1..], b, drop);
    }
  }

  lemma StripLead(c: char, s: string)
    requires IsSpace(c)
    ensures Strip([c] + s) == Strip(s)
  {
    assert ([c] + s)[1..] == s;
  }

  // ---- spaces removed --------------------------------------------------------------------------------

  // "".join(s.split()): every white space character removed.
  function NoSpace(s: string): string {
    if s == "" then "" else (if IsSpace(s[0]) then "" else [s[0]]) + NoSpace(s[1..])
  }

  lemma {:induction false} NoSpaceConcat(a: string, b: string)
    ensures NoSpace(a + b) == NoSpace(a) + NoSpace(b)
  {
    if a == "" {
      assert a + b == b;
    } else {
      assert (a + b)[1..] == a[1..] + b;
      NoSpaceConcat(a[1..], b);
    }
  }

  // s.replace(c, "")
  function Without(s: string, c: char): string {
    if s == "" then "" else (if s[0] == c then "" else [s[0]]) + Without(s[1..], c)
  }

  lemma {:induction false} NoSpaceWithout(s: string)
    ensures NoSpace(Without(s, '\n')) == NoSpace(s)
  {
    if s != "" {
      NoSpaceWithout(s[1..]);
      var head := if s[0] == '\n' then "" else [s[0]];
      NoSpaceConcat(head, Without(s[1..], '\n'));
    }
  }

  lemma {:induction false} NoSpaceRStrip(s: string, drop: char -> bool)
    requires forall c :: drop(c) ==> IsSpace(c)
    ensures NoSpace(RStripBy(s, drop)) == NoSpace(s)
    decreases |s|
  {
    if s != "" && drop(s[|s| - 1]) {
      assert s == s[..|s| - 1] + [s[|s| - 1]];
      NoSpaceConcat(s[..|s| - 1], [s[|s| - 1]]);
      NoSpaceRStrip(s[..|s| - 1], drop);
    }
  }
}
