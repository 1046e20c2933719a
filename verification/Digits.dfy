// Positional numbers and the regrouping of digits between bit widths.
module Digits {

  function Pow2(n: nat): (p: nat)
    ensures p > 0
  {
    if n == 0 then 1 else 2 * Pow2(n - 1)
  }

  // The number a digit string denotes, most significant digit first.
  function Value(width: nat, ds: seq<nat>): nat {
    if ds == [] then 0 else Value(width, ds[..|ds| - 1]) * Pow2(width) + ds[|ds| - 1]
  }

  predicate Fits(width: nat, ds: seq<int>) {
    forall i :: 0 <= i < |ds| ==> 0 <= ds[i] < Pow2(width)
  }

  // `out` is the bit string of `data` cut into `to`-bit groups: the last group is completed with
  // zero bits when `pad` is set, and dropped when incomplete otherwise.
  predicate IsRegrouping(data: seq<nat>, from: nat, out: seq<nat>, to: nat, pad: bool) {
    && Fits(to, out)
    && if pad then
         var k := to * |out| - from * |data|;
         0 <= k < to && Value(to, out) == Value(from, data) * Pow2(k)
       else
         var k := from * |data| - to * |out|;
         0 <= k < to && Value(to, out) == Value(from, data) / Pow2(k)
  }

  // ---- powers, quotients ---------------------------------------------------------------------

  lemma {:induction false} Pow2Add(a: nat, b: nat)
    ensures Pow2(a + b) == Pow2(a) * Pow2(b)
  {
    if a != 0 {
      Pow2Add(a - 1, b);
      calc {
        Pow2(a + b);
        2 * (Pow2(a - 1) * Pow2(b));
        (2 * Pow2(a - 1)) * Pow2(b);
      }
    }
  }

  lemma MulApart(k: int, d: int)
    requires d >= 0
    ensures k >= 1 ==> k * d >= d
    ensures k <= -1 ==> k * d <= -d
  {
  }

  lemma MulMono(a: int, b: int, d: int)
    requires a <= b && d >= 0
    ensures a * d <= b * d
  {
  }

  lemma Quotient(x: int, d: nat, q: int, r: nat)
    requires r < d && x == q * d + r
    ensures x / d == q && x % d == r
  {
    var q', r' := x / d, x % d;
    assert x == d * q' + r';
    assert (q' - q) * d == r - r' by {
      assert (q' - q) * d == d * q' - q * d;
    }
    MulApart(q' - q, d);
  }

  lemma Nested(x: int, a: int, q: int, r: int, b: int, q2: int, r2: int)
    requires x == q * a + r && q == q2 * b + r2
    ensures x == q2 * (a * b) + (r2 * a + r)
  {
    assert (q2 * b + r2) * a == q2 * b * a + r2 * a;
    assert q2 * b * a == q2 * (a * b);
  }

  lemma DivDiv(x: nat, a: nat, b: nat)
    requires a > 0 && b > 0
    ensures a * b > 0 && x / (a * b) == (x / a) / b
  {
    var q, r := x / a, x % a;
    var q2, r2 := q / b, q % b;
    Nested(x, a, q, r, b, q2, r2);
    var low := r2 * a + r;
    MulMono(r2, b - 1, a);
    assert (b - 1) * a == a * b - a;
    assert 0 <= low < a * b;
    Quotient(x, a * b, q2, low);
  }

  lemma ShiftRight(x: nat, a: nat, b: nat)
    ensures x / Pow2(a + b) == (x / Pow2(a)) / Pow2(b)
  {
    Pow2Add(a, b);
    DivDiv(x, Pow2(a), Pow2(b));
  }

  lemma ShiftBack(x: nat, a: nat)
    ensures (x * Pow2(a)) / Pow2(a) == x
  {
    Quotient(x * Pow2(a), Pow2(a), x, 0);
  }

  lemma AddHigh(l: nat, d: nat, h: nat)
    requires d > 0
    ensures (h * d + l) / d == h + l / d && (h * d + l) % d == l % d
  {
    var q, r := l / d, l % d;
    assert l == q * d + r;
    assert (h + q) * d == h * d + q * d;
    Quotient(h * d + l, d, h + q, r);
  }

  lemma Regroup(q: nat, pb: nat, pt: nat, pr: nat)
    ensures q * ((pb * pt) * pr) == ((q * pr) * pt) * pb
  {
    assert (pb * pt) * pr == pr * (pt * pb);
    assert q * (pr * (pt * pb)) == (q * pr) * (pt * pb);
    assert (q * pr) * (pt * pb) == ((q * pr) * pt) * pb;
  }

  lemma MaskedQuotient(x: nat, pb: nat, pt: nat, pr: nat)
    requires pb > 0 && pt > 0 && pr > 0 && (pb * pt) * pr > 0
    ensures (x % ((pb * pt) * pr)) / pb % pt == x / pb % pt
  {
    var m := (pb * pt) * pr;
    Regroup(x / m, pb, pt, pr);
    HighPartGone(x / m, x % m, m, pb, pt, (x / m) * pr);
    assert x == (x / m) * m + x % m;
  }

  lemma HighPartGone(q: nat, l: nat, m: nat, pb: nat, pt: nat, h: nat)
    requires pb > 0 && pt > 0 && q * m == (h * pt) * pb
    ensures l / pb % pt == (q * m + l) / pb % pt
  {
    AddHigh(l, pb, h * pt);
    AddHigh(l / pb, pt, h);
  }

  // Bits below position m do not depend on what a mask of m bits removed.
  lemma MaskedBits(x: nat, m: nat, b: nat, t: nat)
    requires b + t <= m
    ensures (x % Pow2(m)) / Pow2(b) % Pow2(t) == x / Pow2(b) % Pow2(t)
  {
    Pow2Add(b, t);
    Pow2Add(b + t, m - b - t);
    MaskedQuotient(x, Pow2(b), Pow2(t), Pow2(m - b - t));
  }

  // ---- digit strings -------------------------------------------------------------------------

  lemma ValueSnoc(width: nat, ds: seq<nat>, d: nat)
    ensures Value(width, ds + [d]) == Value(width, ds) * Pow2(width) + d
  {
    assert (ds + [d])[..|ds|] == ds;
  }

  // Appending the next group moves the cut `to` bits to the right.
  lemma EmitGroup(full: nat, bits: nat, to: nat, out: seq<nat>)
    requires Value(to, out) == full / Pow2(bits + to)
    ensures Value(to, out + [full / Pow2(bits) % Pow2(to)]) == full / Pow2(bits)
  {
    ShiftRight(full, bits, to);
    ValueSnoc(to, out, full / Pow2(bits) % Pow2(to));
  }

  // Reading the next digit leaves what was already cut off unchanged.
  lemma ReadDigit(full: nat, bits: nat, from: nat, d: nat)
    requires d < Pow2(from)
    ensures (full * Pow2(from) + d) / Pow2(bits + from) == full / Pow2(bits)
  {
    ShiftRight(full * Pow2(from) + d, from, bits);
    Quotient(full * Pow2(from) + d, Pow2(from), full, d);
  }

  lemma {:induction false} ValueInjective(width: nat, a: seq<nat>, b: seq<nat>)
    requires |a| == |b| && Fits(width, a) && Fits(width, b) && Value(width, a) == Value(width, b)
    ensures a == b
  {
    if a != [] {
      var n := |a| - 1;
      Quotient(Value(width, a), Pow2(width), Value(width, a[..n]), a[n]);
      Quotient(Value(width, b), Pow2(width), Value(width, b[..n]), b[n]);
      ValueInjective(width, a[..n], b[..n]);
      assert a == a[..n] + [a[n]] && b == b[..n] + [b[n]];
    }
  }

  lemma MulStep(width: nat, k: int)
    ensures width * (k - 1) + width == width * k
  {
  }

  // The bits k digits take.
  function Bits(width: nat, k: nat): nat {
    if k == 0 then 0 else Bits(width, k - 1) + width
  }

  lemma {:induction false} BitsAre(width: nat, k: nat)
    ensures Bits(width, k) == width * k
  {
    if k > 0 {
      BitsAre(width, k - 1);
      MulStep(width, k);
    }
  }

  lemma {:induction false} ValueShift(width: nat, ds: seq<nat>, n: nat)
    requires n <= |ds| && Fits(width, ds)
    ensures Value(width, ds[..n]) == Value(width, ds) / Pow2(Bits(width, |ds| - n))
    decreases |ds| - n
  {
    if n == |ds| {
      assert ds[..n] == ds;
    } else {
      assert ds[n] < Pow2(width);
      ValueShift(width, ds, n + 1);
      ValueStep(width, ds, n);
      hide Value, Pow2, Fits;
      DropDigit(Value(width, ds), Bits(width, |ds| - (n + 1)), width, Value(width, ds[..n]), ds[n]);
    }
  }

  // Dropping trailing digits is a right shift.
  lemma ValuePrefix(width: nat, ds: seq<nat>, n: nat)
    requires n <= |ds| && Fits(width, ds)
    ensures Value(width, ds[..n]) == Value(width, ds) / Pow2(width * (|ds| - n))
  {
    hide Value, Pow2, Fits, Bits;
    ValueShift(width, ds, n);
    BitsAre(width, |ds| - n);
  }

  lemma DropDigit(v: nat, cut: nat, width: nat, front: nat, d: nat)
    requires v / Pow2(cut) == front * Pow2(width) + d && d < Pow2(width)
    ensures v / Pow2(cut + width) == front
  {
    ShiftRight(v, cut, width);
    Quotient(v / Pow2(cut), Pow2(width), front, d);
  }

  // ---- regrouping ----------------------------------------------------------------------------

  lemma SameResidue(to: nat, m: nat, n: nat, k: nat, l: nat)
    requires k < to && l < to && to * m + k == to * n + l
    ensures m == n && k == l
  {
    Quotient(to * m + k, to, m, k);
    Quotient(to * m + k, to, n, l);
  }

  // A regrouping is determined by the data.
  lemma RegroupingUnique(data: seq<nat>, from: nat, a: seq<nat>, b: seq<nat>, to: nat, pad: bool)
    requires IsRegrouping(data, from, a, to, pad) && IsRegrouping(data, from, b, to, pad)
    ensures a == b
  {
    var ka, kb := to * |a| - from * |data|, to * |b| - from * |data|;
    if pad {
      SameResidue(to, |a|, |b|, kb, ka);
    } else {
      SameResidue(to, |a|, |b|, -ka, -kb);
    }
    ValueInjective(to, a, b);
  }

  // Narrowing with padding and widening without gives the data back, for data of any length.
  lemma RegroupRoundTrip(data: seq<nat>, from: nat, narrow: seq<nat>, to: nat, wide: seq<nat>)
    requires to <= from && Fits(from, data)
    requires IsRegrouping(data, from, narrow, to, true) && IsRegrouping(narrow, to, wide, from, false)
    ensures wide == data
  {
    var k := to * |narrow| - from * |data|;
    var k' := to * |narrow| - from * |wide|;
    SameResidue(from, |data|, |wide|, k, k');
    ShiftBack(Value(from, data), k);
    ValueInjective(from, data, wide);
  }

  lemma PrefixLengths(from: nat, d: nat, n: nat, to: nat, a: nat, m: nat)
    requires n <= d && to > 0 && to * m <= from * n && from * d <= to * a
    ensures m <= a
    ensures from * (d - n) == from * d - from * n && to * (a - m) == to * a - to * m
  {
    Scale(from, d, n);
    Scale(to, a, m);
    MulApart(m - a, to);
    MulMono(n, d, from);
  }

  // Whole groups of a prefix are the leading groups of the padded regrouping of everything.
  lemma RegroupPrefix(data: seq<nat>, n: nat, from: nat, part: seq<nat>, all: seq<nat>, to: nat)
    requires n <= |data| && Fits(from, data) && to > 0
    requires IsRegrouping(data[..n], from, part, to, false) && IsRegrouping(data, from, all, to, true)
    ensures |part| <= |all| && all[..|part|] == part
  {
    hide Value, Pow2;
    var m := |part|;
    var cut := from * n - to * m;
    var k := to * |all| - from * |data|;
    PrefixLengths(from, |data|, n, to, |all|, m);
    var tail := from * (|data| - n);
    assert to * (|all| - m) == k + (tail + cut);
    ValuePrefix(from, data, n);
    ValuePrefix(to, all, m);
    SameCut(Value(from, data), tail, cut, k, Value(from, data[..n]), Value(to, part),
            Value(to, all), Value(to, all[..m]));
    ValueInjective(to, part, all[..m]);
  }

  // Cutting v in two steps, or padding it first and cutting the pad off too, leaves the same number.
  lemma SameCut(v: nat, tail: nat, cut: nat, k: nat, head: nat, part: nat, all: nat, front: nat)
    requires head == v / Pow2(tail) && part == head / Pow2(cut)
    requires all == v * Pow2(k) && front == all / Pow2(k + (tail + cut))
    ensures part == front
  {
    ShiftRight(v, tail, cut);
    ShiftRight(all, k, tail + cut);
    ShiftBack(v, k);
  }

  lemma Scale(width: nat, a: int, b: int)
    ensures width * (a - b) == width * a - width * b == (a - b) * width
  {
  }

  // ---- the regrouping as a function ------------------------------------------------------------

  function Quo(n: nat, p: nat): (q: nat)
    requires p > 0
    ensures q * p <= n < q * p + p
  {
    assert n == (n / p) * p + n % p;
    n / p
  }

  function Rem(n: nat, p: nat): (r: nat)
    requires p > 0
    ensures r < p && n == Quo(n, p) * p + r
  {
    n % p
  }

  // The `len` low digits of n.
  function DigitsOf(width: nat, n: nat, len: nat): (ds: seq<nat>)
    ensures |ds| == len && Fits(width, ds)
    decreases len
  {
    if len == 0 then [] else DigitsOf(width, Quo(n, Pow2(width)), len - 1) + [Rem(n, Pow2(width))]
  }

  lemma {:induction false} DigitsDenote(width: nat, n: nat, len: nat)
    requires n < Pow2(width * len)
    ensures Value(width, DigitsOf(width, n, len)) == n
    decreases len
  {
    if len != 0 {
      var p := Pow2(width);
      var q := Quo(n, p);
      assert width * len == width + width * (len - 1);
      Pow2Add(width, width * (len - 1));
      Below(n, p, Pow2(width * (len - 1)));
      DigitsDenote(width, q, len - 1);
      ValueSnoc(width, DigitsOf(width, q, len - 1), Rem(n, p));
    } else {
      assert width * len == 0;
    }
  }

  lemma Below(n: nat, p: nat, q: nat)
    requires p > 0 && n < p * q
    ensures Quo(n, p) < q && n / p < q
  {
    if Quo(n, p) >= q {
      MulMono(q, Quo(n, p), p);
    }
  }

  lemma {:induction false} ValueBelow(width: nat, ds: seq<nat>)
    requires Fits(width, ds)
    ensures Value(width, ds) < Pow2(width * |ds|)
    decreases |ds|
  {
    if ds == [] {
      assert width * |ds| == 0;
    } else {
      var n := |ds| - 1;
      ValueBelow(width, ds[..n]);
      assert width * |ds| == width * n + width;
      Pow2Add(width * n, width);
      MulMono(Value(width, ds[..n]) + 1, Pow2(width * n), Pow2(width));
      assert (Value(width, ds[..n]) + 1) * Pow2(width) == Value(width, ds[..n]) * Pow2(width) + Pow2(width);
    }
  }

  function GroupCount(bits: nat, to: nat, pad: bool): nat
    requires to > 0
  {
    if pad && bits % to != 0 then bits / to + 1 else bits / to
  }

  function Regrouped(data: seq<nat>, from: nat, to: nat, pad: bool): (out: seq<nat>)
    requires to > 0
    ensures Fits(to, out)
  {
    var bits := from * |data|;
    var count := GroupCount(bits, to, pad);
    if pad then DigitsOf(to, Value(from, data) * Pow2(if to * count >= bits then to * count - bits else 0), count)
    else DigitsOf(to, Quo(Value(from, data), Pow2(if bits >= to * count then bits - to * count else 0)), count)
  }

  lemma GroupCountFits(bits: nat, to: nat, pad: bool)
    requires to > 0
    ensures var count := GroupCount(bits, to, pad);
      if pad then 0 <= to * count - bits < to else 0 <= bits - to * count < to
  {
    assert bits == to * (bits / to) + bits % to;
    assert to * (bits / to + 1) == to * (bits / to) + to;
  }

  lemma ShiftBelow(v: nat, a: nat, b: nat)
    requires v < Pow2(a)
    ensures v * Pow2(b) < Pow2(a + b)
    ensures b <= a ==> v / Pow2(b) < Pow2(a - b)
  {
    Pow2Add(a, b);
    MulMono(v + 1, Pow2(a), Pow2(b));
    assert (v + 1) * Pow2(b) == v * Pow2(b) + Pow2(b);
    if b <= a {
      Pow2Add(b, a - b);
      Below(v, Pow2(b), Pow2(a - b));
    }
  }

  lemma RegroupedIs(data: seq<nat>, from: nat, to: nat, pad: bool)
    requires to > 0 && Fits(from, data)
    ensures IsRegrouping(data, from, Regrouped(data, from, to, pad), to, pad)
  {
    GroupCountFits(from * |data|, to, pad);
    ValueBelow(from, data);
    var count := GroupCount(from * |data|, to, pad);
    if pad {
      PaddedDenotes(Value(from, data), from * |data|, to, count);
    } else {
      CutDenotes(Value(from, data), from * |data|, to, count, from * |data| - to * count);
    }
  }

  lemma PaddedDenotes(v: nat, bits: nat, to: nat, count: nat)
    requires v < Pow2(bits) && bits <= to * count
    ensures Value(to, DigitsOf(to, v * Pow2(to * count - bits), count)) == v * Pow2(to * count - bits)
  {
    ShiftBelow(v, bits, to * count - bits);
    DigitsDenote(to, v * Pow2(to * count - bits), count);
  }

  lemma CutDenotes(v: nat, bits: nat, to: nat, count: nat, k: nat)
    requires v < Pow2(bits) && bits == to * count + k
    ensures Value(to, DigitsOf(to, Quo(v, Pow2(k)), count)) == Quo(v, Pow2(k))
  {
    ShiftBelow(v, bits, k);
    DigitsDenote(to, Quo(v, Pow2(k)), count);
  }

  // ---- the loops -------------------------------------------------------------------------------

  // Of the `total` bits of `full` all but the last `bits` are in `out`.
  predicate Cut(full: nat, bits: nat, to: nat, out: seq<nat>, total: nat) {
    Fits(to, out) && to * |out| + bits == total && Value(to, out) == full / Pow2(bits)
  }

  lemma CutStart(to: nat)
    ensures Cut(0, 0, to, [], 0)
  {
  }

  lemma CutRead(full: nat, bits: nat, to: nat, out: seq<nat>, total: nat, from: nat, d: nat)
    requires Cut(full, bits, to, out, total) && d < Pow2(from)
    ensures Cut(full * Pow2(from) + d, bits + from, to, out, total + from)
  {
    ReadDigit(full, bits, from, d);
  }

  lemma CutEmit(full: nat, bits: nat, to: nat, out: seq<nat>, total: nat)
    requires Cut(full, bits, to, out, total) && bits >= to
    ensures Cut(full, bits - to, to, out + [Rem(Quo(full, Pow2(bits - to)), Pow2(to))], total)
  {
    EmitGroup(full, bits - to, to, out);
    assert to * (|out| + 1) == to * |out| + to;
  }

  // The loop is over: the groups cut so far are the unpadded regrouping, and the leftover bits
  // shifted to a full group complete the padded one.
  lemma CutEnds(data: seq<nat>, from: nat, bits: nat, to: nat, out: seq<nat>, pad: bool)
    requires Fits(from, data) && bits < to && Cut(Value(from, data), bits, to, out, from * |data|)
    ensures var full := Value(from, data);
      Regrouped(data, from, to, pad) ==
        if pad && bits != 0 then out + [Rem(full * Pow2(to - bits), Pow2(to))] else out
  {
    var full := Value(from, data);
    if pad && bits != 0 {
      LastGroup(full, bits, to, out);
      assert to * (|out| + 1) == to * |out| + to;
      Settle(data, from, out + [Rem(full * Pow2(to - bits), Pow2(to))], to, pad);
    } else {
      if pad {
        assert Pow2(0) == 1 && full / 1 == full;
      }
      Settle(data, from, out, to, pad);
    }
  }

  lemma LastGroup(full: nat, bits: nat, to: nat, out: seq<nat>)
    requires 0 < bits < to && Fits(to, out) && Value(to, out) == full / Pow2(bits)
    ensures var out' := out + [Rem(full * Pow2(to - bits), Pow2(to))];
      Fits(to, out') && Value(to, out') == full * Pow2(to - bits)
  {
    var k := to - bits;
    var shifted := full * Pow2(k);
    ShiftRight(shifted, k, bits);
    ShiftBack(full, k);
    ValueSnoc(to, out, Rem(shifted, Pow2(to)));
  }

  lemma Settle(data: seq<nat>, from: nat, out: seq<nat>, to: nat, pad: bool)
    requires to > 0 && Fits(from, data) && IsRegrouping(data, from, out, to, pad)
    ensures out == Regrouped(data, from, to, pad)
  {
    RegroupedIs(data, from, to, pad);
    RegroupingUnique(data, from, out, Regrouped(data, from, to, pad), to, pad);
  }

  lemma ValueStep(width: nat, ds: seq<nat>, i: nat)
    requires i < |ds|
    ensures Value(width, ds[..i + 1]) == Value(width, ds[..i]) * Pow2(width) + ds[i]
  {
    assert ds[..i + 1] == ds[..i] + [ds[i]];
    ValueSnoc(width, ds[..i], ds[i]);
  }

  // The encoders' loop: bytes to five-bit symbols with an ever-growing accumulator.
  method EightToFive(data: seq<nat>) returns (out: seq<nat>)
    requires Fits(8, data)
    ensures out == Regrouped(data, 8, 5, true)
  {
    var acc: nat, bits: nat := 0, 0;
    out := [];
    CutStart(5);
    for i := 0 to |data|
      invariant bits < 5 && acc == Value(8, data[..i]) && Cut(acc, bits, 5, out, 8 * i)
    {
      CutRead(acc, bits, 5, out, 8 * i, 8, data[i]);
      ValueStep(8, data, i);
      acc := acc * Pow2(8) + data[i];
      bits := bits + 8;
      while bits >= 5
        invariant bits < 13 && Cut(acc, bits, 5, out, 8 * (i + 1))
      {
        CutEmit(acc, bits, 5, out, 8 * (i + 1));
        bits := bits - 5;
        out := out + [Rem(Quo(acc, Pow2(bits)), Pow2(5))];
      }
    }
    assert data[..|data|] == data;
    CutEnds(data, 8, bits, 5, out, true);
    if bits != 0 {
      out := out + [Rem(acc * Pow2(5 - bits), Pow2(5))];
    }
  }

  // The checking decoder's loop: at most one byte leaves per symbol.
  method FiveToEight(vals: seq<nat>) returns (out: seq<nat>)
    requires Fits(5, vals)
    ensures out == Regrouped(vals, 5, 8, false)
  {
    var acc: nat, bits: nat := 0, 0;
    out := [];
    CutStart(8);
    for i := 0 to |vals|
      invariant bits < 8 && acc == Value(5, vals[..i]) && Cut(acc, bits, 8, out, 5 * i)
    {
      CutRead(acc, bits, 8, out, 5 * i, 5, vals[i]);
      ValueStep(5, vals, i);
      acc := acc * Pow2(5) + vals[i];
      bits := bits + 5;
      if bits >= 8 {
        CutEmit(acc, bits, 8, out, 5 * (i + 1));
        bits := bits - 8;
        out := out + [Rem(Quo(acc, Pow2(bits)), Pow2(8))];
      }
    }
    assert vals[..|vals|] == vals;
    CutEnds(vals, 5, bits, 8, out, false);
  }
}
