// The checksum as BIP-173 defines it: polynomials over the field of 32 elements, modulo a generator.
module Gf32 {
  import opened Checksum

  // An element is a polynomial over the bits, by its coefficients; x^5 = x^3 + 1.
  function Double(a: bv30): bv30 {
    if a & 16 != 0 then Plus(a << 1, 41) else a << 1
  }

  function Doubled(a: bv30, n: nat): bv30 {
    if n == 0 then a else Double(Doubled(a, n - 1))
  }

  // Whether the coefficient of x^i is 1.
  predicate Has(a: bv30, i: nat)
    requires i < 5
  {
    (a >> i) & 1 == 1
  }

  lemma HasIsBit(a: bv30, i: nat)
    requires i < 5
    ensures Has(a, i) <==> And(a, Bit(i)) != 0
  {
    match i
    case 0 => assert (a >> 0) & 1 == 1 <==> a & 1 != 0;
    case 1 => assert (a >> 1) & 1 == 1 <==> a & 2 != 0;
    case 2 => assert (a >> 2) & 1 == 1 <==> a & 4 != 0;
    case 3 => assert (a >> 3) & 1 == 1 <==> a & 8 != 0;
    case 4 => assert (a >> 4) & 1 == 1 <==> a & 16 != 0;
  }

  // Element a, one bit at a time, times element c.
  function Times(a: bv30, c: bv30, bits: nat): bv30
    requires bits <= 5
  {
    if bits == 0 then 0
    else Plus(Times(a, c, bits - 1), if Has(a, bits - 1) then Doubled(c, bits - 1) else 0)
  }

  function Product(a: bv30, c: bv30): bv30 {
    Times(a, c, 5)
  }

  // x^6 + 29 x^5 + 22 x^4 + 20 x^3 + 21 x^2 + 29 x + 18
  const GENERATOR: seq<bv30> := [29, 22, 20, 21, 29, 18]

  function Scaled(a: bv30, cs: seq<bv30>): (r: seq<bv30>)
    ensures |r| == |cs|
  {
    seq(|cs|, i requires 0 <= i < |cs| => Product(a, cs[i]))
  }

  // The remainder of x times the polynomial w.
  function TimesX(w: seq<bv30>): (r: seq<bv30>)
    requires |w| == 6
    ensures |r| == 6
  {
    Sum(w[1..] + [0], Scaled(w[0], GENERATOR))
  }

  lemma GeneratorsAreMultiples(i: nat)
    requires i < 5
    ensures Generator(i) == Packed(seq(6, k requires 0 <= k < 6 => Doubled(GENERATOR[k], i)))
  {
    Doublings(29, i);
    Doublings(22, i);
    Doublings(20, i);
    Doublings(21, i);
    Doublings(18, i);
  }

  lemma Doublings(c: bv30, i: nat)
    requires i < 5
    ensures Doubled(c, 0) == c && Doubled(c, 1) == Double(c) && Doubled(c, 2) == Double(Double(c))
    ensures Doubled(c, 3) == Double(Double(Double(c))) && Doubled(c, 4) == Double(Double(Double(Double(c))))
  {
    hide Double;
    assert Doubled(c, 1) == Double(Doubled(c, 0));
    assert Doubled(c, 2) == Double(Doubled(c, 1));
    assert Doubled(c, 3) == Double(Doubled(c, 2));
  }

  lemma AppendSum(s: bv30, v: bv30, t: bv30, u: bv30)
    requires v < 32 && u < 32
    ensures Append(Plus(s, t), Plus(v, u)) == Plus(Append(s, v), Append(t, u))
  {
  }

  lemma PackedSum(a: seq<bv30>, b: seq<bv30>)
    requires |a| == |b| == 6 && Symbols(a) && Symbols(b)
    ensures Packed(Sum(a, b)) == Plus(Packed(a), Packed(b))
  {
    hide Append, Plus;
    var r1, t1 := Append(a[0], a[1]), Append(b[0], b[1]);
    var r2, t2 := Append(r1, a[2]), Append(t1, b[2]);
    var r3, t3 := Append(r2, a[3]), Append(t2, b[3]);
    AppendSum(a[0], a[1], b[0], b[1]);
    AppendSum(r1, a[2], t1, b[2]);
    AppendSum(r2, a[3], t2, b[3]);
    AppendSum(r3, a[4], t3, b[4]);
    AppendSum(Append(r3, a[4]), a[5], Append(t3, b[4]), b[5]);
  }

  // The elements added to the register for bit i of the outgoing element.
  function Selected(a: bv30, i: nat): (r: seq<bv30>)
    requires i < 5
    ensures |r| == 6
  {
    if Has(a, i) then seq(6, k requires 0 <= k < 6 => Doubled(GENERATOR[k], i)) else Zeros(6)
  }

  function Partial(a: bv30, n: nat): (r: seq<bv30>)
    requires n <= 5
    ensures |r| == 6
  {
    seq(6, k requires 0 <= k < 6 => Times(a, GENERATOR[k], n))
  }

  lemma TapIsSelected(a: bv30, i: nat)
    requires i < 5
    ensures Tap(a, i) == Packed(Selected(a, i))
  {
    hide And, Bit, Generator, Doubled, Has;
    HasIsBit(a, i);
    GeneratorsAreMultiples(i);
    PackedNothing();
  }

  lemma PackedNothing()
    ensures Packed(Zeros(6)) == 0
  {
  }

  lemma PartialStep(a: bv30, n: nat)
    requires n < 5
    ensures Partial(a, n + 1) == Sum(Partial(a, n), Selected(a, n))
  {
    hide Has, Plus, Doubled;
  }

  lemma DoubleStays(a: bv30)
    requires a < 32
    ensures Double(a) < 32
  {
  }

  lemma {:induction false} DoubledStays(c: bv30, n: nat)
    requires c < 32
    ensures Doubled(c, n) < 32
  {
    hide Double;
    if n > 0 {
      DoubledStays(c, n - 1);
      DoubleStays(Doubled(c, n - 1));
    }
  }

  lemma SelectedSymbols(a: bv30, i: nat)
    requires i < 5
    ensures Symbols(Selected(a, i))
  {
    hide Has, Doubled;
    forall k | 0 <= k < 6 ensures Doubled(GENERATOR[k], i) < 32 { DoubledStays(GENERATOR[k], i); }
  }

  lemma {:induction false} TapsArePartial(a: bv30, n: nat)
    requires n <= 5
    ensures Taps(a, n) == Packed(Partial(a, n)) && Symbols(Partial(a, n))
  {
    hide Plus, Tap, Packed, Selected, Times;
    if n == 0 {
      NothingYet(a);
    } else {
      TapsArePartial(a, n - 1);
      TapIsSelected(a, n - 1);
      SelectedSymbols(a, n - 1);
      PackedSum(Partial(a, n - 1), Selected(a, n - 1));
      PartialStep(a, n - 1);
      forall k | 0 <= k < 6 ensures Partial(a, n)[k] < 32 {
        PlusShort(Partial(a, n - 1)[k], Selected(a, n - 1)[k]);
      }
    }
  }

  lemma NothingYet(a: bv30)
    ensures Partial(a, 0) == Zeros(6) && Packed(Partial(a, 0)) == 0
  {
    PackedNothing();
    assert Partial(a, 0) == Zeros(6);
  }

  lemma ShiftOut(w: seq<bv30>)
    requires |w| == 6 && Symbols(w)
    ensures Packed(w) >> 25 == w[0] && Shifted(Packed(w)) == Packed(w[1..] + [0])
  {
    SixShifted(w[0], w[1], w[2], w[3], w[4], w[5]);
  }

  lemma SixShifted(a: bv30, b: bv30, c: bv30, d: bv30, e: bv30, f: bv30)
    requires a < 32 && b < 32 && c < 32 && d < 32 && e < 32 && f < 32
    ensures var p := Append(Append(Append(Append(Append(a, b), c), d), e), f);
      p >> 25 == a && Shifted(p) == Append(Append(Append(Append(Append(b, c), d), e), f), 0)
  {
  }

  // One register step is multiplication by x modulo the generator polynomial.
  lemma MixIsTimesX(w: seq<bv30>)
    requires |w| == 6 && Symbols(w)
    ensures Mix(Packed(w)) == Packed(TimesX(w)) && Symbols(TimesX(w))
  {
    hide Plus, Packed, Taps, Shifted, Times;
    ShiftOut(w);
    TapsArePartial(w[0], 5);
    assert Partial(w[0], 5) == Scaled(w[0], GENERATOR);
    PackedSum(w[1..] + [0], Scaled(w[0], GENERATOR));
    forall k | 0 <= k < 6 ensures TimesX(w)[k] < 32 {
      PlusShort((w[1..] + [0])[k], Scaled(w[0], GENERATOR)[k]);
    }
  }

  // ---- the whole register -------------------------------------------------------------------------

  // The remainder of a polynomial, given by its coefficients from the highest down, after w x^n.
  function Remainder(w: seq<bv30>, values: seq<bv30>): (r: seq<bv30>)
    requires |w| == 6
    ensures |r| == 6
    decreases |values|
  {
    if values == [] then w else Remainder(Sum(TimesX(w), Zeros(5) + [values[0]]), values[1..])
  }

  // What the checksum loop keeps in its register is that remainder.
  lemma {:induction false} AbsorbIsRemainder(w: seq<bv30>, values: seq<bv30>)
    requires |w| == 6 && Symbols(w) && Symbols(values)
    ensures Absorb(Packed(w), values) == Packed(Remainder(w, values))
    decreases |values|
  {
    hide Plus, Packed, Mix, TimesX;
    if values != [] {
      MixIsTimesX(w);
      var last := Zeros(5) + [values[0]];
      LastSymbol(values[0]);
      assert Symbols(last) && Symbols(values[1..]) by {
        assert forall k :: 0 <= k < 6 ==> last[k] == if k < 5 then 0 else values[0];
      }
      PackedSum(TimesX(w), last);
      var next := Sum(TimesX(w), last);
      forall k | 0 <= k < 6 ensures next[k] < 32 { PlusShort(TimesX(w)[k], last[k]); }
      AbsorbIsRemainder(next, values[1..]);
    }
  }

  lemma LastSymbol(v: bv30)
    requires v < 32
    ensures Packed(Zeros(5) + [v]) == v
  {
    var w := Zeros(5) + [v];
    assert w[0] == 0 && w[1] == 0 && w[2] == 0 && w[3] == 0 && w[4] == 0 && w[5] == v;
  }
}
