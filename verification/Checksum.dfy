// The 30-bit checksum register of bech32 (BIP-173, section "Checksum").
module Checksum {

  // Symbols and register contents add by exclusive or.
  function Plus(a: bv30, b: bv30): bv30 {
    a ^ b
  }

  function And(a: bv30, b: bv30): bv30 {
    a & b
  }

  function Bit(i: nat): bv30
    requires i < 5
  {
    match i
    case 0 => 1
    case 1 => 2
    case 2 => 4
    case 3 => 8
    case _ => 16
  }

  function Generator(i: nat): bv30
    requires i < 5
  {
    match i
    case 0 => 0x3B6A57B2
    case 1 => 0x26508E6D
    case 2 => 0x1EA119FA
    case 3 => 0x3D4233DD
    case _ => 0x2A1462B3
  }

  // Generator i is added when bit i of the outgoing five bits is set.
  function Tap(b: bv30, i: nat): bv30
    requires i < 5
  {
    if And(b, Bit(i)) != 0 then Generator(i) else 0
  }

  function Taps(b: bv30, n: nat): bv30
    requires n <= 5
  {
    if n == 0 then 0 else Plus(Taps(b, n - 1), Tap(b, n - 1))
  }

  function Shifted(chk: bv30): bv30 {
    (chk & 0x1FFFFFF) << 5
  }

  // One register step for a zero symbol.
  function Mix(chk: bv30): bv30 {
    Plus(Shifted(chk), Taps(chk >> 25, 5))
  }

  function Absorb(chk: bv30, values: seq<bv30>): bv30
    decreases |values|
  {
    if values == [] then chk else Absorb(Plus(Mix(chk), values[0]), values[1..])
  }

  // ---- the group laws of exclusive or --------------------------------------------------------

  lemma PlusZero(a: bv30)
    ensures Plus(a, 0) == a && Plus(0, a) == a
  {
  }

  lemma PlusSame(a: bv30)
    ensures Plus(a, a) == 0
  {
  }

  lemma PlusBack(a: bv30, b: bv30)
    ensures Plus(Plus(a, b), b) == a
  {
  }

  lemma PlusSelf(a: bv30, b: bv30)
    ensures Plus(a, b) == 0 <==> a == b
  {
    hide Plus;
    PlusSame(a);
    PlusBack(a, b);
    PlusZero(b);
  }

  lemma PlusAssoc(a: bv30, b: bv30, c: bv30)
    ensures Plus(Plus(a, b), c) == Plus(a, Plus(b, c))
  {
  }

  lemma PlusComm(a: bv30, b: bv30)
    ensures Plus(a, b) == Plus(b, a)
  {
  }

  lemma PlusFour(a: bv30, b: bv30, c: bv30, d: bv30)
    ensures Plus(Plus(a, b), Plus(c, d)) == Plus(Plus(a, c), Plus(b, d))
  {
    hide Plus;
    PlusAssoc(a, b, Plus(c, d));
    PlusAssoc(b, c, d);
    PlusComm(b, c);
    PlusAssoc(c, b, d);
    PlusAssoc(a, c, Plus(b, d));
  }

  // ---- the loop --------------------------------------------------------------------------------

  method Polymod(values: seq<bv30>) returns (chk: bv30)
    ensures chk == Absorb(1, values)
  {
    hide Plus, Tap, Shifted;
    chk := 1;
    for n := 0 to |values|
      invariant Absorb(chk, values[n..]) == Absorb(1, values)
    {
      var b := chk >> 25;
      var start := Plus(Shifted(chk), values[n]);
      ghost var mixed := Mix(chk);
      PlusZero(start);
      chk := start;
      for i := 0 to 5
        invariant chk == Plus(start, Taps(b, i))
      {
        PlusAssoc(start, Taps(b, i), Tap(b, i));
        chk := Plus(chk, Tap(b, i));
      }
      SymbolLast(start, mixed, b, values[n]);
      assert values[n..][1..] == values[n + 1..];
    }
    assert values[|values|..] == [];
  }

  // The source adds the symbol before the generators; the order does not matter.
  lemma SymbolLast(start: bv30, mixed: bv30, b: bv30, v: bv30)
    requires exists shifted :: start == Plus(shifted, v) && mixed == Plus(shifted, Taps(b, 5))
    ensures Plus(start, Taps(b, 5)) == Plus(mixed, v)
  {
    hide Plus, Taps;
    var shifted :| start == Plus(shifted, v) && mixed == Plus(shifted, Taps(b, 5));
    PlusAssoc(shifted, v, Taps(b, 5));
    PlusComm(v, Taps(b, 5));
    PlusAssoc(shifted, Taps(b, 5), v);
  }

  // ---- linearity -----------------------------------------------------------------------------

  lemma AndLinear(a: bv30, b: bv30, m: bv30)
    ensures And(Plus(a, b), m) == Plus(And(a, m), And(b, m))
  {
  }

  lemma OneBit(a: bv30, i: nat)
    requires i < 5
    ensures Bit(i) != 0 && (And(a, Bit(i)) == 0 || And(a, Bit(i)) == Bit(i))
  {
  }

  lemma TapLinear(a: bv30, b: bv30, i: nat)
    requires i < 5
    ensures Tap(Plus(a, b), i) == Plus(Tap(a, i), Tap(b, i))
  {
    hide And, Plus, Bit, Generator;
    AndLinear(a, b, Bit(i));
    OneBit(a, i);
    OneBit(b, i);
    PlusSame(Bit(i));
    PlusSame(Generator(i));
    PlusZero(Bit(i));
    PlusZero(Generator(i));
    PlusZero(0);
  }

  lemma {:induction false} TapsLinear(a: bv30, b: bv30, n: nat)
    requires n <= 5
    ensures Taps(Plus(a, b), n) == Plus(Taps(a, n), Taps(b, n))
  {
    hide Plus, Tap;
    if n == 0 {
      PlusZero(0);
    } else {
      TapsLinear(a, b, n - 1);
      TapLinear(a, b, n - 1);
      PlusFour(Taps(a, n - 1), Taps(b, n - 1), Tap(a, n - 1), Tap(b, n - 1));
    }
  }

  lemma ShiftLinear(a: bv30, b: bv30)
    ensures Plus(a, b) >> 25 == Plus(a >> 25, b >> 25)
    ensures Shifted(Plus(a, b)) == Plus(Shifted(a), Shifted(b))
  {
  }

  lemma MixLinear(a: bv30, b: bv30)
    ensures Mix(Plus(a, b)) == Plus(Mix(a), Mix(b))
  {
    hide Plus, Shifted, Taps;
    var p, q := a >> 25, b >> 25;
    ShiftLinear(a, b);
    TapsLinear(p, q, 5);
    PlusFour(Shifted(a), Shifted(b), Taps(p, 5), Taps(q, 5));
  }

  // The five generators differ in their low five bits, whatever is added of them.
  lemma TapsKernel(b: bv30)
    requires b < 32 && And(Taps(b, 5), 31) == 0
    ensures b == 0
  {
    TapsUnrolled(b);
    hide Taps;
  }

  lemma TapsUnrolled(b: bv30)
    ensures Taps(b, 5) == Plus(Plus(Plus(Plus(Tap(b, 0), Tap(b, 1)), Tap(b, 2)), Tap(b, 3)), Tap(b, 4))
    ensures Taps(0, 5) == 0
  {
    hide Plus, Tap;
    assert Taps(b, 0) == 0 && Taps(0, 0) == 0;
    PlusZero(Tap(b, 0));
    assert Taps(b, 1) == Tap(b, 0);
    assert Taps(b, 2) == Plus(Tap(b, 0), Tap(b, 1));
    assert Taps(b, 3) == Plus(Plus(Tap(b, 0), Tap(b, 1)), Tap(b, 2));
    NoTaps();
    PlusZero(0);
    assert Taps(0, 1) == 0 && Taps(0, 2) == 0 && Taps(0, 3) == 0;
  }

  lemma NoTaps()
    ensures forall i: nat | i < 5 :: Tap(0, i) == 0
  {
  }

  lemma ShiftedBits(a: bv30)
    ensures And(Shifted(a), 31) == 0 && a >> 25 < 32
    ensures a >> 25 == 0 && Shifted(a) == 0 <==> a == 0
  {
  }

  // The zero-input step loses no information.
  lemma MixKernel(a: bv30)
    ensures Mix(a) == 0 <==> a == 0
  {
    hide And, Plus, Taps, Shifted;
    var b := a >> 25;
    ShiftedBits(a);
    TapsUnrolled(b);
    PlusSelf(Shifted(a), Taps(b, 5));
    if Mix(a) == 0 {
      TapsKernel(b);
    }
    PlusZero(0);
  }

  lemma {:induction false} AbsorbConcat(chk: bv30, a: seq<bv30>, b: seq<bv30>)
    ensures Absorb(chk, a + b) == Absorb(Absorb(chk, a), b)
    decreases |a|
  {
    hide Plus, Mix;
    if a == [] {
      assert a + b == b;
    } else {
      assert (a + b)[1..] == a[1..] + b;
      AbsorbConcat(Plus(Mix(chk), a[0]), a[1..], b);
    }
  }

  function Sum(a: seq<bv30>, b: seq<bv30>): (r: seq<bv30>)
    requires |a| == |b|
    ensures |r| == |a|
  {
    seq(|a|, i requires 0 <= i < |a| => Plus(a[i], b[i]))
  }

  // The register is linear in its start value and its input together.
  lemma {:induction false} AbsorbLinear(s: bv30, t: bv30, a: seq<bv30>, b: seq<bv30>)
    requires |a| == |b|
    ensures Absorb(Plus(s, t), Sum(a, b)) == Plus(Absorb(s, a), Absorb(t, b))
    decreases |a|
  {
    hide Plus, Mix;
    if a != [] {
      MixLinear(s, t);
      PlusFour(Mix(s), Mix(t), a[0], b[0]);
      assert Sum(a, b)[1..] == Sum(a[1..], b[1..]);
      AbsorbLinear(Plus(Mix(s), a[0]), Plus(Mix(t), b[0]), a[1..], b[1..]);
    }
  }

  function Zeros(n: nat): (z: seq<bv30>)
    ensures |z| == n
  {
    seq(n, _ => 0)
  }

  // Zero symbols keep a zero register zero and a non-zero register non-zero.
  lemma {:induction false} AbsorbZeros(s: bv30, n: nat)
    ensures Absorb(s, Zeros(n)) == 0 <==> s == 0
    decreases n
  {
    hide Plus, Mix;
    if n != 0 {
      MixKernel(s);
      assert Zeros(n)[1..] == Zeros(n - 1);
      AbsorbZeros(Mix(s), n - 1);
      PlusZero(Mix(s));
    }
  }

  predicate Symbols(values: seq<bv30>) {
    forall i :: 0 <= i < |values| ==> values[i] < 32
  }

  // ---- six symbols fill the register ----------------------------------------------------------

  lemma ShiftIn(s: bv30, v: bv30)
    requires s < 0x2000000 && v < 32
    ensures Plus(Mix(s), v) == (s << 5) | v
  {
    assert s >> 25 == 0;
    var b: bv30 := 0;
    assert Taps(b, 0) == 0;
    assert Taps(b, 1) == 0;
    assert Taps(b, 2) == 0;
    assert Taps(b, 3) == 0;
    assert Taps(b, 4) == 0;
    assert Taps(b, 5) == 0;
  }

  function Append(s: bv30, v: bv30): bv30 {
    (s << 5) | v
  }

  function Packed(w: seq<bv30>): bv30
    requires |w| == 6
  {
    Append(Append(Append(Append(Append(w[0], w[1]), w[2]), w[3]), w[4]), w[5])
  }

  lemma AppendBelow(s: bv30, v: bv30)
    requires v < 32
    ensures s < 0x20 ==> Append(s, v) < 0x400
    ensures s < 0x400 ==> Append(s, v) < 0x8000
    ensures s < 0x8000 ==> Append(s, v) < 0x100000
    ensures s < 0x100000 ==> Append(s, v) < 0x2000000
  {
  }

  lemma AbsorbOne(s: bv30, v: bv30, rest: seq<bv30>)
    requires s < 0x2000000 && v < 32
    ensures Absorb(s, [v] + rest) == Absorb(Append(s, v), rest)
  {
    ShiftIn(s, v);
    assert ([v] + rest)[1..] == rest;
  }

  // Six symbols shifted into the empty register are all in it.
  lemma AbsorbSix(w: seq<bv30>)
    requires |w| == 6 && Symbols(w)
    ensures Absorb(0, w) == Packed(w)
  {
    hide Append, Plus, Mix, Absorb;
    var r1 := Append(0, w[0]);
    FirstSymbol(w[0]);
    var r2 := Append(r1, w[1]);
    var r3 := Append(r2, w[2]);
    var r4 := Append(r3, w[3]);
    var r5 := Append(r4, w[4]);
    AppendBelow(r1, w[1]);
    AppendBelow(r2, w[2]);
    AppendBelow(r3, w[3]);
    AppendBelow(r4, w[4]);
    AbsorbOne(0, w[0], w[1..]);
    AbsorbOne(r1, w[1], w[2..]);
    AbsorbOne(r2, w[2], w[3..]);
    AbsorbOne(r3, w[3], w[4..]);
    AbsorbOne(r4, w[4], w[5..]);
    AbsorbOne(r5, w[5], []);
    assert w == [w[0]] + w[1..] && w[1..] == [w[1]] + w[2..] && w[2..] == [w[2]] + w[3..];
    assert w[3..] == [w[3]] + w[4..] && w[4..] == [w[4]] + w[5..] && w[5..] == [w[5]] + [];
    AbsorbNone(Append(r5, w[5]));
  }

  lemma FirstSymbol(v: bv30)
    ensures Append(0, v) == v
  {
  }

  lemma AbsorbNone(s: bv30)
    ensures Absorb(s, []) == s
  {
  }

  // The six checksum symbols of a register value, most significant first.
  function Split(pm: bv30): (c: seq<bv30>)
    ensures |c| == 6
  {
    [(pm >> 25) & 31, (pm >> 20) & 31, (pm >> 15) & 31, (pm >> 10) & 31, (pm >> 5) & 31, pm & 31]
  }

  lemma PackedSplit(pm: bv30)
    ensures Packed(Split(pm)) == pm && Symbols(Split(pm))
  {
  }

  lemma PackedZero(w: seq<bv30>)
    requires |w| == 6 && Symbols(w) && Packed(w) == 0
    ensures w == Zeros(6)
  {
    UnpackedZero(w[0], w[1], w[2], w[3], w[4], w[5]);
  }

  lemma UnpackedZero(a: bv30, b: bv30, c: bv30, d: bv30, e: bv30, f: bv30)
    requires a < 32 && b < 32 && c < 32 && d < 32 && e < 32 && f < 32
    requires Append(Append(Append(Append(Append(a, b), c), d), e), f) == 0
    ensures a == 0 && b == 0 && c == 0 && d == 0 && e == 0 && f == 0
  {
  }

  function Signature(values: seq<bv30>): (c: seq<bv30>)
    ensures |c| == 6
  {
    Split(Plus(Absorb(1, values + Zeros(6)), 1))
  }

  // The six symbols the encoder appends always bring the register to 1.
  lemma SignatureVerifies(values: seq<bv30>)
    ensures Absorb(1, values + Signature(values)) == 1
  {
    hide Plus, Mix, Absorb, Split, Packed;
    var c := Signature(values);
    var p := Absorb(1, values);
    var r := Absorb(p, Zeros(6));
    var pm := Plus(r, 1);
    AbsorbConcat(1, values, Zeros(6));
    AbsorbConcat(1, values, c);
    PackedSplit(pm);
    AbsorbSix(c);
    AbsorbLinear(p, 0, Zeros(6), c);
    assert Sum(Zeros(6), c) == c by {
      forall i | 0 <= i < 6 ensures Plus(Zeros(6)[i], c[i]) == c[i] { PlusZero(c[i]); }
    }
    PlusZero(p);
    PlusAssoc(r, r, 1);
    PlusSelf(r, r);
    PlusZero(1);
  }

  // ---- error detection -------------------------------------------------------------------------

  // The two inputs agree outside six adjacent positions.
  predicate DifferInWindow(a: seq<bv30>, b: seq<bv30>, at: nat) {
    && |a| == |b| && at + 6 <= |a|
    && a[..at] == b[..at] && a[at + 6..] == b[at + 6..]
  }

  lemma WindowSum(a: seq<bv30>, b: seq<bv30>)
    requires |a| == |b| == 6 && Symbols(a) && Symbols(b) && a != b
    ensures Absorb(0, Sum(a, b)) != 0
  {
    hide Plus, Mix, Packed, Absorb;
    var w := Sum(a, b);
    forall i | 0 <= i < 6 ensures w[i] < 32 { PlusShort(a[i], b[i]); }
    AbsorbSix(w);
    if Packed(w) == 0 {
      PackedZero(w);
      forall i | 0 <= i < 6 ensures a[i] == b[i] {
        assert w[i] == Zeros(6)[i];
        PlusSelf(a[i], b[i]);
      }
    }
  }

  lemma PlusShort(a: bv30, b: bv30)
    requires a < 32 && b < 32
    ensures Plus(a, b) < 32
  {
  }

  // Registers that differ keep differing while the input is the same.
  lemma DifferenceStays(s: bv30, t: bv30, tail: seq<bv30>)
    requires s != t
    ensures Absorb(s, tail) != Absorb(t, tail)
  {
    hide Plus, Mix, Absorb;
    AbsorbLinear(s, t, tail, tail);
    assert Sum(tail, tail) == Zeros(|tail|) by {
      forall i | 0 <= i < |tail| ensures Plus(tail[i], tail[i]) == 0 { PlusSelf(tail[i], tail[i]); }
    }
    AbsorbZeros(Plus(s, t), |tail|);
    PlusSelf(s, t);
    PlusSelf(Absorb(s, tail), Absorb(t, tail));
  }

  // Changing symbols anywhere inside six adjacent positions changes the register.
  lemma BurstIsDetected(s: bv30, a: seq<bv30>, b: seq<bv30>, at: nat)
    requires DifferInWindow(a, b, at) && a != b
    requires Symbols(a[at..at + 6]) && Symbols(b[at..at + 6])
    ensures Absorb(s, a) != Absorb(s, b)
  {
    hide Plus, Mix, Absorb;
    var wa, wb, tail := a[at..at + 6], b[at..at + 6], a[at + 6..];
    assert a == a[..at] + (wa + tail) && b == a[..at] + (wb + tail);
    var p := Absorb(s, a[..at]);
    AbsorbConcat(s, a[..at], wa + tail);
    AbsorbConcat(s, a[..at], wb + tail);
    AbsorbConcat(p, wa, tail);
    AbsorbConcat(p, wb, tail);
    WindowSum(wa, wb);
    AbsorbLinear(p, p, wa, wb);
    PlusSelf(p, p);
    PlusSelf(Absorb(p, wa), Absorb(p, wb));
    DifferenceStays(Absorb(p, wa), Absorb(p, wb), tail);
  }
}
