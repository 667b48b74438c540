/** The bitwise CRC of the boot loader: x^16 + x^12 + x^5 + 1. A register is its sixteen bits,
    high bit first. */
module Crc {

  type Octet = s: seq<bool> | |s| == 8 witness seq(8, _ => false)
  type Register = s: seq<bool> | |s| == 16 witness seq(16, _ => false)

  /** 0x1021. */
  const CRC16POLY: Register :=
    [false, false, false, true, false, false, false, false, false, false, true, false, false, false, false, true]

  function Zeros(n: nat): (r: seq<bool>)
    ensures |r| == n
  {
    seq(n, _ => false)
  }

  function Xor(x: seq<bool>, y: seq<bool>): (r: seq<bool>)
    requires |x| == |y|
    ensures |r| == |x|
    ensures forall i :: 0 <= i < |x| ==> r[i] == (x[i] != y[i])
  {
    seq(|x|, i requires 0 <= i < |x| => x[i] != y[i])
  }

  function ShiftLeft(x: Register): Register {
    x[1..] + [false]
  }

  /** One round of the loop: the bit that falls off the top decides. */
  function Shift(x: Register): Register {
    if x[0] then Xor(ShiftLeft(x), CRC16POLY) else ShiftLeft(x)
  }

  function Shifts(x: Register, n: nat): Register {
    if n == 0 then x else Shift(Shifts(x, n - 1))
  }

  /** The byte in the high half of a register. */
  function InHighByte(c: Octet): Register {
    c + Zeros(8)
  }

  function Step(c: Octet, crc: Register): Register {
    Shifts(Xor(crc, InHighByte(c)), |c|)
  }

  method AddCrc(c: Octet, crc: Register) returns (r: Register)
    ensures r == Step(c, crc)
  {
    r := Xor(crc, InHighByte(c));
    ghost var x := r;
    for cmpt := 0 to 8
      invariant r == Shifts(x, cmpt)
    {
      if r[0] {
        r := Xor(ShiftLeft(r), CRC16POLY);
      } else {
        r := ShiftLeft(r);
      }
    }
  }

  function Of(m: seq<Octet>, crc: Register): Register
    decreases m
  {
    if m == [] then crc else Of(m[1..], Step(m[0], crc))
  }

  function High(x: Register): Octet {
    x[..8]
  }

  function Low(x: Register): Octet {
    x[8..]
  }

  // ----- Linearity

  lemma ShiftIsLinear(x: Register, y: Register)
    ensures Shift(Xor(x, y)) == Xor(Shift(x), Shift(y))
  {
  }

  lemma {:induction false} ShiftsIsLinear(x: Register, y: Register, n: nat)
    ensures Shifts(Xor(x, y), n) == Xor(Shifts(x, n), Shifts(y, n))
  {
    if n > 0 {
      ShiftsIsLinear(x, y, n - 1);
      ShiftIsLinear(Shifts(x, n - 1), Shifts(y, n - 1));
    }
  }

  /** The polynomial ends in 1, so a round loses nothing. */
  lemma ShiftIsInjective(x: Register)
    ensures Shift(x) == Zeros(16) <==> x == Zeros(16)
  {
    assert Shift(x)[15] == x[0];
    if Shift(x) == Zeros(16) {
      assert forall i :: 0 < i < 16 ==> x[i] == Shift(x)[i - 1];
    }
  }

  lemma {:induction false} ShiftsIsInjective(x: Register, n: nat)
    ensures Shifts(x, n) == Zeros(16) <==> x == Zeros(16)
  {
    if n > 0 {
      ShiftsIsInjective(x, n - 1);
      ShiftIsInjective(Shifts(x, n - 1));
    }
  }

  lemma XorIsZero(x: seq<bool>, y: seq<bool>)
    requires |x| == |y|
    ensures Xor(x, y) == Zeros(|x|) <==> x == y
  {
    if Xor(x, y) == Zeros(|x|) {
      assert forall i :: 0 <= i < |x| ==> !Xor(x, y)[i];
    }
  }

  lemma ShiftsSeparates(x: Register, y: Register, n: nat)
    ensures Shifts(x, n) == Shifts(y, n) <==> x == y
  {
    ShiftsIsLinear(x, y, n);
    ShiftsIsInjective(Xor(x, y), n);
    XorIsZero(x, y);
    XorIsZero(Shifts(x, n), Shifts(y, n));
  }

  lemma StepIsLinear(c: Octet, d: Octet, x: Register, y: Register)
    ensures Step(Xor(c, d), Xor(x, y)) == Xor(Step(c, x), Step(d, y))
  {
    var p, q := Xor(x, InHighByte(c)), Xor(y, InHighByte(d));
    assert Xor(Xor(x, y), InHighByte(Xor(c, d))) == Xor(p, q);
    ShiftsIsLinear(p, q, |c|);
  }

  function XorAll(m: seq<Octet>, n: seq<Octet>): (r: seq<Octet>)
    requires |m| == |n|
    ensures |r| == |m|
  {
    if m == [] then [] else [Xor(m[0], n[0])] + XorAll(m[1..], n[1..])
  }

  /** The CRC of a combination is the combination of the CRCs. */
  lemma {:induction false} CrcIsLinear(m: seq<Octet>, n: seq<Octet>, x: Register, y: Register)
    requires |m| == |n|
    ensures Of(XorAll(m, n), Xor(x, y)) == Xor(Of(m, x), Of(n, y))
    decreases m
  {
    if m != [] {
      StepIsLinear(m[0], n[0], x, y);
      assert XorAll(m, n)[1..] == XorAll(m[1..], n[1..]);
      CrcIsLinear(m[1..], n[1..], Step(m[0], x), Step(n[0], y));
    }
  }

  lemma {:induction false} OfAppend(m: seq<Octet>, n: seq<Octet>, x: Register)
    ensures Of(m + n, x) == Of(n, Of(m, x))
    decreases m
  {
    if m == [] {
      assert m + n == n;
    } else {
      assert (m + n)[1..] == m[1..] + n;
      OfAppend(m[1..], n, Step(m[0], x));
    }
  }

  lemma OfTwo(a: Octet, b: Octet, x: Register)
    ensures Of([a, b], x) == Step(b, Step(a, x))
  {
    assert [a, b][1..] == [b] && [b][1..] == [];
    assert Of([b], Step(a, x)) == Of([], Step(b, Step(a, x)));
  }

  // ----- Two bytes

  /** A byte in the low half reaches the high half without meeting the polynomial. */
  lemma {:induction false} LowByteRises(c: Octet, n: nat)
    requires n <= 8
    ensures Shifts(Zeros(8) + c, n) == Zeros(8 - n) + c + Zeros(n)
    decreases n
  {
    if n == 0 {
      assert Zeros(8) + c == Zeros(8) + c + Zeros(0);
    } else {
      LowByteRises(c, n - 1);
      var x := Zeros(8 - (n - 1)) + c + Zeros(n - 1);
      assert !x[0];
      assert ShiftLeft(x) == Zeros(8 - n) + c + Zeros(n);
    }
  }

  /** Taking in a second byte is the same as having had it in the low half from the start. */
  lemma StepFromLow(b: Octet, x: Register)
    ensures Step(b, Shifts(x, |b|)) == Shifts(Shifts(Xor(x, Zeros(8) + b), |b|), |b|)
  {
    LowByteRises(b, |b|);
    assert Shifts(Zeros(8) + b, |b|) == InHighByte(b);
    ShiftsIsLinear(x, Zeros(8) + b, |b|);
  }

  /** Two bytes taken in are their sixteen bits exclusive-ored into the register. */
  lemma TwoSteps(a: Octet, b: Octet, x: Register)
    ensures Step(b, Step(a, x)) == Shifts(Shifts(Xor(x, a + b), |a|), |a|)
  {
    StepFromLow(b, Xor(x, InHighByte(a)));
    XorBoth(a, b, x);
  }

  lemma XorBoth(a: Octet, b: Octet, x: Register)
    ensures Xor(Xor(x, InHighByte(a)), Zeros(8) + b) == Xor(x, a + b)
  {
  }

  /** Two bytes applied to the same register give the same result only if they are the same
      two bytes. */
  lemma TwoBytesSeparate(a: Octet, b: Octet, c: Octet, d: Octet, x: Register)
    ensures Step(b, Step(a, x)) == Step(d, Step(c, x)) <==> a == c && b == d
  {
    TwoSteps(a, b, x);
    TwoSteps(c, d, x);
    ShiftsSeparates(Shifts(Xor(x, a + b), |a|), Shifts(Xor(x, c + d), |a|), |a|);
    ShiftsSeparates(Xor(x, a + b), Xor(x, c + d), |a|);
    SameXor(x, a + b, c + d);
    assert (a + b)[..8] == a && (c + d)[..8] == c && (a + b)[8..] == b && (c + d)[8..] == d;
  }

  lemma SameXor(x: seq<bool>, p: seq<bool>, q: seq<bool>)
    requires |x| == |p| == |q|
    ensures Xor(x, p) == Xor(x, q) <==> p == q
  {
    if Xor(x, p) == Xor(x, q) {
      assert forall i :: 0 <= i < |x| ==> Xor(x, p)[i] == Xor(x, q)[i];
    }
  }

  /** Two trailing bytes bring the CRC to zero exactly when they are the message's own CRC,
      high byte first. */
  lemma OwnCrcGivesZero(m: seq<Octet>, x: Register, a: Octet, b: Octet)
    ensures Of(m + [a, b], x) == Zeros(16) <==> a == High(Of(m, x)) && b == Low(Of(m, x))
  {
    var c := Of(m, x);
    OfAppend(m, [a, b], x);
    OfTwo(a, b, c);
    TwoSteps(a, b, c);
    ShiftsIsInjective(Shifts(Xor(c, a + b), |a|), |a|);
    ShiftsIsInjective(Xor(c, a + b), |a|);
    XorIsZero(c, a + b);
    assert c == High(c) + Low(c);
    assert (a + b)[..8] == a && (a + b)[8..] == b;
  }

  // ----- Error detection

  lemma SameByteSeparates(c: Octet, x: Register, y: Register)
    ensures Step(c, x) == Step(c, y) <==> x == y
  {
    var h := InHighByte(c);
    ShiftsSeparates(Xor(x, h), Xor(y, h), |c|);
    assert Xor(x, h) == Xor(h, x) && Xor(y, h) == Xor(h, y);
    SameXor(h, x, y);
  }

  lemma {:induction false} SuffixKeepsDifference(m: seq<Octet>, x: Register, y: Register)
    ensures Of(m, x) == Of(m, y) <==> x == y
    decreases m
  {
    if m != [] {
      SuffixKeepsDifference(m[1..], Step(m[0], x), Step(m[0], y));
      SameByteSeparates(m[0], x, y);
    }
  }

  /** Any change confined to two consecutive bytes of a message of any length changes the CRC. */
  lemma AdjacentErrorDetected(p: seq<Octet>, a: Octet, b: Octet, c: Octet, d: Octet, q: seq<Octet>, x: Register)
    ensures Of(p + [a, b] + q, x) == Of(p + [c, d] + q, x) <==> a == c && b == d
  {
    var y := Of(p, x);
    OfAppend(p + [a, b], q, x);
    OfAppend(p + [c, d], q, x);
    OfAppend(p, [a, b], x);
    OfAppend(p, [c, d], x);
    OfTwo(a, b, y);
    OfTwo(c, d, y);
    SuffixKeepsDifference(q, Step(b, Step(a, y)), Step(d, Step(c, y)));
    TwoBytesSeparate(a, b, c, d, y);
  }

  // ----- The CRC as a remainder

  /** x^16 + x^12 + x^5 + 1, as seventeen coefficients, the highest first. */
  const GENERATOR: seq<bool> := [
    true, false, false, false, true, false, false, false, false, false, false, true, false, false, false, false, true]

  /** The product of a polynomial and the generator, without carries. */
  function TimesGenerator(q: seq<bool>): (r: seq<bool>)
    ensures |r| == |q| + 16
  {
    if q == [] then Zeros(16)
    else
      var n := |q| - 1;
      var shifted := TimesGenerator(q[..n]) + [false];
      if q[n] then Xor(shifted, Zeros(n) + GENERATOR) else shifted
  }

  /** All bits of a message, the first byte first and the high bit of each first. */
  function Bits(m: seq<Octet>): (r: seq<bool>)
    ensures |r| == 8 * |m|
  {
    if m == [] then [] else m[0] + Bits(m[1..])
  }

  /** One bit taken into a register. */
  function Feed(x: Register, b: bool): Register {
    Shift(Xor(x, [b] + Zeros(15)))
  }

  function FeedAll(x: Register, bits: seq<bool>): Register {
    if bits == [] then x else Feed(FeedAll(x, bits[..|bits| - 1]), bits[|bits| - 1])
  }

  lemma FeedOneMore(x: Register, bits: seq<bool>, b: bool)
    ensures FeedAll(x, bits + [b]) == Feed(FeedAll(x, bits), b)
  {
    assert (bits + [b])[..|bits|] == bits;
  }

  lemma {:induction false} FeedInOrder(x: Register, first: seq<bool>, second: seq<bool>)
    ensures FeedAll(x, first + second) == FeedAll(FeedAll(x, first), second)
    decreases |second|
  {
    if second == [] {
      assert first + second == first;
    } else {
      var n := |second| - 1;
      assert first + second == first + second[..n] + [second[n]];
      FeedOneMore(x, first + second[..n], second[n]);
      FeedInOrder(x, first, second[..n]);
    }
  }

  /** A bit that is not at the top rises there without meeting the polynomial. */
  lemma {:induction false} BitRises(b: bool, k: nat, n: nat)
    requires n <= k <= 15
    ensures Shifts(Zeros(k) + [b] + Zeros(15 - k), n) == Zeros(k - n) + [b] + Zeros(15 - k + n)
    decreases n
  {
    if n > 0 {
      BitRises(b, k, n - 1);
      var x := Zeros(k - n + 1) + [b] + Zeros(15 - k + n - 1);
      assert !x[0];
      assert ShiftLeft(x) == Zeros(k - n) + [b] + Zeros(15 - k + n);
    }
  }

  /** Taking bits in one by one is taking them in together and then shifting. */
  lemma {:induction false} FeedIsShifts(x: Register, bits: seq<bool>)
    requires |bits| <= 16
    ensures FeedAll(x, bits) == Shifts(Xor(x, bits + Zeros(16 - |bits|)), |bits|)
    decreases |bits|
  {
    if bits == [] {
      assert Xor(x, [] + Zeros(16)) == x;
    } else {
      var n := |bits| - 1;
      FeedIsShifts(x, bits[..n]);
      OneBitFurther(x, bits, bits[..n], bits[n], n);
      BitFed(Xor(x, bits[..n] + Zeros(16 - n)), bits[n], n);
    }
  }

  lemma BitFed(y: Register, b: bool, n: nat)
    requires n < 16
    ensures Feed(Shifts(y, n), b) == Shifts(Xor(y, Zeros(n) + [b] + Zeros(15 - n)), n + 1)
  {
    ShiftsIsLinear(y, Zeros(n) + [b] + Zeros(15 - n), n);
    BitRises(b, n, n);
    assert Zeros(0) + [b] + Zeros(15) == [b] + Zeros(15);
  }

  lemma OneBitFurther(x: Register, bits: seq<bool>, front: seq<bool>, b: bool, n: nat)
    requires n < 16 && |front| == n && bits == front + [b]
    ensures Xor(x, bits + Zeros(16 - |bits|)) == Xor(Xor(x, front + Zeros(16 - n)), Zeros(n) + [b] + Zeros(15 - n))
  {
  }

  lemma {:induction false} OfIsFed(m: seq<Octet>, x: Register)
    ensures Of(m, x) == FeedAll(x, Bits(m))
    decreases m
  {
    if m != [] {
      FeedIsShifts(x, m[0]);
      OfIsFed(m[1..], Step(m[0], x));
      FeedInOrder(x, m[0], Bits(m[1..]));
    }
  }

  /** One bit further: the bit that falls off the top is the next coefficient of the quotient. */
  lemma DividedOnce(bits: seq<bool>, q: seq<bool>, x: Register, b: bool, t: bool)
    requires |q| == |bits| && bits + Zeros(16) == Xor(TimesGenerator(q), Zeros(|q|) + x) && t == (x[0] != b)
    ensures (bits + [b]) + Zeros(16) == Xor(TimesGenerator(q + [t]), Zeros(|q| + 1) + Feed(x, b))
  {
    var n, p := |q|, TimesGenerator(q);
    var l, r := (bits + [b]) + Zeros(16), Xor(TimesGenerator(q + [t]), Zeros(n + 1) + Feed(x, b));
    forall i | 0 <= i < n + 17
      ensures l[i] == r[i]
    {
      TimesAt(q, t, i);
      DividedAt(bits, p, TimesGenerator(q + [t]), x, b, t, n, i);
    }
  }

  lemma TimesAt(q: seq<bool>, t: bool, i: nat)
    requires i < |q| + 17
    ensures TimesGenerator(q + [t])[i]
         == ((i < |q| + 16 && TimesGenerator(q)[i]) != (t && i >= |q| && GENERATOR[i - |q|]))
  {
    assert (q + [t])[..|q|] == q;
  }

  lemma DividedAt(bits: seq<bool>, p: seq<bool>, p': seq<bool>, x: Register, b: bool, t: bool, n: nat, i: nat)
    requires |bits| == n && |p| == n + 16 && |p'| == n + 17 && i < n + 17
    requires bits + Zeros(16) == Xor(p, Zeros(n) + x) && t == (x[0] != b)
    requires p'[i] == ((i < n + 16 && p[i]) != (t && i >= n && GENERATOR[i - n]))
    ensures ((bits + [b]) + Zeros(16))[i] == Xor(p', Zeros(n + 1) + Feed(x, b))[i]
  {
    if i < n + 16 {
      DividedSoFar(bits, p, x, n, i);
    }
    if i > n {
      FeedAt(x, b, t, i - n - 1);
    }
  }

  lemma DividedSoFar(bits: seq<bool>, p: seq<bool>, x: Register, n: nat, i: nat)
    requires |bits| == n && |p| == n + 16 && i < n + 16 && bits + Zeros(16) == Xor(p, Zeros(n) + x)
    ensures p[i] == if i < n then bits[i] else x[i - n]
  {
    assert (bits + Zeros(16))[i] == Xor(p, Zeros(n) + x)[i];
  }

  lemma FeedAt(x: Register, b: bool, t: bool, k: nat)
    requires k < 16 && t == (x[0] != b)
    ensures Feed(x, b)[k] == ((if k < 15 then x[k + 1] else false) != (t && GENERATOR[k + 1]))
  {
    assert CRC16POLY[k] == GENERATOR[k + 1];
  }

  lemma {:induction false} FedIsRemainder(bits: seq<bool>) returns (q: seq<bool>)
    ensures |q| == |bits| && bits + Zeros(16) == Xor(TimesGenerator(q), Zeros(|q|) + FeedAll(Zeros(16), bits))
    decreases |bits|
  {
    if bits == [] {
      q := [];
    } else {
      var n := |bits| - 1;
      var p := FedIsRemainder(bits[..n]);
      var x := FeedAll(Zeros(16), bits[..n]);
      q := p + [x[0] != bits[n]];
      assert bits == bits[..n] + [bits[n]];
      DividedOnce(bits[..n], p, x, bits[n], x[0] != bits[n]);
    }
  }

  /** The CRC of a message is the remainder of its polynomial, times x^16, divided by the generator. */
  lemma CrcIsRemainder(m: seq<Octet>) returns (quotient: seq<bool>)
    ensures |quotient| == 8 * |m|
    ensures Bits(m) + Zeros(16) == Xor(TimesGenerator(quotient), Zeros(|quotient|) + Of(m, Zeros(16)))
  {
    OfIsFed(m, Zeros(16));
    quotient := FedIsRemainder(Bits(m));
  }
}
