/** The one's-complement checksum of MIN layer 1, its closed form, and what it detects. */
module Fletcher {
  import opened Bytes

  datatype Sums = Sums(sum1: word, sum2: word)

  const INITIAL := Sums(0xFF, 0xFF)

  /** Adds the high byte back into the low byte. */
  function Fold(x: word): word {
    x % 0x100 + x / 0x100
  }

  /** Both accumulators are 16 bits wide; `sum2` takes the unfolded new `sum1`. */
  function Step(s: Sums, b: byte): Sums {
    var a := (s.sum1 + b) % 0x10000;
    var c := (s.sum2 + a) % 0x10000;
    Sums(Fold(a), Fold(c))
  }

  function Run(s: Sums, m: seq<byte>): Sums
    decreases m
  {
    if m == [] then s else Run(Step(s, m[0]), m[1..])
  }

  function Finalize(s: Sums): Sums {
    Sums(Fold(s.sum1), Fold(s.sum2))
  }

  function High(s: Sums): byte { s.sum2 % 0x100 }

  function Low(s: Sums): byte { s.sum1 % 0x100 }

  /** The two bytes sent after a message, high byte first. */
  function Checksum(m: seq<byte>): (r: (byte, byte)) {
    var f := Finalize(Run(INITIAL, m));
    (High(f), Low(f))
  }

  // ----- Range of the accumulators

  /** What holds between steps. `sum2` really does reach 0x100. */
  predicate InRange(s: Sums) {
    1 <= s.sum1 <= 0xFF && 1 <= s.sum2 <= 0x100
  }

  /** How many times 255 folding takes off a sum below 0x300. */
  function Carry(x: nat): nat {
    if x < 0x100 then 0 else if x < 0x200 then 1 else 2
  }

  lemma FoldSmall(x: word)
    requires x < 0x300
    ensures Fold(x) == x - 255 * Carry(x)
  {
  }

  lemma NoWrap(x: nat)
    requires x < 0x10000
    ensures x % 0x10000 == x
  {
  }

  /** One step adds, and takes off multiples of 255. */
  lemma StepValue(s: Sums, b: byte)
    requires InRange(s)
    ensures InRange(Step(s, b))
    ensures Step(s, b).sum1 == s.sum1 + b - 255 * Carry(s.sum1 + b)
    ensures Step(s, b).sum2 == s.sum2 + s.sum1 + b - 255 * Carry(s.sum2 + s.sum1 + b)
  {
    var a := s.sum1 + b;
    var c := s.sum2 + a;
    NoWrap(a);
    NoWrap(c);
    FoldSmall(a);
    FoldSmall(c);
    assert Step(s, b) == Sums(Fold(a), Fold(c));
  }

  lemma {:induction false} RunKeepsRange(s: Sums, m: seq<byte>)
    requires InRange(s)
    ensures InRange(Run(s, m))
    decreases m
  {
    if m != [] {
      StepValue(s, m[0]);
      RunKeepsRange(Step(s, m[0]), m[1..]);
    }
  }

  /** Finalizing only matters when `sum2` stands at 0x100. */
  lemma FinalizeValue(s: Sums)
    requires InRange(s)
    ensures Finalize(s) == if s.sum2 == 0x100 then Sums(s.sum1, 1) else s
    ensures High(Finalize(s)) == Finalize(s).sum2 && Low(Finalize(s)) == s.sum1
  {
    FoldSmall(s.sum1);
    FoldSmall(s.sum2);
  }

  lemma RunOne(s: Sums, b: byte)
    ensures Run(s, [b]) == Step(s, b)
  {
    assert [b][1..] == [];
  }

  /** Over a whole message, finalizing changes the sums exactly when `sum2` ends at 0x100, and
      leaves both in 1..255. */
  lemma FinalizeIsIdentityIff(m: seq<byte>)
    ensures InRange(Run(INITIAL, m))
    ensures Finalize(Run(INITIAL, m)) == Run(INITIAL, m) <==> Run(INITIAL, m).sum2 != 0x100
    ensures var f := Finalize(Run(INITIAL, m)); 1 <= f.sum1 <= 0xFF && 1 <= f.sum2 <= 0xFF
  {
    RunKeepsRange(INITIAL, m);
    FinalizeValue(Run(INITIAL, m));
  }

  /** A one-byte message on which finalizing is not the identity. */
  lemma FinalizeChangesSums()
    ensures Run(INITIAL, [1]) == Sums(1, 0x100)
    ensures Finalize(Run(INITIAL, [1])) == Sums(1, 1)
  {
    StepValue(INITIAL, 1);
    assert Step(INITIAL, 1) == Sums(1, 0x100);
    RunOne(INITIAL, 1);
    FinalizeValue(Sums(1, 0x100));
  }

  // ----- Closed form

  /** The representative of x modulo 255 in 1..255. */
  function Canonical(x: nat): int {
    (x + 254) % 255 + 1
  }

  lemma CanonicalIsUnique(r: int, x: nat, k: int)
    requires 1 <= r <= 255 && r == x - 255 * k
    ensures r == Canonical(x)
  {
  }

  function ByteSum(m: seq<byte>): nat {
    if m == [] then 0 else m[0] + ByteSum(m[1..])
  }

  /** Each byte counts once for itself and once for every byte after it. */
  function WeightedSum(m: seq<byte>): nat {
    if m == [] then 0 else |m| * m[0] + WeightedSum(m[1..])
  }

  lemma {:induction false} RunValue(s: Sums, m: seq<byte>) returns (j: int, k: int)
    requires InRange(s)
    ensures Run(s, m).sum1 == s.sum1 + ByteSum(m) - 255 * j
    ensures Run(s, m).sum2 == s.sum2 + |m| * s.sum1 + WeightedSum(m) - 255 * k
    decreases m
  {
    if m == [] {
      j, k := 0, 0;
    } else {
      var b, rest, t := m[0], m[1..], Step(s, m[0]);
      var c1, c2 := Carry(s.sum1 + b), Carry(s.sum2 + s.sum1 + b);
      StepValue(s, b);
      j, k := RunValue(t, rest);
      Regroup(|rest|, s.sum1, b, c1, t.sum1);
      j, k := j + c1, k + c2 + |rest| * c1;
    }
  }

  lemma Regroup(n: nat, x: int, b: int, c: int, y: int)
    requires y == x + b - 255 * c
    ensures n * y + x + b == (n + 1) * x + (n + 1) * b - 255 * (n * c)
  {
    assert n * y == n * x + n * b - 255 * (n * c) by {
      assert n * (255 * c) == 255 * (n * c);
      assert n * y == n * (x + b) - n * (255 * c);
    }
  }

  /** The checksum bytes are the byte sum and the position-weighted sum, reduced to 1..255. */
  lemma ChecksumClosedForm(m: seq<byte>)
    ensures Checksum(m) == (Canonical(WeightedSum(m)), Canonical(ByteSum(m)))
  {
    var s := Run(INITIAL, m);
    FinalizeIsIdentityIff(m);
    FinalizeValue(s);
    var j, k := RunValue(INITIAL, m);
    var fix := if s.sum2 == 0x100 then 1 else 0;
    CanonicalIsUnique(s.sum1, ByteSum(m), j - 1);
    CanonicalIsUnique(Finalize(s).sum2, WeightedSum(m), k - 1 - |m| + fix);
  }

  // ----- Error detection

  /** The sums see a byte only modulo 255, that is, 0x00 and 0xFF look the same. */
  predicate Confusable(a: byte, b: byte) {
    a == b || (a == 0 && b == 0xFF) || (a == 0xFF && b == 0)
  }

  /** Taking the same byte in neither hides nor creates a difference. */
  lemma SameByteKeepsDifference(s: Sums, t: Sums, b: byte)
    requires InRange(s) && InRange(t)
    ensures Finalize(Step(s, b)) == Finalize(Step(t, b)) <==> Finalize(s) == Finalize(t)
  {
    StepValue(s, b);
    StepValue(t, b);
    FinalizeValue(s);
    FinalizeValue(t);
    FinalizeValue(Step(s, b));
    FinalizeValue(Step(t, b));
    SameAfterCarries(s, t, b, Step(s, b), Step(t, b));
  }

  lemma SameAfterCarries(s: Sums, t: Sums, b: byte, s': Sums, t': Sums)
    requires InRange(s) && InRange(t) && InRange(s') && InRange(t')
    requires s'.sum1 == s.sum1 + b - 255 * Carry(s.sum1 + b) && t'.sum1 == t.sum1 + b - 255 * Carry(t.sum1 + b)
    requires s'.sum2 == s.sum2 + s.sum1 + b - 255 * Carry(s.sum2 + s.sum1 + b)
    requires t'.sum2 == t.sum2 + t.sum1 + b - 255 * Carry(t.sum2 + t.sum1 + b)
    ensures (if s'.sum2 == 0x100 then Sums(s'.sum1, 1) else s') == (if t'.sum2 == 0x100 then Sums(t'.sum1, 1) else t')
       <==> (if s.sum2 == 0x100 then Sums(s.sum1, 1) else s) == (if t.sum2 == 0x100 then Sums(t.sum1, 1) else t)
  {
  }

  lemma {:induction false} SuffixKeepsDifference(s: Sums, t: Sums, m: seq<byte>)
    requires InRange(s) && InRange(t)
    ensures Finalize(Run(s, m)) == Finalize(Run(t, m)) <==> Finalize(s) == Finalize(t)
    decreases m
  {
    if m != [] {
      StepValue(s, m[0]);
      StepValue(t, m[0]);
      SameByteKeepsDifference(s, t, m[0]);
      SuffixKeepsDifference(Step(s, m[0]), Step(t, m[0]), m[1..]);
    }
  }

  lemma {:induction false} RunAppend(s: Sums, m: seq<byte>, m': seq<byte>)
    ensures Run(s, m + m') == Run(Run(s, m), m')
    decreases m
  {
    if m == [] {
      assert m + m' == m';
    } else {
      assert (m + m')[1..] == m[1..] + m';
      RunAppend(Step(s, m[0]), m[1..], m');
    }
  }

  lemma SameChecksum(m: seq<byte>, m': seq<byte>)
    ensures Checksum(m) == Checksum(m') <==> Finalize(Run(INITIAL, m)) == Finalize(Run(INITIAL, m'))
    ensures Checksum(m).1 == Checksum(m').1 <==> Run(INITIAL, m).sum1 == Run(INITIAL, m').sum1
  {
    FinalizeIsIdentityIff(m);
    FinalizeIsIdentityIff(m');
    FinalizeValue(Run(INITIAL, m));
    FinalizeValue(Run(INITIAL, m'));
  }

  lemma OneStepSeparates(s: Sums, a: byte, a': byte)
    requires InRange(s)
    ensures Step(s, a).sum1 == Step(s, a').sum1 <==> Confusable(a, a')
    ensures Confusable(a, a') ==> Finalize(Step(s, a)) == Finalize(Step(s, a'))
  {
    StepValue(s, a);
    StepValue(s, a');
    FinalizeValue(Step(s, a));
    FinalizeValue(Step(s, a'));
  }

  /** Two different first bytes leave sums that no second byte can bring together again. */
  lemma TwoStepsSeparate(s: Sums, a: byte, b: byte, a': byte, b': byte)
    requires InRange(s)
    ensures Finalize(Step(Step(s, a), b)) == Finalize(Step(Step(s, a'), b'))
       <==> Confusable(a, a') && Confusable(b, b')
  {
    var t, t' := Step(s, a), Step(s, a');
    StepValue(s, a);
    StepValue(s, a');
    OneStepSeparates(s, a, a');
    if Confusable(a, a') {
      SameByteKeepsDifference(t, t', b);
      OneStepSeparates(t', b, b');
      StepValue(t', b);
      StepValue(t', b');
      FinalizeValue(Step(t', b));
      FinalizeValue(Step(t', b'));
      assert Finalize(Step(t, b)) == Finalize(Step(t', b));
    } else {
      SumsStayApart(s, a, b, a', b');
    }
  }

  lemma SumsStayApart(s: Sums, a: byte, b: byte, a': byte, b': byte)
    requires InRange(s) && !Confusable(a, a')
    ensures InRange(Step(s, a)) && InRange(Step(s, a'))
    ensures Finalize(Step(Step(s, a), b)) != Finalize(Step(Step(s, a'), b'))
  {
    var j, k := TwoStepsValue(s, a, b);
    var j', k' := TwoStepsValue(s, a', b');
    if Finalize(Step(Step(s, a), b)) == Finalize(Step(Step(s, a'), b')) {
      NoCancellation(a, b, j - j', a', b', k - k');
    }
  }

  lemma NoCancellation(a: byte, b: byte, j: int, a': byte, b': byte, k: int)
    requires a + b - a' - b' == 255 * j
    requires 2 * a + b - 2 * a' - b' == 255 * k
    ensures Confusable(a, a')
  {
    assert a - a' == 255 * (k - j);
  }

  lemma TwoStepsValue(s: Sums, a: byte, b: byte) returns (j: int, k: int)
    requires InRange(s)
    ensures InRange(Step(s, a))
    ensures Finalize(Step(Step(s, a), b)).sum1 == s.sum1 + a + b - 255 * j
    ensures Finalize(Step(Step(s, a), b)).sum2 == s.sum2 + 2 * s.sum1 + 2 * a + b - 255 * k
  {
    var t := Step(s, a);
    var u := Step(t, b);
    StepValue(s, a);
    StepValue(t, b);
    FinalizeValue(u);
    var c, d := Carry(s.sum1 + a), Carry(t.sum1 + b);
    j := c + d;
    k := Carry(s.sum2 + s.sum1 + a) + c + Carry(t.sum2 + t.sum1 + b) + if u.sum2 == 0x100 then 1 else 0;
  }

  lemma RunTwo(p: seq<byte>, x: byte, y: byte, q: seq<byte>)
    ensures Run(INITIAL, p + [x, y] + q) == Run(Step(Step(Run(INITIAL, p), x), y), q)
  {
    var s := Run(INITIAL, p);
    RunAppend(INITIAL, p + [x, y], q);
    RunAppend(INITIAL, p, [x, y]);
    assert [x, y][1..] == [y];
    assert Run(s, [x, y]) == Run(Step(s, x), [y]);
    assert Run(Step(s, x), [y]) == Run(Step(Step(s, x), y), []);
  }

  /** A change confined to two adjacent message bytes goes unnoticed exactly when every
      changed byte swapped 0x00 with 0xFF. Taking b == b' gives the one-byte case. */
  lemma AdjacentChangeDetected(p: seq<byte>, a: byte, b: byte, a': byte, b': byte, q: seq<byte>)
    ensures Checksum(p + [a, b] + q) == Checksum(p + [a', b'] + q) <==> Confusable(a, a') && Confusable(b, b')
  {
    var s := Run(INITIAL, p);
    RunKeepsRange(INITIAL, p);
    RunTwo(p, a, b, q);
    RunTwo(p, a', b', q);
    StepValue(s, a);
    StepValue(s, a');
    StepValue(Step(s, a), b);
    StepValue(Step(s, a'), b');
    SuffixKeepsDifference(Step(Step(s, a), b), Step(Step(s, a'), b'), q);
    TwoStepsSeparate(s, a, b, a', b');
    SameChecksum(p + [a, b] + q, p + [a', b'] + q);
  }

  /** With only the last message byte changed, the low checksum byte already tells. */
  lemma LastByteChange(p: seq<byte>, a: byte, a': byte)
    ensures Checksum(p + [a]).1 == Checksum(p + [a']).1 <==> Confusable(a, a')
    ensures Confusable(a, a') ==> Checksum(p + [a]) == Checksum(p + [a'])
  {
    var s := Run(INITIAL, p);
    RunKeepsRange(INITIAL, p);
    RunAppend(INITIAL, p, [a]);
    RunAppend(INITIAL, p, [a']);
    assert Run(s, [a]) == Run(Step(s, a), []) && Run(s, [a']) == Run(Step(s, a'), []);
    OneStepSeparates(s, a, a');
    SameChecksum(p + [a], p + [a']);
  }

  /** A received body: the message followed by its two checksum bytes. */
  predicate Accepted(body: seq<byte>) {
    var n := |body| - 2;
    n >= 0 && (body[n], body[n + 1]) == Checksum(body[..n])
  }

  predicate Unnoticed(body: seq<byte>, i: nat, x: byte)
    requires i < |body|
  {
    if i < |body| - 2 then Confusable(body[i], x) else x == body[i]
  }

  /** Over a whole received body, checksum bytes included: a change of two adjacent bytes is
      accepted exactly when it leaves the checksum bytes alone and every changed message byte
      swapped 0x00 with 0xFF. */
  lemma AdjacentChangeInBody(body: seq<byte>, i: nat, x: byte, y: byte)
    requires Accepted(body) && i + 1 < |body|
    ensures Accepted(body[i := x][i + 1 := y]) <==> Unnoticed(body, i, x) && Unnoticed(body, i + 1, y)
  {
    var n := |body| - 2;
    var changed := body[i := x][i + 1 := y];
    if i + 1 < n {
      ChangeInMessage(body, i, x, y);
    } else if i + 1 == n {
      ChangeAcrossBoundary(body, x, y);
    } else {
      assert changed[..n] == body[..n];
    }
  }

  lemma ChangeInMessage(body: seq<byte>, i: nat, x: byte, y: byte)
    requires Accepted(body) && i + 3 < |body|
    ensures Accepted(body[i := x][i + 1 := y]) <==> Confusable(body[i], x) && Confusable(body[i + 1], y)
  {
    var n := |body| - 2;
    var m, changed := body[..n], body[i := x][i + 1 := y];
    var m' := changed[..n];
    assert m' == m[i := x][i + 1 := y];
    ChangeTwo(m, i, x, y);
    AcceptedWhen(body, m);
    AcceptedWhen(changed, m');
  }

  lemma AcceptedWhen(body: seq<byte>, m: seq<byte>)
    requires |body| == |m| + 2 && m == body[..|m|]
    ensures Accepted(body) <==> (body[|m|], body[|m| + 1]) == Checksum(m)
  {
  }

  lemma ChangeTwo(m: seq<byte>, i: nat, x: byte, y: byte)
    requires i + 1 < |m|
    ensures Checksum(m) == Checksum(m[i := x][i + 1 := y]) <==> Confusable(m[i], x) && Confusable(m[i + 1], y)
  {
    SplitAtTwo(m, i);
    SplitAtTwo(m[i := x][i + 1 := y], i);
    assert m[i := x][i + 1 := y][i + 2..] == m[i + 2..];
    assert m[i := x][i + 1 := y][..i] == m[..i];
    AdjacentChangeDetected(m[..i], m[i], m[i + 1], x, y, m[i + 2..]);
  }

  lemma SplitAtTwo(m: seq<byte>, i: nat)
    requires i + 1 < |m|
    ensures m == m[..i] + [m[i], m[i + 1]] + m[i + 2..]
  {
  }

  lemma ChangeAcrossBoundary(body: seq<byte>, x: byte, y: byte)
    requires Accepted(body) && |body| >= 3
    ensures var i := |body| - 3;
            Accepted(body[i := x][i + 1 := y]) <==> Confusable(body[i], x) && y == body[i + 1]
  {
    var i, n := |body| - 3, |body| - 2;
    var changed := body[i := x][n := y];
    var p := body[..i];
    assert body[..n] == p + [body[i]] && changed[..n] == p + [x];
    LastByteChange(p, body[i], x);
    AcceptedWhen(body, p + [body[i]]);
    AcceptedWhen(changed, p + [x]);
  }
}
