/** Bit-by-bit polynomial division in a shift register, for any width and polynomial. Registers and messages are
    bits, the highest power first; a polynomial is written without its highest term. */
module ChecksumDivision {
  import opened BitstreamBits

  /** The sum of two polynomials. */
  function Plus(a: seq<bool>, b: seq<bool>): (r: seq<bool>)
    requires |a| == |b|
    ensures |r| == |a|
  {
    seq(|a|, i requires 0 <= i < |a| => a[i] != b[i])
  }

  function Shift(c: seq<bool>): (r: seq<bool>)
    requires c != []
    ensures |r| == |c|
  {
    c[1..] + [false]
  }

  /** One message bit: the polynomial is subtracted when the bit differs from the one shifted out. */
  function Step(poly: seq<bool>, c: seq<bool>, bit: bool): (r: seq<bool>)
    requires |poly| == |c| > 0
    ensures |r| == |c|
  {
    if c[0] != bit then Plus(Shift(c), poly) else Shift(c)
  }

  /** The register after all message bits. */
  function Divided(poly: seq<bool>, c: seq<bool>, bits: seq<bool>): (r: seq<bool>)
    requires |poly| == |c| > 0
    ensures |r| == |c|
    decreases bits
  {
    if bits == [] then c else Divided(poly, Step(poly, c, bits[0]), bits[1..])
  }

  lemma {:induction false} InParts(poly: seq<bool>, c: seq<bool>, a: seq<bool>, b: seq<bool>)
    requires |poly| == |c| > 0
    ensures Divided(poly, c, a + b) == Divided(poly, Divided(poly, c, a), b)
    decreases a
  {
    hide Step;
    if a == [] {
      assert a + b == b;
    } else {
      assert (a + b)[1..] == a[1..] + b;
      InParts(poly, Step(poly, c, a[0]), a[1..], b);
    }
  }

  // ---------------------------------------------------------------- division is linear

  lemma {:induction false} StepLinear(poly: seq<bool>, a: seq<bool>, b: seq<bool>, x: bool, y: bool)
    requires |poly| == |a| == |b| > 0
    ensures Step(poly, Plus(a, b), x != y) == Plus(Step(poly, a, x), Step(poly, b, y))
  {
  }

  /** The register of a sum of messages is the sum of their registers. */
  lemma {:induction false} Linear(poly: seq<bool>, a: seq<bool>, b: seq<bool>, m: seq<bool>, n: seq<bool>)
    requires |poly| == |a| == |b| > 0 && |m| == |n|
    ensures Divided(poly, Plus(a, b), Plus(m, n)) == Plus(Divided(poly, a, m), Divided(poly, b, n))
    decreases m
  {
    hide Step;
    if m != [] {
      StepLinear(poly, a, b, m[0], n[0]);
      assert Plus(m, n)[1..] == Plus(m[1..], n[1..]);
      Linear(poly, Step(poly, a, m[0]), Step(poly, b, n[0]), m[1..], n[1..]);
    }
  }

  lemma {:induction false} PlusZeros(c: seq<bool>)
    ensures Plus(Zeros(|c|), c) == c
  {
  }

  lemma {:induction false} PlusSame(a: seq<bool>, b: seq<bool>)
    requires |a| == |b|
    ensures Plus(a, b) == Zeros(|a|) <==> a == b
    ensures Plus(Plus(a, b), b) == a
  {
    if Plus(a, b) == Zeros(|a|) {
      forall i | 0 <= i < |a| ensures a[i] == b[i] {
        assert Plus(a, b)[i] == Zeros(|a|)[i];
      }
    }
  }

  /** A register fed with its own leading bits only shifts. */
  lemma {:induction false} OwnBitsShift(poly: seq<bool>, c: seq<bool>, n: nat)
    requires |poly| == |c| > 0 && n <= |c|
    ensures Divided(poly, c, c[..n]) == c[n..] + Zeros(n)
    decreases n
  {
    if n == 0 {
      assert c[0..] + Zeros(0) == c;
    } else {
      var next := Shift(c);
      assert c[..n][1..] == next[..n - 1];
      OwnBitsShift(poly, next, n - 1);
      assert next[n - 1..] + Zeros(n - 1) == c[n..] + Zeros(n);
    }
  }

  /** What a table lookup relies on: several bits at once are those bits with the leading ones of the register,
      divided from zero, and the rest of the register shifted. */
  lemma {:induction false} ManyAtOnce(poly: seq<bool>, c: seq<bool>, b: seq<bool>)
    requires |poly| == |c| > 0 && |b| <= |c|
    ensures Divided(poly, c, b)
            == Plus(Divided(poly, Zeros(|c|), Plus(b, c[..|b|])), c[|b|..] + Zeros(|b|))
  {
    hide Divided, Plus;
    var own := c[..|b|];
    PlusZeros(c);
    PlusSame(b, own);
    Linear(poly, Zeros(|c|), c, Plus(b, own), own);
    OwnBitsShift(poly, c, |b|);
  }

  // ---------------------------------------------------------------- what a checksum is for

  lemma {:induction false} StepInjective(poly: seq<bool>, a: seq<bool>, b: seq<bool>, bit: bool)
    requires |poly| == |a| == |b| > 0 && poly[|poly| - 1] && Step(poly, a, bit) == Step(poly, b, bit)
    ensures a == b
  {
    var w := |a|;
    var p, q := Step(poly, a, bit), Step(poly, b, bit);
    assert p[w - 1] == (a[0] != bit) && q[w - 1] == (b[0] != bit);
    forall i | 0 < i < w ensures a[i] == b[i] {
      assert Shift(a)[i - 1] == a[i] && Shift(b)[i - 1] == b[i];
      assert p[i - 1] == q[i - 1];
    }
  }

  lemma {:induction false} Injective(poly: seq<bool>, a: seq<bool>, b: seq<bool>, m: seq<bool>)
    requires |poly| == |a| == |b| > 0 && poly[|poly| - 1] && Divided(poly, a, m) == Divided(poly, b, m)
    ensures a == b
    decreases m
  {
    hide Step;
    if m != [] {
      Injective(poly, Step(poly, a, m[0]), Step(poly, b, m[0]), m[1..]);
      StepInjective(poly, a, b, m[0]);
    }
  }

  lemma {:induction false} NothingDivided(poly: seq<bool>, n: nat)
    requires poly != []
    ensures Divided(poly, Zeros(|poly|), Zeros(n)) == Zeros(|poly|)
  {
    if n > 0 {
      assert Step(poly, Zeros(|poly|), false) == Zeros(|poly|);
      assert Zeros(n)[1..] == Zeros(n - 1);
      NothingDivided(poly, n - 1);
    }
  }

  /** An error pattern no longer than the register leaves a remainder, wherever it is. */
  lemma {:induction false} BurstRemains(poly: seq<bool>, before: nat, burst: seq<bool>, after: nat)
    requires poly != [] && poly[|poly| - 1] && |burst| <= |poly| && true in burst
    ensures Divided(poly, Zeros(|poly|), Zeros(before) + (burst + Zeros(after))) != Zeros(|poly|)
  {
    hide Divided, Step;
    var zero, padded := Zeros(|poly|), burst + Zeros(|poly| - |burst|);
    InParts(poly, zero, Zeros(before), burst + Zeros(after));
    NothingDivided(poly, before);
    InParts(poly, zero, burst, Zeros(after));
    NothingDivided(poly, after);
    var r := Divided(poly, zero, burst);
    if Divided(poly, r, Zeros(after)) == zero {
      Injective(poly, r, zero, Zeros(after));
      OwnBitsShift(poly, padded, |burst|);
      assert padded[..|burst|] == burst && padded[|burst|..] + Zeros(|burst|) == zero;
      Injective(poly, padded, zero, burst);
    }
  }

  /** The messages differ, and only within the given bits. */
  predicate DifferWithin(m: seq<bool>, n: seq<bool>, from: nat, length: nat) {
    |m| == |n| && m != n && forall i :: 0 <= i < |m| && m[i] != n[i] ==> from <= i < from + length
  }

  /** Every error within a stretch of bits no longer than the register changes the checksum. */
  lemma {:induction false} BurstDetected(poly: seq<bool>, c: seq<bool>, m: seq<bool>, n: seq<bool>, from: nat)
    requires |poly| == |c| > 0 && poly[|poly| - 1] && DifferWithin(m, n, from, |poly|)
    ensures Divided(poly, c, m) != Divided(poly, c, n)
  {
    hide Divided;
    var d, w := Plus(m, n), |poly|;
    var i :| 0 <= i < |m| && m[i] != n[i];
    var end := if from + w <= |m| then from + w else |m|;
    var burst := d[from..end];
    assert burst[i - from];
    assert d == Zeros(from) + (burst + Zeros(|m| - end));
    BurstRemains(poly, from, burst, |m| - end);
    PlusSame(c, c);
    Linear(poly, c, c, m, n);
    PlusSame(Divided(poly, c, m), Divided(poly, c, n));
  }
}
