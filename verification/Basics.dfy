/** Small shared vocabulary. */
module Basics {
  datatype Option<+T> = None | Some(value: T)

  const TWO_TO_THE_32 := 0x1_0000_0000

  /** An unsigned char. */
  type byte = x: int | 0 <= x < 256

  lemma {:induction false} Assoc<T>(a: seq<T>, b: seq<T>, c: seq<T>)
    ensures (a + b) + c == a + (b + c)
  {
  }

  /** p stands in data at position i. */
  predicate At(data: seq<byte>, i: nat, p: seq<byte>) {
    i + |p| <= |data| && data[i..i + |p|] == p
  }

  lemma {:induction false} AtSplit(data: seq<byte>, i: nat, a: seq<byte>, b: seq<byte>)
    requires At(data, i, a + b)
    ensures At(data, i, a) && At(data, i + |a|, b)
  {
    assert data[i..i + |a|] == (a + b)[..|a|];
    assert data[i + |a|..i + |a| + |b|] == (a + b)[|a|..];
  }

  lemma {:induction false} AtIndex(data: seq<byte>, i: nat, p: seq<byte>, k: nat)
    requires At(data, i, p) && k < |p|
    ensures data[i + k] == p[k]
  {
    assert data[i..i + |p|][k] == p[k];
  }

  lemma {:induction false} AtFits(data: seq<byte>, i: nat, p: seq<byte>)
    requires At(data, i, p)
    ensures i + |p| <= |data|
  {
  }

  lemma {:induction false} AtStart(p: seq<byte>, rest: seq<byte>)
    ensures At(p + rest, 0, p) && At(p, 0, p)
  {
  }

  /** Big-endian 16 and 32 bit lengths, as the writers emit them. */
  function Be16(n: nat): (r: seq<byte>)
    ensures |r| == 2
  {
    [n / 0x100 % 0x100, n % 0x100]
  }

  function Be32(n: nat): (r: seq<byte>)
    ensures |r| == 4
  {
    [n / 0x100_0000 % 0x100, n / 0x1_0000 % 0x100, n / 0x100 % 0x100, n % 0x100]
  }

  /** The number two or four big-endian bytes stand for. */
  function Join16(a: nat, b: nat): nat { a * 0x100 + b }

  function Join32(a: nat, b: nat, c: nat, d: nat): nat { a * 0x100_0000 + b * 0x1_0000 + c * 0x100 + d }

  lemma {:induction false} Be16Exact(n: nat)
    requires n < 0x1_0000
    ensures Join16(Be16(n)[0], Be16(n)[1]) == n
  {
  }

  lemma {:induction false} Be32Exact(n: nat)
    requires n < 0x1_0000_0000
    ensures Join32(Be32(n)[0], Be32(n)[1], Be32(n)[2], Be32(n)[3]) == n
  {
    assert n / 0x100_0000 < 0x100;
    assert n / 0x1_0000 == n / 0x100_0000 * 0x100 + n / 0x1_0000 % 0x100;
    assert n / 0x100 == n / 0x1_0000 * 0x100 + n / 0x100 % 0x100;
  }

  // Division with variable divisors.

  lemma {:induction false} DivideExact(x: nat, n: nat, q: nat)
    requires n > 0 && n * q <= x < n * q + n
    ensures x / n == q
  {
    if x / n < q {
      MultiplyGap(n, x / n, q);
    } else if x / n > q {
      MultiplyGap(n, q, x / n);
    }
  }

  lemma {:induction false} MultiplyGap(n: nat, a: nat, b: nat)
    requires a < b
    ensures n * a + n <= n * b
  {
    var d := b - a - 1;
    assert n * b == n * (a + 1 + d) == n * a + n + n * d;
  }
}
