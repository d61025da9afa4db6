/** MD5, SHA-256, SHA-384 and SHA-512: which blocks reach the compression function, and HMAC over any of them. */
module HashPadding {
  import opened Basics
  import opened EbmlInt

  function ZeroBytes(n: nat): (r: seq<byte>)
    ensures |r| == n && forall i: nat | i < n :: r[i] == 0
  {
    seq(n, _ => 0)
  }

  // ---------------------------------------------------------------- the standards

  /** The fewest zero bytes after the 0x80 byte that make the message with its length field whole blocks. */
  function PadLength(n: nat, block: nat, field: nat): (r: nat)
    requires block > 0
    ensures r < block
  {
    (block - (n + 1 + field) % block) % block
  }

  lemma {:induction false} PadFills(n: nat, block: nat, field: nat)
    requires block > 0
    ensures (n + 1 + PadLength(n, block, field) + field) % block == 0
  {
    var m := n + 1 + field;
    var q, r := m / block, m % block;
    assert m == q * block + r;
    if r == 0 {
      SelfMod(block);
    } else {
      SmallMod(block - r, block);
      assert m + (block - r) == (q + 1) * block;
      MultipleMod(q + 1, block);
    }
  }

  lemma {:induction false} SelfMod(d: nat)
    requires d > 0
    ensures d % d == 0
  {
  }

  lemma {:induction false} SmallMod(x: nat, d: nat)
    requires x < d
    ensures x % d == x
  {
  }

  lemma {:induction false} MultipleMod(q: nat, d: nat)
    requires d > 0
    ensures q * d % d == 0
  {
    DivideExact(q * d, d, q);
  }

  /** The padded message: 0x80, zeros, and the length field. */
  function Padded(input: seq<byte>, block: nat, field: seq<byte>): seq<byte>
    requires block > 0
  {
    input + ([0x80] + (ZeroBytes(PadLength(|input|, block, |field|)) + field))
  }

  /** A byte string in blocks; a shorter rest is left out. */
  function Blocks(s: seq<byte>, block: nat): seq<seq<byte>>
    requires block > 0
  {
    if |s| < block then [] else [s[..block]] + Blocks(s[block..], block)
  }

  /** The compression function applied block by block. */
  function Folded<H>(compress: (H, seq<byte>) -> H, hash: H, blocks: seq<seq<byte>>): H
    decreases blocks
  {
    if blocks == [] then hash else Folded(compress, compress(hash, blocks[0]), blocks[1..])
  }

  // ---------------------------------------------------------------- what the code feeds

  /** The one or two blocks made from the rest of the input, of fewer bytes than a block. */
  function TailBlocks(rest: seq<byte>, block: nat, field: seq<byte>): seq<seq<byte>>
    requires |rest| < block && |field| < block
  {
    if |rest| > block - |field| - 1 then
      [rest + [0x80] + ZeroBytes(block - |rest| - 1), ZeroBytes(block - |field|) + field]
    else [rest + [0x80] + ZeroBytes(block - |rest| - 1 - |field|) + field]
  }

  function FedBlocks(input: seq<byte>, block: nat, field: seq<byte>): seq<seq<byte>>
    requires block > 0 && |field| < block
    decreases |input|
  {
    if |input| < block then TailBlocks(input, block, field)
    else [input[..block]] + FedBlocks(input[block..], block, field)
  }

  lemma {:induction false} PadOfRest(n: nat, block: nat, field: nat)
    requires n < block && field < block
    ensures PadLength(n, block, field) == if n > block - field - 1 then 2 * block - n - 1 - field else block - n - 1 - field
  {
    var m := n + 1 + field;
    if m > block {
      assert m == 1 * block + (m - block);
      SmallModOne(m, block);
      SmallMod(2 * block - m, block);
    } else if m == block {
      SelfMod(block);
    } else {
      SmallMod(m, block);
      SmallMod(block - m, block);
    }
  }

  lemma {:induction false} SmallModOne(m: nat, d: nat)
    requires d <= m < 2 * d
    ensures m % d == m - d
  {
    DivideExact(m, d, 1);
  }

  lemma {:induction false} PadOfMore(n: nat, block: nat, field: nat)
    requires n >= block > 0
    ensures PadLength(n, block, field) == PadLength(n - block, block, field)
  {
    AddBlock(n - block + 1 + field, block);
  }

  lemma {:induction false} AddBlock(m: nat, d: nat)
    requires d > 0
    ensures (m + d) % d == m % d
  {
    var q, r := m / d, m % d;
    assert m == q * d + r;
    assert m + d == (q + 1) * d + r;
    DivideExact(m + d, d, q + 1);
  }

  /** The blocks fed are the padded message, block by block, for every input, block and field length: two blocks
      for the rest when the field does not fit behind it. */
  lemma {:induction false} FeedsPadded(input: seq<byte>, block: nat, field: seq<byte>)
    requires block > 0 && |field| < block
    ensures Blocks(Padded(input, block, field), block) == FedBlocks(input, block, field)
    decreases |input|
  {
    hide PadLength;
    var n := |input|;
    if n < block {
      PadOfRest(n, block, |field|);
      TailFeeds(input, block, field);
    } else {
      PadOfMore(n, block, |field|);
      FeedsPadded(input[block..], block, field);
      var s := Padded(input, block, field);
      assert s[..block] == input[..block];
      assert s[block..] == Padded(input[block..], block, field);
    }
  }

  lemma {:induction false} TailFeeds(rest: seq<byte>, block: nat, field: seq<byte>)
    requires |rest| < block && |field| < block
    requires PadLength(|rest|, block, |field|)
             == if |rest| > block - |field| - 1 then 2 * block - |rest| - 1 - |field| else block - |rest| - 1 - |field|
    ensures Blocks(Padded(rest, block, field), block) == TailBlocks(rest, block, field)
  {
    hide PadLength, ZeroBytes;
    var n := |rest|;
    var s := Padded(rest, block, field);
    var zeros := PadLength(n, block, |field|);
    if n > block - |field| - 1 {
      assert ZeroBytes(zeros) == ZeroBytes(block - n - 1) + ZeroBytes(block - |field|);
      var a, b := rest + [0x80] + ZeroBytes(block - n - 1), ZeroBytes(block - |field|) + field;
      assert s == a + b;
      TwoBlocks(a, b, block);
    } else {
      var a := rest + [0x80] + ZeroBytes(zeros) + field;
      assert s == a;
      OneBlock(a, block);
    }
  }

  lemma {:induction false} OneBlock(a: seq<byte>, block: nat)
    requires |a| == block > 0
    ensures Blocks(a, block) == [a]
  {
    assert a[..block] == a && a[block..] == [];
    assert Blocks([], block) == [];
  }

  lemma {:induction false} TwoBlocks(a: seq<byte>, b: seq<byte>, block: nat)
    requires |a| == |b| == block > 0
    ensures Blocks(a + b, block) == [a, b]
  {
    assert (a + b)[..block] == a && (a + b)[block..] == b;
    OneBlock(b, block);
  }

  // ---------------------------------------------------------------- the length fields

  function Reversed(s: seq<byte>): (r: seq<byte>)
    ensures |r| == |s|
  {
    if s == [] then [] else Reversed(s[1..]) + [s[0]]
  }

  /** 64-bit lengths in bits: the low-order byte first for MD5 (section 3.2 of RFC 1321), last for SHA-256
      (section 5.1.1 of FIPS 180-4). */
  function BitLength(n: nat): nat { 8 * n }

  function Sha256Field(n: nat): seq<byte> { Be(8, BitLength(n)) }

  function Md5Field(n: nat): seq<byte> { Reversed(Be(8, BitLength(n))) }

  /** Section 5.1.2 of FIPS 180-4: a 128-bit length. */
  function Sha512Field(n: nat): seq<byte> { Be(16, BitLength(n)) }

  function Length64(n: nat): nat { 8 * n % TWO_TO_THE_64 }

  /** The most significant byte the code writes is bits 54 to 61 of the length. */
  function CodeTop(n: nat): byte { Length64(n) / 0x40_0000_0000_0000 % 256 }

  function CodeSha256Field(n: nat): seq<byte> { [CodeTop(n)] + Be(7, Length64(n)) }

  function CodeMd5Field(n: nat): seq<byte> { Reversed(Be(7, Length64(n))) + [CodeTop(n)] }

  /** The high half is always zero. */
  function CodeSha512Field(n: nat): seq<byte> { ZeroBytes(8) + Be(8, Length64(n)) }

  lemma {:induction false} TopByte(w: nat, x: nat)
    requires w >= 1
    ensures Be(w, x)[0] == x / Pow256(w - 1) % 256 && Be(w, x)[1..] == Be(w - 1, x)
  {
    if w == 1 {
      assert Be(0, x / 256) == [];
      assert x / 1 == x;
    } else {
      TopByte(w - 1, x / 256);
      DivideTwice(x, Pow256(w - 2));
      assert Be(w, x)[1..] == Be(w - 1, x / 256)[1..] + [x % 256];
    }
  }

  lemma {:induction false} DivideTwice(x: nat, d: nat)
    requires d > 0
    ensures x / 256 / d == x / (256 * d)
  {
    var y := x / 256;
    var q, r := y / d, y % d;
    assert y == d * q + r;
    assert x == 256 * y + x % 256;
    assert (256 * d) * q == 256 * (d * q);
    DivideExact(x, 256 * d, q);
  }

  lemma {:induction false} BeWraps(w: nat, x: nat, y: nat)
    requires x % Pow256(w) == y % Pow256(w)
    ensures Be(w, x) == Be(w, y)
  {
    if w > 0 {
      SameDigits(x, y, Pow256(w - 1));
      BeWraps(w - 1, x / 256, y / 256);
    }
  }

  lemma {:induction false} SameDigits(x: nat, y: nat, p: nat)
    requires p > 0 && x % (256 * p) == y % (256 * p)
    ensures x % 256 == y % 256 && x / 256 % p == y / 256 % p
  {
    ModOfMod(x, p);
    ModOfMod(y, p);
  }

  lemma {:induction false} ModOfMod(x: nat, p: nat)
    requires p > 0
    ensures x % 256 == x % (256 * p) % 256 && x / 256 % p == x % (256 * p) / 256
  {
    var q, r := x / (256 * p), x % (256 * p);
    assert x == (256 * p) * q + r;
    assert (256 * p) * q == 256 * (p * q);
    assert x / 256 == p * q + r / 256;
    DivideExact(x / 256, p, q);
  }

  lemma {:induction false} ReversedLast(s: seq<byte>)
    requires s != []
    ensures Reversed(s) == Reversed(s[1..]) + [s[0]]
  {
  }

  /** When the two top bytes agree: always below 2^51 bytes, and otherwise only for these values of the bits above. */
  predicate TopAgrees(n: nat) {
    n / 0x8_0000_0000_0000 % 1024 in {0, 341, 682, 1023}
  }

  /** The length modulo 2^61 decides everything in the 64-bit length. */
  lemma {:induction false} LengthSplit(n: nat) returns (q: nat, r: nat)
    ensures n == 0x2000_0000_0000_0000 * q + r && r < 0x2000_0000_0000_0000
    ensures Length64(n) == 8 * r && BitLength(n) == TWO_TO_THE_64 * q + 8 * r
  {
    q, r := n / 0x2000_0000_0000_0000, n % 0x2000_0000_0000_0000;
    assert BitLength(n) == TWO_TO_THE_64 * q + 8 * r;
  }

  lemma {:induction false} CodeTopIs(n: nat)
    ensures CodeTop(n) as nat == n / 0x8_0000_0000_0000 % 256
  {
    var q, r := LengthSplit(n);
    hide Length64, BitLength;
    assert 8 * r / 0x40_0000_0000_0000 == r / 0x8_0000_0000_0000;
    assert n / 0x8_0000_0000_0000 == 1024 * q + r / 0x8_0000_0000_0000;
  }

  lemma {:induction false} TopAgreesIff(n: nat)
    ensures n / 0x8_0000_0000_0000 % 256 == n / 0x20_0000_0000_0000 % 256 <==> TopAgrees(n)
  {
    var u := n / 0x8_0000_0000_0000;
    assert n / 0x20_0000_0000_0000 == u / 4;
    FourthOf(u);
  }

  lemma {:induction false} FourthOf(u: nat)
    ensures u % 256 == u % 1024 % 256 && u / 4 % 256 == u % 1024 / 4
  {
    var a, t := u / 1024, u % 1024;
    assert u == 256 * (4 * a + t / 256) + t % 256;
    LastByte(4 * a + t / 256, t % 256);
    assert u / 4 == 256 * a + t / 4;
    LastByte(a, t / 4);
  }

  lemma {:induction false} LastByte(q: nat, c: nat)
    requires c < 256
    ensures (256 * q + c) % 256 == c
  {
  }

  lemma {:induction false} Modulo64(q: nat, x: nat)
    ensures (TWO_TO_THE_64 * q + x) % TWO_TO_THE_64 == x % TWO_TO_THE_64
  {
  }

  lemma {:induction false} Modulo56(q: nat, x: nat)
    ensures (0x100_0000_0000_0000 * q + x) % 0x100_0000_0000_0000 == x % 0x100_0000_0000_0000
  {
  }

  lemma {:induction false} Same64(n: nat)
    ensures Be(8, BitLength(n)) == Be(8, Length64(n)) && Be(7, BitLength(n)) == Be(7, Length64(n))
  {
    hide Be, BitLength, Length64, Pow256;
    var q, r := LengthSplit(n);
    Powers();
    Modulo64(q, 8 * r);
    Modulo56(256 * q, 8 * r);
    assert TWO_TO_THE_64 * q == 0x100_0000_0000_0000 * (256 * q);
    BeWraps(8, BitLength(n), Length64(n));
    BeWraps(7, BitLength(n), Length64(n));
  }

  /** The MD5 and SHA-256 length fields are right exactly for these lengths: the byte for bits 56 to 63 holds bits
      54 to 61 instead. */
  lemma {:induction false} FieldsExactIff(n: nat)
    ensures CodeSha256Field(n) == Sha256Field(n) <==> TopAgrees(n)
    ensures CodeMd5Field(n) == Md5Field(n) <==> TopAgrees(n)
    ensures n < 0x8_0000_0000_0000 ==> TopAgrees(n)
  {
    hide Be, Reversed, TopAgrees, CodeTop;
    Same64(n);
    TopByte(8, BitLength(n));
    CodeTopIs(n);
    TopAgreesIff(n);
    ReversedLast(Be(8, BitLength(n)));
    var s := Be(8, BitLength(n));
    assert s == [s[0]] + s[1..];
    LastDiffers(CodeTop(n), s[0], Reversed(s[1..]));
  }

  lemma {:induction false} LastDiffers(a: byte, b: byte, s: seq<byte>)
    ensures s + [a] == s + [b] <==> a == b
  {
    assert (s + [a])[|s|] == a && (s + [b])[|s|] == b;
  }

  /** The SHA-512 length field is right exactly for messages under 2^61 bytes. */
  lemma {:induction false} Sha512ExactIff(n: nat)
    requires BitLength(n) < Pow256(16)
    ensures CodeSha512Field(n) == Sha512Field(n) <==> n < 0x2000_0000_0000_0000
  {
    hide Be, ZeroBytes, Pow256;
    Same64(n);
    HighHalf(8, 8, BitLength(n));
    Powers();
    HighSmall(BitLength(n));
    HighZeroIff(8, Quotient(BitLength(n), Pow256(8)));
    assert BitLength(n) / Pow256(8) == 0 <==> n < 0x2000_0000_0000_0000;
    Halves(ZeroBytes(8), Be(8, Quotient(BitLength(n), Pow256(8))), Be(8, BitLength(n)));
  }

  lemma {:induction false} Halves(a: seq<byte>, b: seq<byte>, c: seq<byte>)
    requires |a| == |b|
    ensures a + c == b + c <==> a == b
  {
    assert (a + c)[..|a|] == a && (b + c)[..|b|] == b;
  }

  lemma {:induction false} HighSmall(x: nat)
    requires x < Pow256(16)
    ensures x / Pow256(8) < Pow256(8)
  {
    Powers();
  }

  function Last(x: nat): byte { x % 256 }

  function Quotient(x: nat, d: nat): (r: nat)
    requires d > 0
    ensures r == x / d
  {
    x / d
  }

  lemma {:induction false} HighHalf(a: nat, b: nat, x: nat)
    ensures Be(a + b, x) == Be(a, Quotient(x, Pow256(b))) + Be(b, x)
    decreases b
  {
    if b == 0 {
      assert x / 1 == x;
      assert Be(a, x) + [] == Be(a, x);
    } else {
      hide *;
      HighHalf(a, b - 1, x / 256);
      DivideTwice(x, Pow256(b - 1));
      Assoc(Be(a, Quotient(x, Pow256(b))), Be(b - 1, x / 256), [Last(x)]);
    }
  }

  lemma {:induction false} HighZeroIff(w: nat, x: nat)
    requires x < Pow256(w)
    ensures Be(w, x) == ZeroBytes(w) <==> x == 0
  {
    if w == 0 {
    } else {
      HighZeroIff(w - 1, x / 256);
      assert ZeroBytes(w) == ZeroBytes(w - 1) + [0];
      var s := Be(w, x);
      assert s[..w - 1] == Be(w - 1, x / 256) && s[w - 1] == x % 256;
      assert ZeroBytes(w)[..w - 1] == ZeroBytes(w - 1) && ZeroBytes(w)[w - 1] == 0;
    }
  }

  /** The field can be read off the blocks: blocks made with different fields differ. */
  lemma {:induction false} FieldShows(input: seq<byte>, block: nat, f: seq<byte>, g: seq<byte>)
    requires |f| == |g| < block
    ensures FedBlocks(input, block, f) == FedBlocks(input, block, g) <==> f == g
    decreases |input|
  {
    hide ZeroBytes;
    if |input| >= block {
      FieldShows(input[block..], block, f, g);
      assert FedBlocks(input, block, f)[1..] == FedBlocks(input[block..], block, f);
      assert FedBlocks(input, block, g)[1..] == FedBlocks(input[block..], block, g);
    } else {
      var a, b := TailBlocks(input, block, f), TailBlocks(input, block, g);
      assert a[|a| - 1][block - |f|..] == f && b[|b| - 1][block - |f|..] == g;
    }
  }

  /** So the blocks that reach the compression functions are the standard's exactly for these message lengths. */
  lemma {:induction false} BlocksExactIff(input: seq<byte>)
    ensures FedBlocks(input, 64, CodeSha256Field(|input|)) == Blocks(Padded(input, 64, Sha256Field(|input|)), 64) <==> TopAgrees(|input|)
    ensures FedBlocks(input, 64, CodeMd5Field(|input|)) == Blocks(Padded(input, 64, Md5Field(|input|)), 64) <==> TopAgrees(|input|)
  {
    hide *;
    FieldsExactIff(|input|);
    FieldLengths(|input|);
    FeedsPadded(input, 64, Sha256Field(|input|));
    FeedsPadded(input, 64, Md5Field(|input|));
    FieldShows(input, 64, CodeSha256Field(|input|), Sha256Field(|input|));
    FieldShows(input, 64, CodeMd5Field(|input|), Md5Field(|input|));
  }

  lemma {:induction false} FieldLengths(n: nat)
    ensures |Sha256Field(n)| == |Md5Field(n)| == |CodeSha256Field(n)| == |CodeMd5Field(n)| == 8
  {
  }

  // ---------------------------------------------------------------- the streaming loop as the code runs it

  /** md5bin, sha256bin and sha512bin up to the output: whole blocks from the input, then the buffer once or twice. */
  method Digest<H>(compress: (H, seq<byte>) -> H, initial: H, input: seq<byte>, block: nat, field: seq<byte>) returns (hash: H)
    requires 0 < |field| < block
    ensures hash == Folded(compress, initial, FedBlocks(input, block, field))
  {
    hash := initial;
    var offset := 0;
    assert input[0..] == input;
    while offset + block <= |input|
      invariant 0 <= offset <= |input|
      invariant Folded(compress, hash, FedBlocks(input[offset..], block, field)) == Folded(compress, initial, FedBlocks(input, block, field))
    {
      ghost var left := input[offset..];
      assert left[..block] == input[offset..offset + block] && left[block..] == input[offset + block..];
      NextBlock(compress, hash, left[..block], FedBlocks(left[block..], block, field));
      hash := compress(hash, input[offset..offset + block]);
      offset := offset + block;
    }
    hash := DigestTail(compress, hash, input[offset..], block, field);
  }

  /** The rest of the input in a buffer of one block, with 0x80 behind it. */
  method Fill(rest: seq<byte>, block: nat) returns (buffer: array<byte>)
    requires |rest| < block
    ensures fresh(buffer) && buffer.Length == block && buffer[..] == rest + [0x80] + ZeroBytes(block - |rest| - 1)
  {
    buffer := new byte[block](i requires 0 <= i < block => if i < |rest| then rest[i] else 0);
    buffer[|rest|] := 0x80;
    Clear(buffer, |rest| + 1);
  }

  /** What is left of the input, in one block or two. */
  method DigestTail<H>(compress: (H, seq<byte>) -> H, before: H, rest: seq<byte>, block: nat, field: seq<byte>) returns (hash: H)
    requires |rest| < block && 0 < |field| < block
    ensures hash == Folded(compress, before, TailBlocks(rest, block, field))
  {
    hide Folded, ZeroBytes, TailBlocks;
    hash := before;
    TailForms(rest, block, field);
    var buffer := Fill(rest, block);
    var offset := |rest|;
    if offset > block - |field| - 1 {
      ghost var last := ZeroBytes(block - |field|) + field;
      NextBlock(compress, hash, buffer[..], [last]);
      hash := compress(hash, buffer[..]);
      Clear(buffer, 0);
      Store(buffer, field);
      assert buffer[..] == last;
      assert [last] + [] == [last];
    } else {
      ghost var kept := buffer[..];
      Store(buffer, field);
      ZerosCut(rest + [0x80], block - |rest| - 1, block - |rest| - 1 - |field|);
    }
    NextBlock(compress, hash, buffer[..], []);
    hash := compress(hash, buffer[..]);
    NoBlocks(compress, hash);
  }

  lemma {:induction false} TailForms(rest: seq<byte>, block: nat, field: seq<byte>)
    requires |rest| < block && |field| < block
    ensures |rest| > block - |field| - 1 ==>
              TailBlocks(rest, block, field) == [rest + [0x80] + ZeroBytes(block - |rest| - 1)] + [ZeroBytes(block - |field|) + field]
    ensures |rest| <= block - |field| - 1 ==>
              TailBlocks(rest, block, field) == [rest + [0x80] + ZeroBytes(block - |rest| - 1 - |field|) + field] + []
  {
  }

  lemma {:induction false} ZerosCut(s: seq<byte>, m: nat, n: nat)
    requires n <= m
    ensures (s + ZeroBytes(m))[..|s| + n] == s + ZeroBytes(n)
  {
  }

  lemma {:induction false} NoBlocks<H>(compress: (H, seq<byte>) -> H, hash: H)
    ensures Folded(compress, hash, []) == hash
  {
  }

  /** The length field into the last bytes of the buffer. */
  method Store(buffer: array<byte>, field: seq<byte>)
    requires |field| <= buffer.Length
    modifies buffer
    ensures buffer[..] == old(buffer[..buffer.Length - |field|]) + field
  {
    var from := buffer.Length - |field|;
    for i := 0 to |field|
      invariant buffer[..from] == old(buffer[..from])
      invariant forall k: nat | k < i :: buffer[from + k] == field[k]
    {
      buffer[from + i] := field[i];
    }
    assert buffer[..] == buffer[..from] + buffer[from..];
    assert buffer[from..] == field;
  }

  /** memset to zero from a position on. */
  method Clear(buffer: array<byte>, from: nat)
    requires from <= buffer.Length
    modifies buffer
    ensures buffer[..] == old(buffer[..from]) + ZeroBytes(buffer.Length - from)
  {
    for i := from to buffer.Length
      invariant buffer[..from] == old(buffer[..from])
      invariant forall k: nat | from <= k < i :: buffer[k] == 0
    {
      buffer[i] := 0;
    }
    assert buffer[..] == buffer[..from] + buffer[from..];
    assert buffer[from..] == ZeroBytes(buffer.Length - from);
  }

  lemma {:induction false} NextBlock<H>(compress: (H, seq<byte>) -> H, hash: H, b: seq<byte>, rest: seq<seq<byte>>)
    ensures Folded(compress, hash, [b] + rest) == Folded(compress, compress(hash, b), rest)
  {
    assert ([b] + rest)[1..] == rest;
  }

  /** The digests: the standard's blocks exactly when the length field is right, and in any case for all messages
      below 2^51 bytes. */
  method Sha256Digest<H>(compress: (H, seq<byte>) -> H, initial: H, input: seq<byte>) returns (hash: H)
    ensures TopAgrees(|input|) ==> hash == Folded(compress, initial, Blocks(Padded(input, 64, Sha256Field(|input|)), 64))
    ensures |input| < 0x8_0000_0000_0000 ==> TopAgrees(|input|)
  {
    hide Folded, Blocks, Padded, FedBlocks, Be;
    hash := Digest(compress, initial, input, 64, CodeSha256Field(|input|));
    FieldsExactIff(|input|);
    FeedsPadded(input, 64, CodeSha256Field(|input|));
  }

  method Md5Digest<H>(compress: (H, seq<byte>) -> H, initial: H, input: seq<byte>) returns (hash: H)
    ensures TopAgrees(|input|) ==> hash == Folded(compress, initial, Blocks(Padded(input, 64, Md5Field(|input|)), 64))
    ensures |input| < 0x8_0000_0000_0000 ==> TopAgrees(|input|)
  {
    hide Folded, Blocks, Padded, FedBlocks, Be, Reversed;
    hash := Digest(compress, initial, input, 64, CodeMd5Field(|input|));
    FieldsExactIff(|input|);
    FeedsPadded(input, 64, CodeMd5Field(|input|));
  }

  method Sha512Digest<H>(compress: (H, seq<byte>) -> H, initial: H, input: seq<byte>) returns (hash: H)
    ensures |input| < 0x2000_0000_0000_0000 ==>
              hash == Folded(compress, initial, Blocks(Padded(input, 128, Sha512Field(|input|)), 128))
  {
    hide Folded, Blocks, Padded, FedBlocks, Be;
    hash := Digest(compress, initial, input, 128, CodeSha512Field(|input|));
    if |input| < 0x2000_0000_0000_0000 {
      Sha512ExactIff(|input|);
    }
    FeedsPadded(input, 128, CodeSha512Field(|input|));
  }
}
