/** Keyed hashing over any hash function with a fixed output size (section 2 of RFC 2104). */
module Hmac {
  import opened Basics
  import opened BitstreamBits
  import opened HashPadding

  /** Exclusive or of two numbers below 16. */
  function XorFour(a: nat, b: nat): (r: nat)
    ensures r < 16
  {
    var x, y := FourBits(a), FourBits(b);
    (if x[0] != y[0] then 8 else 0) + (if x[1] != y[1] then 4 else 0) + (if x[2] != y[2] then 2 else 0) + (if x[3] != y[3] then 1 else 0)
  }

  /** The bitwise exclusive or of two bytes. */
  function Xor(a: byte, b: byte): byte {
    16 * XorFour(a / 16, b / 16) + XorFour(a % 16, b % 16)
  }

  function XorAll(s: seq<byte>, pad: byte): (r: seq<byte>)
    ensures |r| == |s| && forall i: nat | i < |s| :: r[i] == Xor(s[i], pad)
  {
    seq(|s|, i requires 0 <= i < |s| => Xor(s[i], pad))
  }

  ghost predicate HashesTo(hasher: seq<byte> -> seq<byte>, hashSize: nat) {
    forall s: seq<byte> :: |hasher(s)| == hashSize
  }

  /** Keys longer than a block are hashed first; all are filled up with zeros to a block. */
  function BlockKey(hasher: seq<byte> -> seq<byte>, key: seq<byte>, block: nat): seq<byte> {
    var k := if |key| > block then hasher(key) else key;
    if |k| <= block then k + ZeroBytes(block - |k|) else k
  }

  const IPAD: byte := 0x36
  const OPAD: byte := 0x5C

  /** H(K xor opad, H(K xor ipad, text)) */
  function HmacOf(hasher: seq<byte> -> seq<byte>, key: seq<byte>, block: nat, msg: seq<byte>): seq<byte> {
    var k := BlockKey(hasher, key, block);
    hasher(XorAll(k, OPAD) + hasher(XorAll(k, IPAD) + msg))
  }

  /** A key longer than a block and its hash are the same key. */
  lemma {:induction false} LongKeyIsItsHash(hasher: seq<byte> -> seq<byte>, hashSize: nat, key: seq<byte>,
                                            block: nat, msg: seq<byte>)
    requires HashesTo(hasher, hashSize) && hashSize <= block < |key|
    ensures HmacOf(hasher, key, block, msg) == HmacOf(hasher, hasher(key), block, msg)
  {
    assert BlockKey(hasher, key, block) == BlockKey(hasher, hasher(key), block);
  }

  /** Zero bytes at the end of a key do not matter while it fits a block. */
  lemma {:induction false} ZerosDoNotMatter(hasher: seq<byte> -> seq<byte>, key: seq<byte>, zeros: nat, block: nat,
                                            msg: seq<byte>)
    requires |key| + zeros <= block
    ensures HmacOf(hasher, key + ZeroBytes(zeros), block, msg) == HmacOf(hasher, key, block, msg)
  {
    hide ZeroBytes;
    assert ZeroBytes(block - |key|) == ZeroBytes(zeros) + ZeroBytes(block - |key| - zeros);
    assert key + ZeroBytes(zeros) + ZeroBytes(block - |key| - zeros) == key + ZeroBytes(block - |key|);
    assert BlockKey(hasher, key + ZeroBytes(zeros), block) == BlockKey(hasher, key, block);
  }

  /** hmacbin: the key block is xor-ed into both buffers, the inner hash lands behind the outer one. */
  method HmacBin(msg: seq<byte>, key: seq<byte>, hashSize: nat, hasher: seq<byte> -> seq<byte>, blockSize: nat) returns (output: seq<byte>)
    requires HashesTo(hasher, hashSize) && hashSize <= blockSize
    ensures output == HmacOf(hasher, key, blockSize, msg)
  {
    var k := if |key| > blockSize then hasher(key) else key;
    var keyData := new byte[blockSize](i requires 0 <= i < blockSize => if i < |k| then k[i] else 0);
    Clear(keyData, |k|);
    ghost var kb := BlockKey(hasher, key, blockSize);
    assert keyData[..] == kb;
    var inner := new byte[blockSize + |msg|](_ => 0);
    var outer := new byte[blockSize + hashSize](_ => 0);
    hide BlockKey, XorAll, ZeroBytes;
    Pad(keyData, inner, outer);
    Place(inner, blockSize, msg);
    var innerHash := hasher(inner[..]);
    Place(outer, blockSize, innerHash);
    output := hasher(outer[..]);
  }

  /** The key block xor-ed with the two pads, into the starts of the two buffers. */
  method Pad(keyData: array<byte>, inner: array<byte>, outer: array<byte>)
    requires inner.Length >= keyData.Length && outer.Length >= keyData.Length
    requires keyData != inner && keyData != outer && inner != outer
    modifies inner, outer
    ensures inner[..keyData.Length] == XorAll(keyData[..], IPAD) && outer[..keyData.Length] == XorAll(keyData[..], OPAD)
  {
    hide Xor;
    ghost var kb := keyData[..];
    for i := 0 to keyData.Length
      invariant keyData[..] == kb
      invariant forall j: nat | j < i :: inner[j] == Xor(kb[j], IPAD) && outer[j] == Xor(kb[j], OPAD)
    {
      inner[i] := Xor(keyData[i], 0x36);
      outer[i] := Xor(keyData[i], 0x5C);
    }
    assert inner[..keyData.Length] == XorAll(kb, IPAD);
    assert outer[..keyData.Length] == XorAll(kb, OPAD);
  }

  /** memcpy behind the first `from` bytes, up to the end. */
  method Place(a: array<byte>, from: nat, s: seq<byte>)
    requires a.Length == from + |s|
    modifies a
    ensures a[..] == old(a[..from]) + s
  {
    for i := 0 to |s|
      invariant a[..from] == old(a[..from])
      invariant forall k: nat | k < i :: a[from + k] == s[k]
    {
      a[from + i] := s[i];
    }
    assert a[..] == a[..from] + a[from..];
    assert a[from..] == s;
  }
}
