/** Hexadecimal text (section 8 of RFC 4648), as written in lower case and read in either. */
module Hex {
  import opened Basics
  import opened BitstreamBits

  function Digit(n: nat): (r: byte)
    requires n < 16
  {
    if n <= 9 then n + 48 else n + 97 - 10
  }

  /** chr: one byte as two digits. */
  function Chr(b: byte): (r: seq<byte>)
    ensures |r| == 2
  {
    [Digit(b / 16), Digit(b % 16)]
  }

  /** ord: the low four bits, plus 9 when bit 6 is set. Anything is accepted. */
  function Ord(c: byte): (r: nat)
    ensures r <= 24
  {
    c % 16 + if c / 64 % 2 == 1 then 9 else 0
  }

  /** A first digit, moved up and cut to a byte. */
  function High(c: byte): byte { Ord(c) * 16 % 256 }

  function Encoded(s: seq<byte>): (r: seq<byte>)
    ensures |r| == 2 * |s|
  {
    if s == [] then [] else Chr(s[0]) + Encoded(s[1..])
  }

  /** The byte two characters are or-ed into. */
  function Pair(high: byte, low: byte): byte { Or(High(high), Ord(low)) }

  /** decode; None when an odd last character would be written behind the result. */
  function Decoded(s: seq<byte>): Option<seq<byte>> {
    if s == [] then Some([])
    else if |s| == 1 then if High(s[0]) == 0 then Some([]) else None
    else match Decoded(s[2..])
      case None => None
      case Some(rest) => Some([Pair(s[0], s[1])] + rest)
  }

  lemma {:induction false} DigitRead(n: nat)
    requires n < 16
    ensures Ord(Digit(n)) == n
  {
  }

  lemma {:induction false} PairRead(b: byte)
    ensures Pair(Digit(b / 16), Digit(b % 16)) == b
  {
    hide Or;
    DigitRead(b / 16);
    DigitRead(b % 16);
    OrNibbles(b / 16, b % 16);
  }

  lemma {:induction false} OrNibbles(h: byte, l: byte)
    requires h < 16 && l < 16
    ensures Or(h * 16, l) == h * 16 + l
  {
    hide OrFour;
    OrWithZero(h, 0);
    OrWithZero(l, 0);
    assert h * 16 / 16 == h && h * 16 % 16 == 0 && l / 16 == 0 && l % 16 == l;
  }

  lemma {:induction false} OrWithZero(x: nat, zero: nat)
    requires x < 16 && zero == 0
    ensures OrFour(x, zero) == x && OrFour(zero, x) == x
  {
  }

  /** Decoding undoes encoding on every byte string. */
  lemma {:induction false} HexUndone(s: seq<byte>)
    ensures Decoded(Encoded(s)) == Some(s)
  {
    hide Pair, Digit;
    if s != [] {
      HexUndone(s[1..]);
      PairRead(s[0]);
      var e := Chr(s[0]) + Encoded(s[1..]);
      assert e[2..] == Encoded(s[1..]);
      assert [s[0]] + s[1..] == s;
    }
  }

  method Encode(s: seq<byte>) returns (res: seq<byte>)
    ensures res == Encoded(s)
  {
    hide Chr;
    res := [];
    assert s[0..] == s;
    for i := 0 to |s|
      invariant res + Encoded(s[i..]) == Encoded(s)
    {
      assert s[i..][1..] == s[i + 1..];
      Assoc(res, Chr(s[i]), Encoded(s[i + 1..]));
      res := res + Chr(s[i]);
    }
    assert res + [] == res;
  }

  /** The bytes of a text of even length. */
  lemma {:induction false} DecodedAt(s: seq<byte>, k: nat)
    requires 2 * k + 1 < |s| && Decoded(s).Some?
    ensures |Decoded(s).value| == |s| / 2 && Decoded(s).value[k] == Pair(s[2 * k], s[2 * k + 1])
  {
    hide Pair;
    if k > 0 {
      DecodedAt(s[2..], k - 1);
    } else if |s| >= 4 {
      DecodedAt(s[2..], 0);
    }
  }

  lemma {:induction false} DecodedIff(s: seq<byte>)
    ensures Decoded(s).None? <==> |s| % 2 == 1 && High(s[|s| - 1]) != 0
    ensures Decoded(s).Some? ==> |Decoded(s).value| == |s| / 2
  {
    hide Pair;
    if |s| >= 2 {
      DecodedIff(s[2..]);
    }
  }

  /** decode: every character is or-ed into its half of a byte. */
  method Decode(s: seq<byte>) returns (ok: bool, res: seq<byte>)
    ensures ok <==> Decoded(s).Some?
    ensures ok ==> Decoded(s) == Some(res)
  {
    hide Or, Ord, High;
    DecodedIff(s);
    var ret := new byte[|s| / 2](_ => 0);
    for i := 0 to |s|
      invariant i <= 2 * (|s| / 2)
      invariant forall k: nat | 2 * k + 1 < i && k < |s| / 2 :: ret[k] == Pair(s[2 * k], s[2 * k + 1])
      invariant i % 2 == 1 && i / 2 < |s| / 2 ==> ret[i / 2] == Or(0, High(s[i - 1]))
      invariant forall k: nat | i <= 2 * k && k < |s| / 2 :: ret[k] == 0
    {
      var half: byte := if i % 2 == 0 then High(s[i]) else Ord(s[i]);
      if i / 2 == |s| / 2 {
        ok, res := half == 0, ret[..];
        if ok {
          Pointwise(s, res);
        }
        return;
      }
      if i % 2 == 1 {
        OrZero(High(s[i - 1]));
      }
      ret[i / 2] := Or(ret[i / 2], half);
    }
    ok, res := true, ret[..];
    Pointwise(s, res);
  }

  lemma {:induction false} OrZero(b: byte)
    ensures Or(0, b) == b
  {
    hide OrFour;
    OrWithZero(b / 16, 0);
    OrWithZero(b % 16, 0);
  }

  lemma {:induction false} Pointwise(s: seq<byte>, res: seq<byte>)
    requires Decoded(s).Some? && |res| == |s| / 2
    requires forall k: nat | k < |res| :: res[k] == Pair(s[2 * k], s[2 * k + 1])
    ensures Decoded(s) == Some(res)
  {
    hide Pair, Decoded;
    DecodedIff(s);
    forall k: nat | k < |res|
      ensures res[k] == Decoded(s).value[k]
    {
      DecodedAt(s, k);
    }
    assert res == Decoded(s).value;
  }
}
