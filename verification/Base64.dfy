/** Base64 in the standard and the URL alphabet (sections 4 and 5 of RFC 4648). */
module Base64 {
  import opened Basics

  const PAD: byte := 61

  /** The character of a 6-bit value. */
  function Letter(v: nat, url: bool): byte
    requires v < 64
  {
    if v < 26 then v + 65
    else if v < 52 then v - 26 + 97
    else if v < 62 then v - 52 + 48
    else if v == 62 then (if url then 45 else 43)
    else if url then 95 else 47
  }

  /** b64CharVal: 64 for characters of neither alphabet. */
  function LetterValue(c: byte): (r: nat)
    ensures r <= 64
  {
    if 65 <= c <= 90 then c - 65
    else if 97 <= c <= 122 then c - 97 + 26
    else if 48 <= c <= 57 then c - 48 + 52
    else if c == 43 || c == 45 then 62
    else if c == 47 || c == 95 then 63
    else 64
  }

  lemma {:induction false} LetterRead(v: nat, url: bool)
    requires v < 64
    ensures LetterValue(Letter(v, url)) == v && Letter(v, url) != PAD
  {
  }

  // ---------------------------------------------------------------- encoding

  /** Four 6-bit values from three bytes. */
  function Sextets(a: nat, b: nat, c: nat): (r: seq<nat>)
    requires a < 256 && b < 256 && c < 256
    ensures |r| == 4 && forall k: nat | k < 4 :: r[k] < 64
  {
    [a / 4, a % 4 * 16 + b / 16, b % 16 * 4 + c / 64, c % 64]
  }

  function Quad(a: byte, b: byte, c: byte, n: nat, url: bool): (r: seq<byte>)
    requires 1 <= n <= 3
    ensures |r| == 4
  {
    var s := Sextets(a, b, c);
    [Letter(s[0], url), Letter(s[1], url), if n < 2 then PAD else Letter(s[2], url), if n < 3 then PAD else Letter(s[3], url)]
  }

  function At0(s: seq<byte>, i: nat): byte { if i < |s| then s[i] else 0 }

  function Quads(s: seq<byte>, url: bool): seq<byte> {
    if s == [] then []
    else if |s| <= 3 then Quad(s[0], At0(s, 1), At0(s, 2), |s|, url)
    else Quad(s[0], s[1], s[2], 3, url) + Quads(s[3..], url)
  }

  /** Without the padding at the end. */
  function Stripped(s: seq<byte>): seq<byte> {
    if s != [] && s[|s| - 1] == PAD then Stripped(s[..|s| - 1]) else s
  }

  function Encoded(s: seq<byte>, url: bool): seq<byte> { if url then Stripped(Quads(s, true)) else Quads(s, false) }

  // ---------------------------------------------------------------- decoding

  /** Three bytes from four values, of which a missing one counts as 64. */
  function Triple(v: seq<nat>): (r: seq<byte>)
    requires |v| == 4
    ensures |r| == 3
  {
    [(v[0] * 4 + v[1] / 16 % 4) % 256, (v[1] % 16 * 16 + v[2] / 4 % 16) % 256, (v[2] % 4 * 64 + v[3]) % 256]
  }

  predicate Stops(c: byte) { c == PAD || LetterValue(c) == 64 }

  /** The values of an unfinished group: one byte fewer than values. */
  function Flushed(group: seq<nat>): seq<byte>
    requires |group| < 4
  {
    if group == [] then [] else Triple(group + seq(4 - |group|, _ => 64))[..|group| - 1]
  }

  /** The rest of the text, given the values of the group begun. */
  function DecodedWith(s: seq<byte>, group: seq<nat>): seq<byte>
    requires |group| < 4
    decreases s
  {
    if s == [] || Stops(s[0]) then Flushed(group)
    else
      var g := group + [LetterValue(s[0])];
      if |g| == 4 then Triple(g) + DecodedWith(s[1..], []) else DecodedWith(s[1..], g)
  }

  function Decoded(s: seq<byte>): seq<byte> { DecodedWith(s, []) }

  // ---------------------------------------------------------------- decoding undoes encoding

  lemma {:induction false} TripleUndone(a: byte, b: byte, c: byte)
    ensures Triple(Sextets(a, b, c)) == [a, b, c]
  {
    hide Triple, Sextets;
    SextetsAre(a, b, c);
    FirstBack(a, b);
    SecondBack(a, b, c);
    ThirdBack(b, c);
    TripleIs(Sextets(a, b, c), a, b, c);
  }

  lemma {:induction false} SextetsAre(a: byte, b: byte, c: byte)
    ensures var s := Sextets(a, b, c);
            s[0] == a / 4 && s[1] == a as nat % 4 * 16 + b as nat / 16 && s[2] == b as nat % 16 * 4 + c as nat / 64 && s[3] == c % 64
  {
  }

  lemma {:induction false} TripleIs(v: seq<nat>, a: byte, b: byte, c: byte)
    requires |v| == 4 && (v[0] * 4 + v[1] / 16 % 4) % 256 == a && (v[1] % 16 * 16 + v[2] / 4 % 16) % 256 == b
    requires (v[2] % 4 * 64 + v[3]) % 256 == c
    ensures Triple(v) == [a, b, c]
  {
  }

  lemma {:induction false} FirstBack(a: nat, b: nat)
    requires a < 256 && b < 256
    ensures (a / 4 * 4 + (a % 4 * 16 + b / 16) / 16 % 4) % 256 == a
  {
    LowParts(a, b, 0);
  }

  lemma {:induction false} SecondBack(a: nat, b: nat, c: nat)
    requires a < 256 && b < 256 && c < 256
    ensures ((a % 4 * 16 + b / 16) % 16 * 16 + (b % 16 * 4 + c / 64) / 4 % 16) % 256 == b
  {
    LowParts(a, b, c);
  }

  lemma {:induction false} ThirdBack(b: nat, c: nat)
    requires b < 256 && c < 256
    ensures ((b % 16 * 4 + c / 64) % 4 * 64 + c % 64) % 256 == c
  {
    LowParts(0, b, c);
  }

  lemma {:induction false} LowParts(a: nat, b: nat, c: nat)
    requires a < 256 && b < 256 && c < 256
    ensures (a % 4 * 16 + b / 16) % 16 == b / 16 && (b % 16 * 4 + c / 64) % 4 == c / 64
    ensures (a % 4 * 16 + b / 16) / 16 % 4 == a % 4 && (b % 16 * 4 + c / 64) / 4 % 16 == b % 16
  {
    assert (a % 4 * 16 + b / 16) / 16 == a % 4;
    assert (b % 16 * 4 + c / 64) / 4 == b % 16;
  }

  /** One letter of a group that is not complete with it. */
  lemma {:induction false} LetterTaken(v: nat, url: bool, rest: seq<byte>, group: seq<nat>)
    requires v < 64 && |group| < 3
    ensures DecodedWith([Letter(v, url)] + rest, group) == DecodedWith(rest, group + [v])
  {
    hide Letter, Triple, Flushed;
    LetterRead(v, url);
    assert ([Letter(v, url)] + rest)[1..] == rest;
  }

  lemma {:induction false} GroupDone(v: nat, url: bool, rest: seq<byte>, group: seq<nat>)
    requires v < 64 && |group| == 3
    ensures DecodedWith([Letter(v, url)] + rest, group) == Triple(group + [v]) + DecodedWith(rest, [])
  {
    hide Letter, Triple, Flushed;
    LetterRead(v, url);
    assert ([Letter(v, url)] + rest)[1..] == rest;
  }

  lemma {:induction false} WholeGroup(a: byte, b: byte, c: byte, url: bool, rest: seq<byte>)
    ensures DecodedWith(Quad(a, b, c, 3, url) + rest, []) == [a, b, c] + DecodedWith(rest, [])
  {
    hide DecodedWith, Letter, Triple;
    var s := Sextets(a, b, c);
    var t3 := [Letter(s[3], url)] + rest;
    var t2 := [Letter(s[2], url)] + t3;
    var t1 := [Letter(s[1], url)] + t2;
    assert Quad(a, b, c, 3, url) + rest == [Letter(s[0], url)] + t1;
    LetterTaken(s[0], url, t1, []);
    LetterTaken(s[1], url, t2, [] + [s[0]]);
    LetterTaken(s[2], url, t3, [] + [s[0]] + [s[1]]);
    GroupDone(s[3], url, rest, [] + [s[0]] + [s[1]] + [s[2]]);
    assert [] + [s[0]] + [s[1]] + [s[2]] + [s[3]] == s;
    TripleUndone(a, b, c);
  }

  /** The last one or two bytes, with or without padding. */
  lemma {:induction false} LastTwo(a: byte, b: byte, url: bool, rest: seq<byte>)
    requires rest == [] || rest[0] == PAD
    ensures DecodedWith([Letter(Sextets(a, b, 0)[0], url), Letter(Sextets(a, b, 0)[1], url), Letter(Sextets(a, b, 0)[2], url)] + rest, [])
            == [a, b]
  {
    hide DecodedWith, Letter;
    var s := Sextets(a, b, 0);
    var t2 := [Letter(s[2], url)] + rest;
    var t1 := [Letter(s[1], url)] + t2;
    assert [Letter(s[0], url), Letter(s[1], url), Letter(s[2], url)] + rest == [Letter(s[0], url)] + t1;
    LetterTaken(s[0], url, t1, []);
    LetterTaken(s[1], url, t2, [] + [s[0]]);
    LetterTaken(s[2], url, rest, [] + [s[0]] + [s[1]]);
    EndReached(rest, [] + [s[0]] + [s[1]] + [s[2]]);
    FlushTwo(a, b);
    assert [] + [s[0]] + [s[1]] + [s[2]] == [s[0], s[1], s[2]];
  }

  lemma {:induction false} LastOne(a: byte, url: bool, rest: seq<byte>)
    requires rest == [] || rest[0] == PAD
    ensures DecodedWith([Letter(Sextets(a, 0, 0)[0], url), Letter(Sextets(a, 0, 0)[1], url)] + rest, []) == [a]
  {
    hide DecodedWith, Letter;
    var s := Sextets(a, 0, 0);
    var t1 := [Letter(s[1], url)] + rest;
    assert [Letter(s[0], url), Letter(s[1], url)] + rest == [Letter(s[0], url)] + t1;
    LetterTaken(s[0], url, t1, []);
    LetterTaken(s[1], url, rest, [] + [s[0]]);
    EndReached(rest, [] + [s[0]] + [s[1]]);
    assert [] + [s[0]] + [s[1]] == [s[0], s[1]];
  }

  lemma {:induction false} EndReached(rest: seq<byte>, group: seq<nat>)
    requires |group| < 4 && (rest == [] || rest[0] == PAD)
    ensures DecodedWith(rest, group) == Flushed(group)
  {
  }

  /** The first two bytes depend on the first three values only. */
  lemma {:induction false} FirstTwo(a: byte, b: byte, v: seq<nat>)
    requires |v| == 4 && v[0] == a / 4 && v[1] == a as nat % 4 * 16 + b as nat / 16 && v[2] == b as nat % 16 * 4
    ensures Triple(v)[0] == a && Triple(v)[1] == b
  {
    LowParts(a, b, 0);
  }

  lemma {:induction false} FlushedIs(group: seq<nat>, v: seq<nat>)
    requires 0 < |group| < 4 && |v| == 4 && v == group + seq(4 - |group|, _ => 64)
    ensures Flushed(group) == Triple(v)[..|group| - 1]
  {
    hide Triple;
  }

  lemma {:induction false} FlushTwo(a: byte, b: byte)
    ensures Flushed([Sextets(a, b, 0)[0], Sextets(a, b, 0)[1], Sextets(a, b, 0)[2]]) == [a, b]
  {
    hide Triple, Flushed;
    var s := Sextets(a, b, 0);
    var v := [s[0], s[1], s[2], 64];
    FlushedIs([s[0], s[1], s[2]], v);
    FirstTwo(a, b, v);
  }

  lemma {:induction false} QuadsUndone(s: seq<byte>, url: bool)
    ensures Decoded(Quads(s, url)) == s
  {
    hide DecodedWith, Letter, Sextets;
    if s == [] {
      EndReached([], []);
    } else if |s| == 1 {
      LastOne(s[0], url, [PAD, PAD]);
      assert Quads(s, url) == [Letter(Sextets(s[0], 0, 0)[0], url), Letter(Sextets(s[0], 0, 0)[1], url)] + [PAD, PAD];
    } else if |s| == 2 {
      LastTwo(s[0], s[1], url, [PAD]);
      var x := Sextets(s[0], s[1], 0);
      assert Quads(s, url) == [Letter(x[0], url), Letter(x[1], url), Letter(x[2], url)] + [PAD];
    } else {
      WholeGroup(s[0], s[1], s[2], url, if |s| == 3 then [] else Quads(s[3..], url));
      if |s| == 3 {
        assert Quads(s, url) == Quad(s[0], s[1], s[2], 3, url) + [];
        EndReached([], []);
      } else {
        QuadsUndone(s[3..], url);
        assert [s[0], s[1], s[2]] + s[3..] == s;
      }
    }
  }

  // Stripping only takes padding away, and decoding stops at padding anyway.

  lemma {:induction false} PadIgnored(s: seq<byte>, group: seq<nat>)
    requires |group| < 4
    ensures DecodedWith(s + [PAD], group) == DecodedWith(s, group)
    decreases s
  {
    hide Triple, Flushed;
    if s == [] {
      assert [] + [PAD] == [PAD];
    } else if !Stops(s[0]) {
      assert (s + [PAD])[1..] == s[1..] + [PAD];
      var g := group + [LetterValue(s[0])];
      PadIgnored(s[1..], if |g| == 4 then [] else g);
    }
  }

  lemma {:induction false} StrippedDecodes(s: seq<byte>)
    ensures Decoded(Stripped(s)) == Decoded(s)
  {
    hide DecodedWith;
    if s != [] && s[|s| - 1] == PAD {
      StrippedDecodes(s[..|s| - 1]);
      PadIgnored(s[..|s| - 1], []);
      assert s == s[..|s| - 1] + [PAD];
    }
  }

  /** Decoding undoes encoding on every byte string, in both alphabets, and without the padding as well. */
  lemma {:induction false} Base64Undone(s: seq<byte>, url: bool)
    ensures Decoded(Encoded(s, url)) == s && Decoded(Stripped(Encoded(s, url))) == s
  {
    hide Quads, DecodedWith, Stripped;
    QuadsUndone(s, url);
    StrippedDecodes(Quads(s, url));
    StrippedDecodes(Encoded(s, url));
  }

  // ---------------------------------------------------------------- as the code runs it

  method Encode(input: seq<byte>, isBase64URL: bool) returns (ret: seq<byte>)
    ensures ret == Encoded(input, isBase64URL)
  {
    hide Quad;
    ret := [];
    var n: nat := 3;
    var x: nat := 0;
    assert input[0..] == input;
    while x < |input|
      invariant n == 3 || x >= |input|
      invariant ret + (if x < |input| then Quads(input[x..], isBase64URL) else []) == Quads(input, isBase64URL)
      decreases |input| - x
    {
      if (|input| - x) / 3 == 0 {
        n := (|input| - x) % 3;
      }
      var triple := [0, 0, 0];
      for i := 0 to n
        invariant |triple| == 3 && forall k: nat | k < 3 :: triple[k] == if k < i then input[x + k] else 0
      {
        triple := triple[i := input[x + i]];
      }
      var quad := Quad(triple[0], triple[1], triple[2], n, isBase64URL);
      Assoc(ret, quad, if x + 3 < |input| then Quads(input[x + 3..], isBase64URL) else []);
      ret := ret + quad;
      x := x + 3;
    }
    assert ret + [] == ret;
    if isBase64URL {
      ret := Strip(ret);
    }
  }

  /** erase behind the last character that is not padding. */
  method Strip(s: seq<byte>) returns (r: seq<byte>)
    ensures r == Stripped(s)
  {
    var n := |s|;
    assert s[..n] == s;
    while n > 0 && s[n - 1] == PAD
      invariant 0 <= n <= |s| && Stripped(s[..n]) == Stripped(s)
    {
      assert s[..n][..n - 1] == s[..n - 1];
      n := n - 1;
    }
    r := s[..n];
  }

  method Decode(s: seq<byte>) returns (ret: seq<byte>)
    ensures ret == Decoded(s)
  {
    hide Triple, Flushed, Stops, LetterValue;
    ret := [];
    var group: seq<nat> := [];
    var at := 0;
    assert s[0..] == s;
    while at < |s| && !Stops(s[at])
      invariant 0 <= at <= |s| && |group| < 4
      invariant ret + DecodedWith(s[at..], group) == Decoded(s)
    {
      ghost var was := ret;
      assert s[at..][1..] == s[at + 1..];
      group := group + [LetterValue(s[at])];
      at := at + 1;
      if |group| == 4 {
        Assoc(was, Triple(group), DecodedWith(s[at..], []));
        ret := ret + Triple(group);
        group := [];
      }
    }
    ret := ret + Flushed(group);
  }
}
