/** The text encodings in characters: alphabets, escapes, and what is read of text nobody encoded. */
module TextRules {
  import opened Basics
  import opened BitstreamBits
  import B = Base64
  import H = Hex
  import U = Url

  // ---------------------------------------------------------------- base64

  const UPPER: string := "ABCDEFGHIJKLMNOPQRSTUVWXYZ"
  const LOWER: string := "abcdefghijklmnopqrstuvwxyz"
  const DIGITS: string := "0123456789"

  lemma {:induction false} InOrder(k: nat)
    ensures |UPPER| == |LOWER| == 26 && |DIGITS| == 10
    ensures k < 26 ==> UPPER[k] as int == 'A' as int + k && LOWER[k] as int == 'a' as int + k
    ensures k < 10 ==> DIGITS[k] as int == '0' as int + k
  {
    UpperInOrder(k);
    LowerInOrder(k);
  }

  lemma {:induction false} UpperInOrder(k: nat)
    ensures |UPPER| == 26 && (k < 26 ==> UPPER[k] as int == 'A' as int + k)
  {
  }

  lemma {:induction false} LowerInOrder(k: nat)
    ensures |LOWER| == 26 && (k < 26 ==> LOWER[k] as int == 'a' as int + k)
  {
  }

  /** The characters of the two alphabets in order: capital letters, small letters, digits, and the last two. */
  lemma {:induction false} LettersAre(v: nat, url: bool)
    requires v < 64
    ensures var alphabet := UPPER + LOWER + DIGITS + if url then "-_" else "+/";
            |alphabet| == 64 && B.Letter(v, url) == alphabet[v] as int
  {
    InOrder(if v < 26 then v else if v < 52 then v - 26 else v - 52);
  }

  /** A character is read as v exactly when it is letter v of one of the alphabets; '=' and all others end the text. */
  lemma {:induction false} LetterReadIff(c: byte, v: nat)
    requires v < 64
    ensures B.LetterValue(c) == v <==> c == B.Letter(v, false) || c == B.Letter(v, true)
    ensures B.Stops(c) <==> forall w :: 0 <= w < 64 ==> c != B.Letter(w, false) && c != B.Letter(w, true)
    ensures B.Stops('=' as int)
  {
    var w := B.LetterValue(c);
    if w < 64 {
      assert c == B.Letter(w, false) || c == B.Letter(w, true);
    }
  }

  /** The four values of three bytes, and the three bytes of four values, are the same 24 bits. */
  lemma {:induction false} SameBits(a: byte, b: byte, c: byte, v: seq<nat>)
    requires |v| == 4 && v[0] < 64 && v[1] < 64 && v[2] < 64 && v[3] < 64
    ensures var s := B.Sextets(a, b, c);
            ((s[0] * 64 + s[1]) * 64 + s[2]) * 64 + s[3] == (a * 256 + b) * 256 + c
    ensures var t := B.Triple(v);
            (t[0] as nat * 256 + t[1] as nat) * 256 + t[2] as nat == ((v[0] * 64 + v[1]) * 64 + v[2]) * 64 + v[3]
  {
    var t := B.Triple(v);
    assert t[0] == v[0] * 4 + v[1] / 16;
    assert t[1] == v[1] % 16 * 16 + v[2] / 4;
    assert t[2] == v[2] % 4 * 64 + v[3];
  }

  /** Of an unfinished group only whole bytes are kept: none of one letter, the first 8 of 12 bits, 16 of 18. */
  lemma {:induction false} Unfinished(x: nat, y: nat, z: nat)
    requires x < 64 && y < 64 && z < 64
    ensures B.Flushed([x]) == []
    ensures B.Flushed([x, y]) == [(x * 64 + y) / 16]
    ensures B.Flushed([x, y, z]) == [((x * 64 + y) * 64 + z) / 4 / 256, ((x * 64 + y) * 64 + z) / 4 % 256]
  {
    B.FlushedIs([x, y], [x, y, 64, 64]);
    B.FlushedIs([x, y, z], [x, y, z, 64]);
    FlushedParts(x, y, z);
  }

  lemma {:induction false} FlushedParts(x: nat, y: nat, z: nat)
    requires x < 64 && y < 64 && z < 64
    ensures (x * 4 + y / 16 % 4) % 256 == (x * 64 + y) / 16 == ((x * 64 + y) * 64 + z) / 4 / 256
    ensures (y % 16 * 16 + z / 4 % 16) % 256 == ((x * 64 + y) * 64 + z) / 4 % 256
  {
    HighPart(x, y);
    SixteenBits(x, y, z);
    LowPart(y, z);
    TwoParts(4 * x + y / 16, y % 16 * 16 + z / 4);
  }

  lemma {:induction false} HighPart(x: nat, y: nat)
    requires x < 64 && y < 64
    ensures (x * 4 + y / 16 % 4) % 256 == (x * 64 + y) / 16 == 4 * x + y / 16
  {
    assert y == 16 * (y / 16) + y % 16;
  }

  lemma {:induction false} LowPart(y: nat, z: nat)
    requires y < 64 && z < 64
    ensures (y % 16 * 16 + z / 4 % 16) % 256 == y % 16 * 16 + z / 4 < 256
  {
  }

  lemma {:induction false} SixteenBits(x: nat, y: nat, z: nat)
    ensures ((x * 64 + y) * 64 + z) / 4 == 256 * (4 * x + y / 16) + (y % 16 * 16 + z / 4)
  {
    assert ((x * 64 + y) * 64 + z) / 4 == (x * 64 + y) * 16 + z / 4;
    assert y == 16 * (y / 16) + y % 16;
  }

  lemma {:induction false} TwoParts(a: nat, b: nat)
    requires b < 256
    ensures (256 * a + b) / 256 == a && (256 * a + b) % 256 == b
  {
  }

  /** Nothing behind the first character that ends the text matters. */
  lemma {:induction false} EndsThere(s: seq<byte>, c: byte, rest: seq<byte>, group: seq<nat>)
    requires B.Stops(c) && |group| < 4
    ensures B.DecodedWith(s + [c] + rest, group) == B.DecodedWith(s, group)
    decreases s
  {
    hide B.Triple, B.Flushed, B.Stops;
    var t := s + [c] + rest;
    if s == [] {
      assert t[0] == c;
    } else if !B.Stops(s[0]) {
      assert t[1..] == s[1..] + [c] + rest;
      var g := group + [B.LetterValue(s[0])];
      EndsThere(s[1..], c, rest, if |g| == 4 then [] else g);
    }
  }

  /** "f", "fo", "foo" and "foob" of section 10 of RFC 4648. */
  lemma {:induction false} Examples()
    ensures B.Encoded([], false) == [] && B.Encoded([102], false) == [90, 103, 61, 61]
    ensures B.Encoded([102, 111], false) == [90, 109, 56, 61] && B.Encoded([102, 111, 111], false) == [90, 109, 57, 118]
    ensures B.Encoded([102, 111, 111, 98], false) == [90, 109, 57, 118] + [89, 103, 61, 61]
  {
    QuadF();
    QuadFo();
    QuadFoo();
    hide B.Quad;
    assert [102, 111, 111, 98][3..] == [98];
  }

  /** The last two letters of either alphabet, and the padding that the URL form leaves out. */
  lemma {:induction false} UrlExamples()
    ensures B.Encoded([0xFB, 0xFF], false) == [43, 47, 56, 61] && B.Encoded([0xFB, 0xFF], true) == [45, 95, 56]
    ensures B.Encoded([0xFB], false) == [43, 119, 61, 61] && B.Encoded([0xFB], true) == [45, 119]
  {
    QuadLast(false);
    QuadLast(true);
    hide B.Quad, B.Stripped;
    assert B.Quads([0xFB, 0xFF], true) == [45, 95, 56] + [61];
    StripOne([45, 95, 56]);
    Unstripped([45, 95, 56]);
    assert B.Quads([0xFB], true) == [45, 119, 61] + [61];
    StripOne([45, 119, 61]);
    assert [45, 119, 61] == [45, 119] + [61];
    StripOne([45, 119]);
    Unstripped([45, 119]);
  }

  lemma {:induction false} QuadLast(url: bool)
    ensures B.Quad(0xFB, 0xFF, 0, 2, url) == [if url then 45 else 43, if url then 95 else 47, 56, 61]
    ensures B.Quad(0xFB, 0, 0, 1, url) == [if url then 45 else 43, 119, 61, 61]
  {
    SextetsTwo();
    SextetsOne();
    hide B.Sextets;
  }

  lemma {:induction false} SextetsTwo()
    ensures B.Sextets(0xFB, 0xFF, 0) == [62, 63, 60, 0]
  {
  }

  lemma {:induction false} SextetsOne()
    ensures B.Sextets(0xFB, 0, 0) == [62, 48, 0, 0]
  {
  }

  lemma {:induction false} Unstripped(s: seq<byte>)
    requires s != [] && s[|s| - 1] != 61
    ensures B.Stripped(s) == s
  {
  }

  lemma {:induction false} QuadF()
    ensures B.Quad(102, 0, 0, 1, false) == [90, 103, 61, 61] && B.Quad(98, 0, 0, 1, false) == [89, 103, 61, 61]
  {
    SextetsF();
    SextetsB();
    hide B.Sextets;
  }

  lemma {:induction false} SextetsF()
    ensures B.Sextets(102, 0, 0) == [25, 32, 0, 0]
  {
  }

  lemma {:induction false} SextetsB()
    ensures B.Sextets(98, 0, 0) == [24, 32, 0, 0]
  {
  }

  lemma {:induction false} QuadFo()
    ensures B.Quad(102, 111, 0, 2, false) == [90, 109, 56, 61]
  {
    assert B.Sextets(102, 111, 0) == [25, 38, 60, 0];
    hide B.Sextets;
  }

  lemma {:induction false} QuadFoo()
    ensures B.Quad(102, 111, 111, 3, false) == [90, 109, 57, 118]
  {
    assert B.Sextets(102, 111, 111) == [25, 38, 61, 47];
    hide B.Sextets;
  }

  lemma {:induction false} StripOne(s: seq<byte>)
    ensures B.Stripped(s + [61]) == B.Stripped(s)
  {
    assert (s + [61])[..|s|] == s;
  }

  // ---------------------------------------------------------------- hexadecimal

  const HEX_DIGITS: string := "0123456789abcdef"
  const UPPER_DIGITS: string := "0123456789ABCDEF"

  /** Bytes are written with these digits, the high one first, and read with digits of either case. */
  lemma {:induction false} HexDigits(n: nat)
    requires n < 16
    ensures H.Digit(n) == HEX_DIGITS[n] as int
    ensures H.Ord(HEX_DIGITS[n] as int) == n && H.Ord(UPPER_DIGITS[n] as int) == n
  {
  }

  lemma {:induction false} HexPair(h: nat, l: nat, high: byte, low: byte)
    requires h < 16 && l < 16 && H.Ord(high) == h && H.Ord(low) == l
    ensures H.Chr(16 * h + l) == [H.Digit(h), H.Digit(l)] && H.Pair(high, low) == 16 * h + l
  {
    hide H.Ord, H.Digit, Or;
    assert (16 * h + l) / 16 == h && (16 * h + l) % 16 == l;
    assert h * 16 % 256 == h * 16;
    H.OrNibbles(h, l);
  }

  /** Any other character counts as well: its low four bits, and 9 more from 0x40 to 0x7F and from 0xC0 on. */
  lemma {:induction false} AnyDigit(c: byte)
    ensures H.Ord(c) == if 0x40 <= c < 0x80 || 0xC0 <= c then c % 16 + 9 else c % 16
  {
  }

  // ---------------------------------------------------------------- URLs

  /** Left alone: digits, letters and twelve other characters. */
  lemma {:induction false} PlainAre(c: byte)
    ensures U.Plain(c) <==> '0' <= c as char <= '9' || 'A' <= c as char <= 'Z' || 'a' <= c as char <= 'z'
                            || c as char in "$-_.,!~;*()'"
  {
  }

  /** Everything else, unless the caller's list keeps it, becomes a percent sign and two digits, or a plus sign if it is
      a space in a query. */
  lemma {:induction false} Escaped(c: byte, ignored: seq<byte>)
    ensures U.Plain(c) || c in ignored ==> U.EncodedByte(c, ignored, true) == U.EncodedByte(c, ignored, false) == [c]
    ensures !U.Plain(c) && c !in ignored ==>
              U.EncodedByte(c, ignored, false) == ['%' as int, H.Digit(c / 16), H.Digit(c % 16)]
    ensures !U.Plain(c) && c !in ignored ==>
              U.EncodedByte(c, ignored, true)
              == if c as char == ' ' then ['+' as int] else ['%' as int, H.Digit(c / 16), H.Digit(c % 16)]
  {
    hide U.Plain;
  }

  lemma {:induction false} EscapeIs(high: byte, low: byte, rest: seq<byte>)
    ensures U.Escape(['%' as int, high, low] + rest) == (H.Ord(high) * 16 + H.Ord(low)) % 256
    ensures U.Escape(['%' as int, high]) == H.Ord(high) * 16 % 256 && U.Escape(['%' as int]) == 0
  {
    CutOnce(H.Ord(high) * 16, H.Ord(low));
    hide H.Ord;
    var s := ['%' as int, high, low] + rest;
    assert s[1] == high && s[2] == low;
  }

  lemma {:induction false} CutOnce(a: nat, b: nat)
    ensures (a % 256 + b) % 256 == (a + b) % 256
  {
    assert a + b == 256 * (a / 256) + (a % 256 + b);
  }

  /** A percent sign takes two characters for one byte, a cut-off escape what there is of it; a plus sign is a space in
      a query; everything else stands for itself. */
  lemma {:induction false} Unescaped(c: byte, high: byte, low: byte, rest: seq<byte>, query: bool)
    ensures U.UrlDecoded(['%' as int, high, low] + rest, query)
            == [(H.Ord(high) * 16 + H.Ord(low)) % 256] + U.UrlDecoded(rest, query)
    ensures U.UrlDecoded(['%' as int, high], query) == [H.Ord(high) * 16 % 256] && U.UrlDecoded(['%' as int], query) == [0]
    ensures c as char != '%' ==>
              U.UrlDecoded([c] + rest, query)
              == [if c as char == '+' && query then ' ' as int else c] + U.UrlDecoded(rest, query)
  {
    hide H.Ord, U.Escape;
    EscapeIs(high, low, rest);
    var s := ['%' as int, high, low] + rest;
    assert ([c] + rest)[1..] == rest;
    if rest != [] {
      assert s[3..] == rest;
    } else {
      U.NothingDecoded(query);
    }
  }
}
