/** URL encoding and decoding (section 2.1 of RFC 3986). */
module Url {
  import opened Basics
  import opened Hex

  const PERCENT: byte := 37
  const PLUS: byte := 43
  const SPACE: byte := 32

  /** Letters, digits and $ - _ . , ! ~ ; * ( ) ' */
  predicate Plain(c: byte) {
    48 <= c <= 57 || 97 <= c <= 122 || 65 <= c <= 90 || c in {36, 45, 95, 46, 44, 33, 126, 59, 42, 40, 41, 39}
  }

  /** The characters that are left alone: the plain ones and those of the caller's ignore list. */
  predicate Kept(c: byte, ignored: seq<byte>) { Plain(c) || c in ignored }

  function EncodedByte(c: byte, ignored: seq<byte>, query: bool): (r: seq<byte>)
    ensures r != []
  {
    if Kept(c, ignored) then [c]
    else if c == SPACE && query then [PLUS]
    else [PERCENT] + Chr(c)
  }

  function UrlEncoded(s: seq<byte>, ignored: seq<byte>, query: bool): seq<byte> {
    if s == [] then [] else EncodedByte(s[0], ignored, query) + UrlEncoded(s[1..], ignored, query)
  }

  /** A percent sign takes the next two characters, as far as there are any. */
  function Escape(s: seq<byte>): byte
    requires s != []
  {
    var high := if |s| > 1 then High(s[1]) else 0;
    if |s| > 2 then (high + Ord(s[2])) % 256 else high
  }

  function UrlDecoded(s: seq<byte>, query: bool): seq<byte> {
    if s == [] then []
    else if s[0] == PERCENT then [Escape(s)] + (if |s| > 3 then UrlDecoded(s[3..], query) else [])
    else [if s[0] == PLUS && query then SPACE else s[0]] + UrlDecoded(s[1..], query)
  }

  lemma {:induction false} EscapeRead(c: byte, rest: seq<byte>)
    ensures Escape([PERCENT] + Chr(c) + rest) == c
  {
    hide Digit, Ord;
    DigitRead(c / 16);
    DigitRead(c % 16);
    var s := [PERCENT] + Chr(c) + rest;
    assert s[1] == Digit(c / 16) && s[2] == Digit(c % 16);
    Recombined(c);
  }

  lemma {:induction false} Recombined(c: byte)
    ensures (c as nat / 16 * 16 % 256 + c as nat % 16) % 256 == c
  {
  }

  /** The percent sign is not ignored, nor the plus sign by a decoder that turns it into a space; and a decoder does
      turn it into one if the encoder made it from one. */
  predicate Compatible(ignored: seq<byte>, query: bool, plus: bool) {
    PERCENT !in ignored && (plus ==> PLUS !in ignored) && (query && SPACE !in ignored ==> plus)
  }

  lemma {:induction false} ByteUndone(c: byte, ignored: seq<byte>, query: bool, plus: bool, rest: seq<byte>)
    requires Compatible(ignored, query, plus)
    ensures UrlDecoded(EncodedByte(c, ignored, query) + rest, plus) == [c] + UrlDecoded(rest, plus)
  {
    hide Chr, Escape;
    var s := EncodedByte(c, ignored, query) + rest;
    if Kept(c, ignored) || (c == SPACE && query) {
      assert s[1..] == rest;
    } else {
      EscapeRead(c, rest);
      assert s == [PERCENT] + Chr(c) + rest;
      assert s[3..] == rest;
      if rest == [] {
        assert UrlDecoded([], plus) == [];
      }
    }
  }

  lemma {:induction false} UrlUndone(s: seq<byte>, ignored: seq<byte>, query: bool, plus: bool)
    requires Compatible(ignored, query, plus)
    ensures UrlDecoded(UrlEncoded(s, ignored, query), plus) == s
  {
    hide EncodedByte, UrlDecoded;
    if s == [] {
      NothingDecoded(plus);
    } else {
      ByteUndone(s[0], ignored, query, plus, UrlEncoded(s[1..], ignored, query));
      UrlUndone(s[1..], ignored, query, plus);
      assert [s[0]] + s[1..] == s;
    }
  }

  lemma {:induction false} NothingDecoded(plus: bool)
    ensures UrlDecoded([], plus) == []
  {
  }

  ghost predicate AlwaysUndone(ignored: seq<byte>, query: bool, plus: bool) {
    forall s: seq<byte> :: UrlDecoded(UrlEncoded(s, ignored, query), plus) == s
  }

  lemma {:induction false} OneByte(c: byte, ignored: seq<byte>, query: bool)
    ensures UrlEncoded([c], ignored, query) == EncodedByte(c, ignored, query)
  {
    hide EncodedByte;
    assert [c][1..] == [];
    assert EncodedByte(c, ignored, query) + [] == EncodedByte(c, ignored, query);
  }

  lemma {:induction false} OneDecoded(c: byte, plus: bool)
    ensures UrlDecoded([c], plus) == [if c == PERCENT then 0 else if c == PLUS && plus then SPACE else c]
  {
    assert [c][1..] == [];
    assert UrlDecoded([], plus) == [];
  }

  /** Otherwise a single byte is already lost. */
  lemma {:induction false} OneByteLost(ignored: seq<byte>, query: bool, plus: bool) returns (c: byte)
    requires !Compatible(ignored, query, plus)
    ensures UrlDecoded(UrlEncoded([c], ignored, query), plus) != [c]
  {
    hide UrlEncoded, UrlDecoded;
    c := if PERCENT in ignored then PERCENT else if plus && PLUS in ignored then PLUS else SPACE;
    OneByte(c, ignored, query);
    OneDecoded(c, plus);
    OneDecoded(PLUS, plus);
  }

  /** Decoding undoes encoding on every byte string exactly for compatible settings. */
  lemma {:induction false} UrlUndoneIff(ignored: seq<byte>, query: bool, plus: bool)
    ensures AlwaysUndone(ignored, query, plus) <==> Compatible(ignored, query, plus)
  {
    hide UrlEncoded, UrlDecoded, Compatible;
    if Compatible(ignored, query, plus) {
      forall s: seq<byte>
        ensures UrlDecoded(UrlEncoded(s, ignored, query), plus) == s
      {
        UrlUndone(s, ignored, query, plus);
      }
    } else {
      var c := OneByteLost(ignored, query, plus);
      assert UrlDecoded(UrlEncoded([c], ignored, query), plus) != [c];
    }
  }

  method Encode(c: seq<byte>, ign: seq<byte>, queryStr: bool) returns (escaped: seq<byte>)
    ensures escaped == UrlEncoded(c, ign, queryStr)
  {
    hide Chr, Plain;
    escaped := [];
    assert c[0..] == c;
    for i := 0 to |c|
      invariant escaped + UrlEncoded(c[i..], ign, queryStr) == UrlEncoded(c, ign, queryStr)
    {
      assert c[i..][1..] == c[i + 1..];
      Assoc(escaped, EncodedByte(c[i], ign, queryStr), UrlEncoded(c[i + 1..], ign, queryStr));
      if Plain(c[i]) || c[i] in ign {
        escaped := escaped + [c[i]];
      } else if c[i] == SPACE && queryStr {
        escaped := escaped + [PLUS];
      } else {
        Assoc(escaped, [PERCENT], Chr(c[i]));
        escaped := escaped + [PERCENT];
        escaped := escaped + Chr(c[i]);
      }
    }
    assert escaped + [] == escaped;
  }

  /** What the decoder makes of the text from position i on. */
  function DecodedFrom(s: seq<byte>, i: nat, query: bool): seq<byte> {
    if i < |s| then UrlDecoded(s[i..], query) else []
  }

  lemma {:induction false} DecodedStep(s: seq<byte>, i: nat, query: bool)
    requires i < |s|
    ensures DecodedFrom(s, i, query)
            == if s[i] == PERCENT then [Escape(s[i..])] + DecodedFrom(s, i + 3, query)
               else [if s[i] == PLUS && query then SPACE else s[i]] + DecodedFrom(s, i + 1, query)
  {
    hide Escape;
    var left := s[i..];
    if |left| > 3 {
      assert left[3..] == s[i + 3..];
    }
    if |left| > 1 {
      assert left[1..] == s[i + 1..];
    } else {
      assert left[1..] == [];
      NothingDecoded(query);
    }
  }

  method TakeEscape(s: seq<byte>, start: nat) returns (tmp: byte, i: nat)
    requires start < |s|
    ensures tmp == Escape(s[start..]) && i == start + 2
  {
    hide Ord, High;
    tmp := 0;
    i := start + 1;
    if i < |s| {
      tmp := High(s[i]);
    }
    i := i + 1;
    if i < |s| {
      tmp := (tmp + Ord(s[i])) % 256;
    }
  }

  method Decode(s: seq<byte>, queryStr: bool) returns (out: seq<byte>)
    ensures out == UrlDecoded(s, queryStr)
  {
    hide DecodedFrom, Escape, UrlDecoded;
    out := [];
    var i: nat := 0;
    FromStart(s, queryStr);
    while i < |s|
      invariant out + DecodedFrom(s, i, queryStr) == UrlDecoded(s, queryStr)
    {
      DecodedStep(s, i, queryStr);
      if s[i] == PERCENT {
        var tmp, last := TakeEscape(s, i);
        Assoc(out, [tmp], DecodedFrom(s, i + 3, queryStr));
        out := out + [tmp];
        i := last;
      } else {
        var c := if s[i] == PLUS && queryStr then SPACE else s[i];
        Assoc(out, [c], DecodedFrom(s, i + 1, queryStr));
        out := out + [c];
      }
      i := i + 1;
    }
    FromEnd(s, i, queryStr);
    assert out + [] == out;
  }

  lemma {:induction false} FromStart(s: seq<byte>, query: bool)
    ensures [] + DecodedFrom(s, 0, query) == UrlDecoded(s, query)
  {
    assert s[0..] == s;
    assert s == [] ==> UrlDecoded(s, query) == [];
  }

  lemma {:induction false} FromEnd(s: seq<byte>, i: nat, query: bool)
    requires i >= |s|
    ensures DecodedFrom(s, i, query) == []
  {
  }
}
