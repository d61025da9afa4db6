/** AV1 open bitstream units with a size field (sections 4.10.5, 5.3.1 and 5.3.2 of the AV1 Bitstream specification). */
module Obu {
  import opened Basics
  import opened EbmlInt

  // ---------------------------------------------------------------- lengths in groups of 7 bits

  /** leb128 */
  function Leb128(n: nat): (r: seq<byte>)
    ensures |r| >= 1
  {
    if n < 0x80 then [n] else [n % 0x80 + 0x80] + Leb128(n / 0x80)
  }

  method AppendLeb128(n: nat) returns (r: seq<byte>)
    ensures r == Leb128(n)
  {
    r := [];
    var i: nat := n;
    while i >= 0x80
      invariant r + Leb128(i) == Leb128(n)
    {
      var low: byte := i % 0x80 + 0x80;
      Assoc(r, [low], Leb128(i / 0x80));
      r := r + [low];
      i := i / 0x80;
    }
    r := r + [i];
  }

  function Pow128(i: nat): (r: nat)
    ensures r >= 1
  {
    if i == 0 then 1 else 128 * Pow128(i - 1)
  }

  // ---------------------------------------------------------------- reading a unit

  /** What init leaves in the object: its total, header and payload sizes. Undefined where the code shifts a value
      out of a signed 32-bit number. */
  datatype Unit = Unit(size: nat, header: nat, payload: nat) | Invalid | Undefined

  /** The size field: its value and the position after it. */
  datatype Field = Field(value: nat, next: nat) | Cut | Overflow

  const INT_LIMIT: nat := 0x8000_0000

  /** The loop over the size field's bytes; i counts them. */
  function SizeField(data: seq<byte>, pos: nat, i: nat, acc: nat): Field
    decreases |data| - pos
  {
    if |data| < pos + 1 then Cut
    else if i >= 5 || data[pos] as nat % 0x80 * Pow128(i) >= INT_LIMIT then Overflow
    else
      var sum := acc + data[pos] as nat % 0x80 * Pow128(i);
      if data[pos] >= 0x80 then SizeField(data, pos + 1, i + 1, sum) else Field(sum, pos + 1)
  }

  function BaseHeader(first: nat): nat { if first / 4 % 2 == 1 then 2 else 1 }

  predicate HasSize(first: nat) { first / 2 % 2 == 1 }

  function TypeOf(first: nat): nat { first / 8 % 16 }

  const TEMPORAL_DELIMITER: nat := 2

  /** A temporal delimiter is taken to have no payload, whatever its size field says. */
  function Delimited(first: nat, size: nat, header: nat, payload: nat): Unit {
    if TypeOf(first) == TEMPORAL_DELIMITER && payload > 0 then Unit(header, header, 0) else Unit(size, header, payload)
  }

  /** init */
  function Parsed(data: seq<byte>): Unit {
    if data == [] then Invalid
    else if !HasSize(data[0]) then
      Delimited(data[0], |data|, BaseHeader(data[0]), (|data| - BaseHeader(data[0])) % TWO_TO_THE_64)
    else
      match SizeField(data, BaseHeader(data[0]), 0, 0)
      case Cut => Invalid
      case Overflow => Undefined
      case Field(n, header) => if |data| < n + header then Invalid else Delimited(data[0], n + header, header, n)
  }

  // ---------------------------------------------------------------- units as they are written

  /** A first byte with the size flag, the extension byte it calls for, and a payload. */
  datatype Source = Source(first: byte, extension: byte, payload: seq<byte>)

  predicate Sized(u: Source) { HasSize(u.first) && |u.payload| < INT_LIMIT }

  function HeadBytes(u: Source): (r: seq<byte>)
    ensures |r| == BaseHeader(u.first) && r[0] == u.first
  {
    if BaseHeader(u.first) == 2 then [u.first, u.extension] else [u.first]
  }

  function HeaderLen(u: Source): nat { BaseHeader(u.first) + |Leb128(|u.payload|)| }

  function UnitBytes(u: Source): seq<byte> { HeadBytes(u) + (Leb128(|u.payload|) + u.payload) }

  lemma {:induction false} BigShift(m: nat, i: nat)
    requires m >= 1 && m * Pow128(i) < INT_LIMIT
    ensures i <= 4
  {
    if i >= 5 {
      assert Pow128(2) == 16384;
      assert Pow128(5) == 128 * 128 * 128 * Pow128(2);
      PowGrows(5, i);
    }
  }

  lemma {:induction false} PowGrows(a: nat, b: nat)
    requires a <= b
    ensures Pow128(a) <= Pow128(b)
    decreases b
  {
    if a < b {
      PowGrows(a, b - 1);
    }
  }

  /** The groups add up: the value read so far plus the rest, whatever follows. */
  lemma {:induction false} LebReads(data: seq<byte>, pos: nat, i: nat, acc: nat, m: nat)
    requires At(data, pos, Leb128(m)) && m * Pow128(i) < INT_LIMIT && (m >= 1 || i == 0)
    ensures SizeField(data, pos, i, acc) == Field(acc + m * Pow128(i), pos + |Leb128(m)|)
    decreases m
  {
    hide At;
    AtIndex(data, pos, Leb128(m), 0);
    AtFits(data, pos, Leb128(m));
    if m >= 1 {
      BigShift(m, i);
    }
    if m < 0x80 {
    } else {
      AtSplit(data, pos, [m % 0x80 + 0x80], Leb128(m / 0x80));
      Groups(m, Pow128(i));
      LebReads(data, pos + 1, i + 1, acc + m % 0x80 * Pow128(i), m / 0x80);
    }
  }

  lemma {:induction false} Groups(m: nat, p: nat)
    ensures m * p == m % 0x80 * p + m / 0x80 * (128 * p)
    ensures m % 0x80 * p <= m * p && m / 0x80 * (128 * p) <= m * p
  {
    var q, r := m / 0x80, m % 0x80;
    assert m == 0x80 * q + r;
    assert m * p == 0x80 * q * p + r * p;
    assert q * (128 * p) == 0x80 * q * p;
  }

  /** A unit is read with its own header and payload lengths, whatever follows it; its total size is its own exactly
      unless it is a temporal delimiter with a payload. */
  lemma {:induction false} UnitReads(data: seq<byte>, u: Source)
    requires Sized(u) && At(data, 0, UnitBytes(u))
    ensures Parsed(data) == Delimited(u.first, |UnitBytes(u)|, HeaderLen(u), |u.payload|)
    ensures Parsed(data) == Unit(|UnitBytes(u)|, HeaderLen(u), |u.payload|) <==> u.payload == [] || TypeOf(u.first) != TEMPORAL_DELIMITER
  {
    hide At, SizeField, Leb128, TypeOf;
    var leb := Leb128(|u.payload|);
    AtIndex(data, 0, UnitBytes(u), 0);
    AtSplit(data, 0, HeadBytes(u), leb + u.payload);
    AtSplit(data, |HeadBytes(u)|, leb, u.payload);
    AtFits(data, 0, UnitBytes(u));
    LebReads(data, |HeadBytes(u)|, 0, 0, |u.payload|);
  }

  // ---------------------------------------------------------------- walking a list of units

  /** init on what is left, then a step of getSize, `count` times. */
  function Walk(data: seq<byte>, count: nat): Option<seq<Unit>>
    decreases count
  {
    if count == 0 then Some([])
    else
      var u := Parsed(data);
      if !u.Unit? || u.size > |data| then None
      else match Walk(data[u.size..], count - 1)
        case None => None
        case Some(rest) => Some([u] + rest)
  }

  function Stream(us: seq<Source>): seq<byte> { if us == [] then [] else UnitBytes(us[0]) + Stream(us[1..]) }

  /** Sized units, the temporal delimiters among them empty. */
  predicate AllSized(us: seq<Source>) {
    us == [] || (Sized(us[0]) && (us[0].payload == [] || TypeOf(us[0].first) != TEMPORAL_DELIMITER) && AllSized(us[1..]))
  }

  function Sizes(us: seq<Source>): (r: seq<Unit>)
    ensures |r| == |us|
  {
    if us == [] then []
    else [Unit(|UnitBytes(us[0])|, HeaderLen(us[0]), |us[0].payload|)] + Sizes(us[1..])
  }

  /** Walking recovers every unit's header length and payload length, in order. */
  lemma {:induction false} WalkRecovers(us: seq<Source>, tail: seq<byte>)
    requires AllSized(us)
    ensures Walk(Stream(us) + tail, |us|) == Some(Sizes(us))
  {
    hide UnitBytes, Parsed, HeaderLen, TypeOf;
    if us != [] {
      var data := Stream(us) + tail;
      var head, rest := UnitBytes(us[0]), Stream(us[1..]) + tail;
      Assoc(head, Stream(us[1..]), tail);
      assert data == head + rest;
      AtStart(head, rest);
      UnitReads(data, us[0]);
      assert data[|head|..] == rest;
      WalkRecovers(us[1..], tail);
    }
  }

  // ---------------------------------------------------------------- the object

  class OBU {
    var present: bool
    var l: nat
    var plSize: nat
    var hdrSize: nat

    /** The object as its accessors show it. */
    ghost function View(): Unit
      reads this
    {
      if present && l > 0 then Unit(l, hdrSize, plSize) else Invalid
    }

    constructor ()
      ensures View() == Invalid
    {
      present, l, plSize, hdrSize := false, 0, 0, 0;
    }

    /** init; ok is false where the code's behaviour is undefined. */
    method Init(data: seq<byte>) returns (ok: bool)
      modifies this
      ensures ok <==> Parsed(data) != Undefined
      ensures ok ==> View() == Parsed(data)
    {
      hide SizeField, TypeOf, HasSize;
      ok := true;
      present, l, hdrSize, plSize := true, |data|, 0, 0;
      if l == 0 {
        return;
      }
      hdrSize := if data[0] / 4 % 2 == 1 then 2 else 1;
      if HasSize(data[0]) {
        var field := ReadSizeField(data, hdrSize);
        match field
        case Cut => {
          present, l := false, 0;
          return;
        }
        case Overflow => {
          return false;
        }
        case Field(n, next) => {
          plSize, hdrSize := n, next;
        }
        if |data| < plSize + hdrSize {
          present, l := false, 0;
          return;
        }
        if plSize + hdrSize < l {
          l := plSize + hdrSize;
        }
        FieldMoves(data, BaseHeader(data[0]));
      } else {
        plSize := (l - hdrSize) % TWO_TO_THE_64;
      }
      if TypeOf(data[0]) == TEMPORAL_DELIMITER {
        if plSize > 0 {
          plSize := 0;
          l := hdrSize;
        }
      }
    }

    /** The do-while loop over the size field. */
    method ReadSizeField(data: seq<byte>, start: nat) returns (r: Field)
      ensures r == SizeField(data, start, 0, 0)
    {
      var value: nat, i: nat, pos: nat := 0, 0, start;
      var more := true;
      while more
        invariant more ==> SizeField(data, start, 0, 0) == SizeField(data, pos, i, value)
        invariant !more ==> SizeField(data, start, 0, 0) == Field(value, pos)
        decreases more, |data| - pos
      {
        if |data| < pos + 1 {
          return Cut;
        }
        if i >= 5 || data[pos] as nat % 0x80 * Pow128(i) >= INT_LIMIT {
          return Overflow;
        }
        value := value + data[pos] as nat % 0x80 * Pow128(i);
        i := i + 1;
        pos := pos + 1;
        more := data[pos - 1] >= 0x80;
      }
      r := Field(value, pos);
    }
  }

  lemma {:induction false} FieldMoves(data: seq<byte>, start: nat)
    ensures SizeField(data, start, 0, 0).Field? ==> SizeField(data, start, 0, 0).next > start
  {
    FieldMovesFrom(data, start, 0, 0);
  }

  lemma {:induction false} FieldMovesFrom(data: seq<byte>, pos: nat, i: nat, acc: nat)
    ensures SizeField(data, pos, i, acc).Field? ==> SizeField(data, pos, i, acc).next > pos
    decreases |data| - pos
  {
    if pos < |data| && i < 5 {
      FieldMovesFrom(data, pos + 1, i + 1, acc + data[pos] as nat % 0x80 * Pow128(i));
    }
  }
}
