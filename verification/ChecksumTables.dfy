/** The tables of the checksums, in rows of 16, and what each entry is. */
module ChecksumTables {
  datatype Row = Row(e0: bv32, e1: bv32, e2: bv32, e3: bv32, e4: bv32, e5: bv32, e6: bv32, e7: bv32,
                     e8: bv32, e9: bv32, e10: bv32, e11: bv32, e12: bv32, e13: bv32, e14: bv32, e15: bv32)

  function EntryAt(r: Row, n: nat): bv32 {
    if n < 8 then
      if n < 4 then if n < 2 then (if n < 1 then r.e0 else r.e1) else (if n < 3 then r.e2 else r.e3)
      else if n < 6 then (if n < 5 then r.e4 else r.e5) else (if n < 7 then r.e6 else r.e7)
    else
      if n < 12 then if n < 10 then (if n < 9 then r.e8 else r.e9) else (if n < 11 then r.e10 else r.e11)
      else if n < 14 then (if n < 13 then r.e12 else r.e13) else (if n < 15 then r.e14 else r.e15)
  }

  // ---------------------------------------------------------------- tables of registers that move up

  /** One message bit, with the register as a number below twice `top`. */
  function StepUp(poly: bv32, top: bv32, c: bv32, bit: bool): bv32 {
    (if ((c & top) != 0) != bit then (c << 1) ^ poly else c << 1) & (top | (top - 1))
  }

  /** Half a row grows into a row: each entry, one bit on. */
  function Grown(poly: bv32, top: bv32, r: Row, upper: bool): Row {
    if !upper then
      Row(StepUp(poly, top, r.e0, false), StepUp(poly, top, r.e0, true),
          StepUp(poly, top, r.e1, false), StepUp(poly, top, r.e1, true),
          StepUp(poly, top, r.e2, false), StepUp(poly, top, r.e2, true),
          StepUp(poly, top, r.e3, false), StepUp(poly, top, r.e3, true),
          StepUp(poly, top, r.e4, false), StepUp(poly, top, r.e4, true),
          StepUp(poly, top, r.e5, false), StepUp(poly, top, r.e5, true),
          StepUp(poly, top, r.e6, false), StepUp(poly, top, r.e6, true),
          StepUp(poly, top, r.e7, false), StepUp(poly, top, r.e7, true))
    else
      Row(StepUp(poly, top, r.e8, false), StepUp(poly, top, r.e8, true),
          StepUp(poly, top, r.e9, false), StepUp(poly, top, r.e9, true),
          StepUp(poly, top, r.e10, false), StepUp(poly, top, r.e10, true),
          StepUp(poly, top, r.e11, false), StepUp(poly, top, r.e11, true),
          StepUp(poly, top, r.e12, false), StepUp(poly, top, r.e12, true),
          StepUp(poly, top, r.e13, false), StepUp(poly, top, r.e13, true),
          StepUp(poly, top, r.e14, false), StepUp(poly, top, r.e14, true),
          StepUp(poly, top, r.e15, false), StepUp(poly, top, r.e15, true))
  }

  lemma {:induction false} GrownAt(poly: bv32, top: bv32, r: Row, upper: bool, n: nat)
    requires n < 16
    ensures EntryAt(Grown(poly, top, r, upper), n) == StepUp(poly, top, EntryAt(r, n / 2 + if upper then 8 else 0), n % 2 == 1)
  {
    hide StepUp;
  }

  lemma {:induction false} HalfSplit(n: nat)
    ensures var h, l := n / 16, n % 16;
            && n / 2 / 16 == h / 2 && n / 2 % 16 == (l / 2 + if h % 2 == 1 then 8 else 0) && n % 2 == l % 2
  {
    var h, l := n / 16, n % 16;
    assert n / 2 == 8 * h + l / 2;
    assert h == 2 * (h / 2) + h % 2;
  }

  // ---------------------------------------------------------------- registers that move down, and swapped ones

  /** One message bit, with the bits of the register reversed. */
  function StepDown(c: bv32, bit: bool): bv32 { if ((c & 1) != 0) != bit then (c >> 1) ^ 0xEDB88320 else c >> 1 }

  /** Every other entry of two rows, one bit on. */
  function GrownDown(r: Row, t: Row, bit: bool): Row {
    Row(StepDown(r.e0, bit), StepDown(r.e2, bit), StepDown(r.e4, bit), StepDown(r.e6, bit),
        StepDown(r.e8, bit), StepDown(r.e10, bit), StepDown(r.e12, bit), StepDown(r.e14, bit),
        StepDown(t.e0, bit), StepDown(t.e2, bit), StepDown(t.e4, bit), StepDown(t.e6, bit),
        StepDown(t.e8, bit), StepDown(t.e10, bit), StepDown(t.e12, bit), StepDown(t.e14, bit))
  }

  lemma {:induction false} GrownDownAt(r: Row, t: Row, bit: bool, n: nat)
    requires n < 16
    ensures EntryAt(GrownDown(r, t, bit), n) == StepDown(if n < 8 then EntryAt(r, 2 * n) else EntryAt(t, 2 * n - 16), bit)
  {
    hide StepDown;
  }

  /** The bytes in reverse. */
  function Swap(c: bv32): bv32 {
    (c >> 24) | ((c >> 8) & 0xFF00) | ((c << 8) & 0xFF_0000) | (c << 24)
  }

  function SwappedRow(r: Row): Row {
    Row(Swap(r.e0), Swap(r.e1), Swap(r.e2), Swap(r.e3),
        Swap(r.e4), Swap(r.e5), Swap(r.e6), Swap(r.e7),
        Swap(r.e8), Swap(r.e9), Swap(r.e10), Swap(r.e11),
        Swap(r.e12), Swap(r.e13), Swap(r.e14), Swap(r.e15))
  }

  lemma {:induction false} SwappedAt(r: Row, n: nat)
    requires n < 16
    ensures EntryAt(SwappedRow(r), n) == Swap(EntryAt(r, n))
  {
    hide Swap;
  }

  // ---------------------------------------------------------------- the tables

  /** The table of crc32c, polynomial 0x04C11DB7: entries 16 * h to 16 * h + 15. */
  function Row32(h: nat): Row {
    if h < 8 then
      if h < 4 then
        if h < 2 then
          if h < 1 then
            Row(0x00000000, 0x04C11DB7, 0x09823B6E, 0x0D4326D9, 0x130476DC, 0x17C56B6B, 0x1A864DB2, 0x1E475005,
                0x2608EDB8, 0x22C9F00F, 0x2F8AD6D6, 0x2B4BCB61, 0x350C9B64, 0x31CD86D3, 0x3C8EA00A, 0x384FBDBD)
          else
            Row(0x4C11DB70, 0x48D0C6C7, 0x4593E01E, 0x4152FDA9, 0x5F15ADAC, 0x5BD4B01B, 0x569796C2, 0x52568B75,
                0x6A1936C8, 0x6ED82B7F, 0x639B0DA6, 0x675A1011, 0x791D4014, 0x7DDC5DA3, 0x709F7B7A, 0x745E66CD)
        else
          if h < 3 then
            Row(0x9823B6E0, 0x9CE2AB57, 0x91A18D8E, 0x95609039, 0x8B27C03C, 0x8FE6DD8B, 0x82A5FB52, 0x8664E6E5,
                0xBE2B5B58, 0xBAEA46EF, 0xB7A96036, 0xB3687D81, 0xAD2F2D84, 0xA9EE3033, 0xA4AD16EA, 0xA06C0B5D)
          else
            Row(0xD4326D90, 0xD0F37027, 0xDDB056FE, 0xD9714B49, 0xC7361B4C, 0xC3F706FB, 0xCEB42022, 0xCA753D95,
                0xF23A8028, 0xF6FB9D9F, 0xFBB8BB46, 0xFF79A6F1, 0xE13EF6F4, 0xE5FFEB43, 0xE8BCCD9A, 0xEC7DD02D)
      else
        if h < 6 then
          if h < 5 then
            Row(0x34867077, 0x30476DC0, 0x3D044B19, 0x39C556AE, 0x278206AB, 0x23431B1C, 0x2E003DC5, 0x2AC12072,
                0x128E9DCF, 0x164F8078, 0x1B0CA6A1, 0x1FCDBB16, 0x018AEB13, 0x054BF6A4, 0x0808D07D, 0x0CC9CDCA)
          else
            Row(0x7897AB07, 0x7C56B6B0, 0x71159069, 0x75D48DDE, 0x6B93DDDB, 0x6F52C06C, 0x6211E6B5, 0x66D0FB02,
                0x5E9F46BF, 0x5A5E5B08, 0x571D7DD1, 0x53DC6066, 0x4D9B3063, 0x495A2DD4, 0x44190B0D, 0x40D816BA)
        else
          if h < 7 then
            Row(0xACA5C697, 0xA864DB20, 0xA527FDF9, 0xA1E6E04E, 0xBFA1B04B, 0xBB60ADFC, 0xB6238B25, 0xB2E29692,
                0x8AAD2B2F, 0x8E6C3698, 0x832F1041, 0x87EE0DF6, 0x99A95DF3, 0x9D684044, 0x902B669D, 0x94EA7B2A)
          else
            Row(0xE0B41DE7, 0xE4750050, 0xE9362689, 0xEDF73B3E, 0xF3B06B3B, 0xF771768C, 0xFA325055, 0xFEF34DE2,
                0xC6BCF05F, 0xC27DEDE8, 0xCF3ECB31, 0xCBFFD686, 0xD5B88683, 0xD1799B34, 0xDC3ABDED, 0xD8FBA05A)
    else
      if h < 12 then
        if h < 10 then
          if h < 9 then
            Row(0x690CE0EE, 0x6DCDFD59, 0x608EDB80, 0x644FC637, 0x7A089632, 0x7EC98B85, 0x738AAD5C, 0x774BB0EB,
                0x4F040D56, 0x4BC510E1, 0x46863638, 0x42472B8F, 0x5C007B8A, 0x58C1663D, 0x558240E4, 0x51435D53)
          else
            Row(0x251D3B9E, 0x21DC2629, 0x2C9F00F0, 0x285E1D47, 0x36194D42, 0x32D850F5, 0x3F9B762C, 0x3B5A6B9B,
                0x0315D626, 0x07D4CB91, 0x0A97ED48, 0x0E56F0FF, 0x1011A0FA, 0x14D0BD4D, 0x19939B94, 0x1D528623)
        else
          if h < 11 then
            Row(0xF12F560E, 0xF5EE4BB9, 0xF8AD6D60, 0xFC6C70D7, 0xE22B20D2, 0xE6EA3D65, 0xEBA91BBC, 0xEF68060B,
                0xD727BBB6, 0xD3E6A601, 0xDEA580D8, 0xDA649D6F, 0xC423CD6A, 0xC0E2D0DD, 0xCDA1F604, 0xC960EBB3)
          else
            Row(0xBD3E8D7E, 0xB9FF90C9, 0xB4BCB610, 0xB07DABA7, 0xAE3AFBA2, 0xAAFBE615, 0xA7B8C0CC, 0xA379DD7B,
                0x9B3660C6, 0x9FF77D71, 0x92B45BA8, 0x9675461F, 0x8832161A, 0x8CF30BAD, 0x81B02D74, 0x857130C3)
      else
        if h < 14 then
          if h < 13 then
            Row(0x5D8A9099, 0x594B8D2E, 0x5408ABF7, 0x50C9B640, 0x4E8EE645, 0x4A4FFBF2, 0x470CDD2B, 0x43CDC09C,
                0x7B827D21, 0x7F436096, 0x7200464F, 0x76C15BF8, 0x68860BFD, 0x6C47164A, 0x61043093, 0x65C52D24)
          else
            Row(0x119B4BE9, 0x155A565E, 0x18197087, 0x1CD86D30, 0x029F3D35, 0x065E2082, 0x0B1D065B, 0x0FDC1BEC,
                0x3793A651, 0x3352BBE6, 0x3E119D3F, 0x3AD08088, 0x2497D08D, 0x2056CD3A, 0x2D15EBE3, 0x29D4F654)
        else
          if h < 15 then
            Row(0xC5A92679, 0xC1683BCE, 0xCC2B1D17, 0xC8EA00A0, 0xD6AD50A5, 0xD26C4D12, 0xDF2F6BCB, 0xDBEE767C,
                0xE3A1CBC1, 0xE760D676, 0xEA23F0AF, 0xEEE2ED18, 0xF0A5BD1D, 0xF464A0AA, 0xF9278673, 0xFDE69BC4)
          else
            Row(0x89B8FD09, 0x8D79E0BE, 0x803AC667, 0x84FBDBD0, 0x9ABC8BD5, 0x9E7D9662, 0x933EB0BB, 0x97FFAD0C,
                0xAFB010B1, 0xAB710D06, 0xA6322BDF, 0xA2F33668, 0xBCB4666D, 0xB8757BDA, 0xB5365D03, 0xB1F740B4)
  }

  function Table32(n: nat): bv32 { EntryAt(Row32(n / 16), n % 16) }

  predicate Grows32(h: nat) { Row32(h) == Grown(0x04C11DB7, 0x8000_0000, Row32(h / 2), h % 2 == 1) }

  lemma {:induction false} LowerRows32()
    ensures Grows32(0) && Grows32(1) && Grows32(2) && Grows32(3)
    ensures Grows32(4) && Grows32(5) && Grows32(6) && Grows32(7)
  {
  }

  lemma {:induction false} UpperRows32()
    ensures Grows32(8) && Grows32(9) && Grows32(10) && Grows32(11)
    ensures Grows32(12) && Grows32(13) && Grows32(14) && Grows32(15)
  {
  }

  lemma {:induction false} AllRows32(h: nat)
    requires h < 16
    ensures Grows32(h)
  {
    hide *;
    if h < 8 {
      LowerRows32();
      assert h == 0 || h == 1 || h == 2 || h == 3 || h == 4 || h == 5 || h == 6 || h == 7;
    } else {
      UpperRows32();
      assert h == 8 || h == 9 || h == 10 || h == 11 || h == 12 || h == 13 || h == 14 || h == 15;
    }
  }

  /** Every entry is the entry of its leading bits, one bit on. */
  lemma {:induction false} Next32(n: nat)
    requires n < 256
    ensures Table32(0) == 0 && Table32(n) == StepUp(0x04C11DB7, 0x8000_0000, Table32(n / 2), n % 2 == 1)
  {
    hide Row32, StepUp, EntryAt;
    Entry32(n / 16, n % 16);
    HalfSplit(n);
    First32();
  }

  lemma {:induction false} Entry32(h: nat, l: nat)
    requires h < 16 && l < 16
    ensures EntryAt(Row32(h), l)
            == StepUp(0x04C11DB7, 0x8000_0000, EntryAt(Row32(h / 2), l / 2 + if h % 2 == 1 then 8 else 0), l % 2 == 1)
  {
    hide Row32, Grown, StepUp, EntryAt;
    AllRows32(h);
    GrownAt(0x04C11DB7, 0x8000_0000, Row32(h / 2), h % 2 == 1, l);
  }

  lemma {:induction false} First32()
    ensures Table32(0) == 0
  {
  }

  /** The table of crc16, polynomial 0x8005: entries 16 * h to 16 * h + 15. */
  function Row16(h: nat): Row {
    if h < 8 then
      if h < 4 then
        if h < 2 then
          if h < 1 then
            Row(0x0000, 0x8005, 0x800F, 0x000A, 0x801B, 0x001E, 0x0014, 0x8011,
                0x8033, 0x0036, 0x003C, 0x8039, 0x0028, 0x802D, 0x8027, 0x0022)
          else
            Row(0x8063, 0x0066, 0x006C, 0x8069, 0x0078, 0x807D, 0x8077, 0x0072,
                0x0050, 0x8055, 0x805F, 0x005A, 0x804B, 0x004E, 0x0044, 0x8041)
        else
          if h < 3 then
            Row(0x80C3, 0x00C6, 0x00CC, 0x80C9, 0x00D8, 0x80DD, 0x80D7, 0x00D2,
                0x00F0, 0x80F5, 0x80FF, 0x00FA, 0x80EB, 0x00EE, 0x00E4, 0x80E1)
          else
            Row(0x00A0, 0x80A5, 0x80AF, 0x00AA, 0x80BB, 0x00BE, 0x00B4, 0x80B1,
                0x8093, 0x0096, 0x009C, 0x8099, 0x0088, 0x808D, 0x8087, 0x0082)
      else
        if h < 6 then
          if h < 5 then
            Row(0x8183, 0x0186, 0x018C, 0x8189, 0x0198, 0x819D, 0x8197, 0x0192,
                0x01B0, 0x81B5, 0x81BF, 0x01BA, 0x81AB, 0x01AE, 0x01A4, 0x81A1)
          else
            Row(0x01E0, 0x81E5, 0x81EF, 0x01EA, 0x81FB, 0x01FE, 0x01F4, 0x81F1,
                0x81D3, 0x01D6, 0x01DC, 0x81D9, 0x01C8, 0x81CD, 0x81C7, 0x01C2)
        else
          if h < 7 then
            Row(0x0140, 0x8145, 0x814F, 0x014A, 0x815B, 0x015E, 0x0154, 0x8151,
                0x8173, 0x0176, 0x017C, 0x8179, 0x0168, 0x816D, 0x8167, 0x0162)
          else
            Row(0x8123, 0x0126, 0x012C, 0x8129, 0x0138, 0x813D, 0x8137, 0x0132,
                0x0110, 0x8115, 0x811F, 0x011A, 0x810B, 0x010E, 0x0104, 0x8101)
    else
      if h < 12 then
        if h < 10 then
          if h < 9 then
            Row(0x8303, 0x0306, 0x030C, 0x8309, 0x0318, 0x831D, 0x8317, 0x0312,
                0x0330, 0x8335, 0x833F, 0x033A, 0x832B, 0x032E, 0x0324, 0x8321)
          else
            Row(0x0360, 0x8365, 0x836F, 0x036A, 0x837B, 0x037E, 0x0374, 0x8371,
                0x8353, 0x0356, 0x035C, 0x8359, 0x0348, 0x834D, 0x8347, 0x0342)
        else
          if h < 11 then
            Row(0x03C0, 0x83C5, 0x83CF, 0x03CA, 0x83DB, 0x03DE, 0x03D4, 0x83D1,
                0x83F3, 0x03F6, 0x03FC, 0x83F9, 0x03E8, 0x83ED, 0x83E7, 0x03E2)
          else
            Row(0x83A3, 0x03A6, 0x03AC, 0x83A9, 0x03B8, 0x83BD, 0x83B7, 0x03B2,
                0x0390, 0x8395, 0x839F, 0x039A, 0x838B, 0x038E, 0x0384, 0x8381)
      else
        if h < 14 then
          if h < 13 then
            Row(0x0280, 0x8285, 0x828F, 0x028A, 0x829B, 0x029E, 0x0294, 0x8291,
                0x82B3, 0x02B6, 0x02BC, 0x82B9, 0x02A8, 0x82AD, 0x82A7, 0x02A2)
          else
            Row(0x82E3, 0x02E6, 0x02EC, 0x82E9, 0x02F8, 0x82FD, 0x82F7, 0x02F2,
                0x02D0, 0x82D5, 0x82DF, 0x02DA, 0x82CB, 0x02CE, 0x02C4, 0x82C1)
        else
          if h < 15 then
            Row(0x8243, 0x0246, 0x024C, 0x8249, 0x0258, 0x825D, 0x8257, 0x0252,
                0x0270, 0x8275, 0x827F, 0x027A, 0x826B, 0x026E, 0x0264, 0x8261)
          else
            Row(0x0220, 0x8225, 0x822F, 0x022A, 0x823B, 0x023E, 0x0234, 0x8231,
                0x8213, 0x0216, 0x021C, 0x8219, 0x0208, 0x820D, 0x8207, 0x0202)
  }

  function Table16(n: nat): bv32 { EntryAt(Row16(n / 16), n % 16) }

  predicate Grows16(h: nat) { Row16(h) == Grown(0x8005, 0x8000, Row16(h / 2), h % 2 == 1) }

  lemma {:induction false} LowerRows16()
    ensures Grows16(0) && Grows16(1) && Grows16(2) && Grows16(3)
    ensures Grows16(4) && Grows16(5) && Grows16(6) && Grows16(7)
  {
  }

  lemma {:induction false} UpperRows16()
    ensures Grows16(8) && Grows16(9) && Grows16(10) && Grows16(11)
    ensures Grows16(12) && Grows16(13) && Grows16(14) && Grows16(15)
  {
  }

  lemma {:induction false} AllRows16(h: nat)
    requires h < 16
    ensures Grows16(h)
  {
    hide *;
    if h < 8 {
      LowerRows16();
      assert h == 0 || h == 1 || h == 2 || h == 3 || h == 4 || h == 5 || h == 6 || h == 7;
    } else {
      UpperRows16();
      assert h == 8 || h == 9 || h == 10 || h == 11 || h == 12 || h == 13 || h == 14 || h == 15;
    }
  }

  /** Every entry is the entry of its leading bits, one bit on. */
  lemma {:induction false} Next16(n: nat)
    requires n < 256
    ensures Table16(0) == 0 && Table16(n) == StepUp(0x8005, 0x8000, Table16(n / 2), n % 2 == 1)
  {
    hide Row16, StepUp, EntryAt;
    Entry16(n / 16, n % 16);
    HalfSplit(n);
    First16();
  }

  lemma {:induction false} Entry16(h: nat, l: nat)
    requires h < 16 && l < 16
    ensures EntryAt(Row16(h), l)
            == StepUp(0x8005, 0x8000, EntryAt(Row16(h / 2), l / 2 + if h % 2 == 1 then 8 else 0), l % 2 == 1)
  {
    hide Row16, Grown, StepUp, EntryAt;
    AllRows16(h);
    GrownAt(0x8005, 0x8000, Row16(h / 2), h % 2 == 1, l);
  }

  lemma {:induction false} First16()
    ensures Table16(0) == 0
  {
  }

  /** The table of crc8, polynomial 0x07: entries 16 * h to 16 * h + 15. */
  function Row8(h: nat): Row {
    if h < 8 then
      if h < 4 then
        if h < 2 then
          if h < 1 then
            Row(0x00, 0x07, 0x0E, 0x09, 0x1C, 0x1B, 0x12, 0x15, 0x38, 0x3F, 0x36, 0x31, 0x24, 0x23, 0x2A, 0x2D)
          else
            Row(0x70, 0x77, 0x7E, 0x79, 0x6C, 0x6B, 0x62, 0x65, 0x48, 0x4F, 0x46, 0x41, 0x54, 0x53, 0x5A, 0x5D)
        else
          if h < 3 then
            Row(0xE0, 0xE7, 0xEE, 0xE9, 0xFC, 0xFB, 0xF2, 0xF5, 0xD8, 0xDF, 0xD6, 0xD1, 0xC4, 0xC3, 0xCA, 0xCD)
          else
            Row(0x90, 0x97, 0x9E, 0x99, 0x8C, 0x8B, 0x82, 0x85, 0xA8, 0xAF, 0xA6, 0xA1, 0xB4, 0xB3, 0xBA, 0xBD)
      else
        if h < 6 then
          if h < 5 then
            Row(0xC7, 0xC0, 0xC9, 0xCE, 0xDB, 0xDC, 0xD5, 0xD2, 0xFF, 0xF8, 0xF1, 0xF6, 0xE3, 0xE4, 0xED, 0xEA)
          else
            Row(0xB7, 0xB0, 0xB9, 0xBE, 0xAB, 0xAC, 0xA5, 0xA2, 0x8F, 0x88, 0x81, 0x86, 0x93, 0x94, 0x9D, 0x9A)
        else
          if h < 7 then
            Row(0x27, 0x20, 0x29, 0x2E, 0x3B, 0x3C, 0x35, 0x32, 0x1F, 0x18, 0x11, 0x16, 0x03, 0x04, 0x0D, 0x0A)
          else
            Row(0x57, 0x50, 0x59, 0x5E, 0x4B, 0x4C, 0x45, 0x42, 0x6F, 0x68, 0x61, 0x66, 0x73, 0x74, 0x7D, 0x7A)
    else
      if h < 12 then
        if h < 10 then
          if h < 9 then
            Row(0x89, 0x8E, 0x87, 0x80, 0x95, 0x92, 0x9B, 0x9C, 0xB1, 0xB6, 0xBF, 0xB8, 0xAD, 0xAA, 0xA3, 0xA4)
          else
            Row(0xF9, 0xFE, 0xF7, 0xF0, 0xE5, 0xE2, 0xEB, 0xEC, 0xC1, 0xC6, 0xCF, 0xC8, 0xDD, 0xDA, 0xD3, 0xD4)
        else
          if h < 11 then
            Row(0x69, 0x6E, 0x67, 0x60, 0x75, 0x72, 0x7B, 0x7C, 0x51, 0x56, 0x5F, 0x58, 0x4D, 0x4A, 0x43, 0x44)
          else
            Row(0x19, 0x1E, 0x17, 0x10, 0x05, 0x02, 0x0B, 0x0C, 0x21, 0x26, 0x2F, 0x28, 0x3D, 0x3A, 0x33, 0x34)
      else
        if h < 14 then
          if h < 13 then
            Row(0x4E, 0x49, 0x40, 0x47, 0x52, 0x55, 0x5C, 0x5B, 0x76, 0x71, 0x78, 0x7F, 0x6A, 0x6D, 0x64, 0x63)
          else
            Row(0x3E, 0x39, 0x30, 0x37, 0x22, 0x25, 0x2C, 0x2B, 0x06, 0x01, 0x08, 0x0F, 0x1A, 0x1D, 0x14, 0x13)
        else
          if h < 15 then
            Row(0xAE, 0xA9, 0xA0, 0xA7, 0xB2, 0xB5, 0xBC, 0xBB, 0x96, 0x91, 0x98, 0x9F, 0x8A, 0x8D, 0x84, 0x83)
          else
            Row(0xDE, 0xD9, 0xD0, 0xD7, 0xC2, 0xC5, 0xCC, 0xCB, 0xE6, 0xE1, 0xE8, 0xEF, 0xFA, 0xFD, 0xF4, 0xF3)
  }

  function Table8(n: nat): bv32 { EntryAt(Row8(n / 16), n % 16) }

  predicate Grows8(h: nat) { Row8(h) == Grown(0x07, 0x80, Row8(h / 2), h % 2 == 1) }

  lemma {:induction false} LowerRows8()
    ensures Grows8(0) && Grows8(1) && Grows8(2) && Grows8(3)
    ensures Grows8(4) && Grows8(5) && Grows8(6) && Grows8(7)
  {
  }

  lemma {:induction false} UpperRows8()
    ensures Grows8(8) && Grows8(9) && Grows8(10) && Grows8(11)
    ensures Grows8(12) && Grows8(13) && Grows8(14) && Grows8(15)
  {
  }

  lemma {:induction false} AllRows8(h: nat)
    requires h < 16
    ensures Grows8(h)
  {
    hide *;
    if h < 8 {
      LowerRows8();
      assert h == 0 || h == 1 || h == 2 || h == 3 || h == 4 || h == 5 || h == 6 || h == 7;
    } else {
      UpperRows8();
      assert h == 8 || h == 9 || h == 10 || h == 11 || h == 12 || h == 13 || h == 14 || h == 15;
    }
  }

  /** Every entry is the entry of its leading bits, one bit on. */
  lemma {:induction false} Next8(n: nat)
    requires n < 256
    ensures Table8(0) == 0 && Table8(n) == StepUp(0x07, 0x80, Table8(n / 2), n % 2 == 1)
  {
    hide Row8, StepUp, EntryAt;
    Entry8(n / 16, n % 16);
    HalfSplit(n);
    First8();
  }

  lemma {:induction false} Entry8(h: nat, l: nat)
    requires h < 16 && l < 16
    ensures EntryAt(Row8(h), l)
            == StepUp(0x07, 0x80, EntryAt(Row8(h / 2), l / 2 + if h % 2 == 1 then 8 else 0), l % 2 == 1)
  {
    hide Row8, Grown, StepUp, EntryAt;
    AllRows8(h);
    GrownAt(0x07, 0x80, Row8(h / 2), h % 2 == 1, l);
  }

  lemma {:induction false} First8()
    ensures Table8(0) == 0
  {
  }

  /** The table of crc32LE, the polynomial of crc32c with its bits reversed. */
  function RowReflected(h: nat): Row {
    if h < 8 then
      if h < 4 then
        if h < 2 then
          if h < 1 then
            Row(0x00000000, 0x77073096, 0xEE0E612C, 0x990951BA, 0x076DC419, 0x706AF48F, 0xE963A535, 0x9E6495A3,
                0x0EDB8832, 0x79DCB8A4, 0xE0D5E91E, 0x97D2D988, 0x09B64C2B, 0x7EB17CBD, 0xE7B82D07, 0x90BF1D91)
          else
            Row(0x1DB71064, 0x6AB020F2, 0xF3B97148, 0x84BE41DE, 0x1ADAD47D, 0x6DDDE4EB, 0xF4D4B551, 0x83D385C7,
                0x136C9856, 0x646BA8C0, 0xFD62F97A, 0x8A65C9EC, 0x14015C4F, 0x63066CD9, 0xFA0F3D63, 0x8D080DF5)
        else
          if h < 3 then
            Row(0x3B6E20C8, 0x4C69105E, 0xD56041E4, 0xA2677172, 0x3C03E4D1, 0x4B04D447, 0xD20D85FD, 0xA50AB56B,
                0x35B5A8FA, 0x42B2986C, 0xDBBBC9D6, 0xACBCF940, 0x32D86CE3, 0x45DF5C75, 0xDCD60DCF, 0xABD13D59)
          else
            Row(0x26D930AC, 0x51DE003A, 0xC8D75180, 0xBFD06116, 0x21B4F4B5, 0x56B3C423, 0xCFBA9599, 0xB8BDA50F,
                0x2802B89E, 0x5F058808, 0xC60CD9B2, 0xB10BE924, 0x2F6F7C87, 0x58684C11, 0xC1611DAB, 0xB6662D3D)
      else
        if h < 6 then
          if h < 5 then
            Row(0x76DC4190, 0x01DB7106, 0x98D220BC, 0xEFD5102A, 0x71B18589, 0x06B6B51F, 0x9FBFE4A5, 0xE8B8D433,
                0x7807C9A2, 0x0F00F934, 0x9609A88E, 0xE10E9818, 0x7F6A0DBB, 0x086D3D2D, 0x91646C97, 0xE6635C01)
          else
            Row(0x6B6B51F4, 0x1C6C6162, 0x856530D8, 0xF262004E, 0x6C0695ED, 0x1B01A57B, 0x8208F4C1, 0xF50FC457,
                0x65B0D9C6, 0x12B7E950, 0x8BBEB8EA, 0xFCB9887C, 0x62DD1DDF, 0x15DA2D49, 0x8CD37CF3, 0xFBD44C65)
        else
          if h < 7 then
            Row(0x4DB26158, 0x3AB551CE, 0xA3BC0074, 0xD4BB30E2, 0x4ADFA541, 0x3DD895D7, 0xA4D1C46D, 0xD3D6F4FB,
                0x4369E96A, 0x346ED9FC, 0xAD678846, 0xDA60B8D0, 0x44042D73, 0x33031DE5, 0xAA0A4C5F, 0xDD0D7CC9)
          else
            Row(0x5005713C, 0x270241AA, 0xBE0B1010, 0xC90C2086, 0x5768B525, 0x206F85B3, 0xB966D409, 0xCE61E49F,
                0x5EDEF90E, 0x29D9C998, 0xB0D09822, 0xC7D7A8B4, 0x59B33D17, 0x2EB40D81, 0xB7BD5C3B, 0xC0BA6CAD)
    else
      if h < 12 then
        if h < 10 then
          if h < 9 then
            Row(0xEDB88320, 0x9ABFB3B6, 0x03B6E20C, 0x74B1D29A, 0xEAD54739, 0x9DD277AF, 0x04DB2615, 0x73DC1683,
                0xE3630B12, 0x94643B84, 0x0D6D6A3E, 0x7A6A5AA8, 0xE40ECF0B, 0x9309FF9D, 0x0A00AE27, 0x7D079EB1)
          else
            Row(0xF00F9344, 0x8708A3D2, 0x1E01F268, 0x6906C2FE, 0xF762575D, 0x806567CB, 0x196C3671, 0x6E6B06E7,
                0xFED41B76, 0x89D32BE0, 0x10DA7A5A, 0x67DD4ACC, 0xF9B9DF6F, 0x8EBEEFF9, 0x17B7BE43, 0x60B08ED5)
        else
          if h < 11 then
            Row(0xD6D6A3E8, 0xA1D1937E, 0x38D8C2C4, 0x4FDFF252, 0xD1BB67F1, 0xA6BC5767, 0x3FB506DD, 0x48B2364B,
                0xD80D2BDA, 0xAF0A1B4C, 0x36034AF6, 0x41047A60, 0xDF60EFC3, 0xA867DF55, 0x316E8EEF, 0x4669BE79)
          else
            Row(0xCB61B38C, 0xBC66831A, 0x256FD2A0, 0x5268E236, 0xCC0C7795, 0xBB0B4703, 0x220216B9, 0x5505262F,
                0xC5BA3BBE, 0xB2BD0B28, 0x2BB45A92, 0x5CB36A04, 0xC2D7FFA7, 0xB5D0CF31, 0x2CD99E8B, 0x5BDEAE1D)
      else
        if h < 14 then
          if h < 13 then
            Row(0x9B64C2B0, 0xEC63F226, 0x756AA39C, 0x026D930A, 0x9C0906A9, 0xEB0E363F, 0x72076785, 0x05005713,
                0x95BF4A82, 0xE2B87A14, 0x7BB12BAE, 0x0CB61B38, 0x92D28E9B, 0xE5D5BE0D, 0x7CDCEFB7, 0x0BDBDF21)
          else
            Row(0x86D3D2D4, 0xF1D4E242, 0x68DDB3F8, 0x1FDA836E, 0x81BE16CD, 0xF6B9265B, 0x6FB077E1, 0x18B74777,
                0x88085AE6, 0xFF0F6A70, 0x66063BCA, 0x11010B5C, 0x8F659EFF, 0xF862AE69, 0x616BFFD3, 0x166CCF45)
        else
          if h < 15 then
            Row(0xA00AE278, 0xD70DD2EE, 0x4E048354, 0x3903B3C2, 0xA7672661, 0xD06016F7, 0x4969474D, 0x3E6E77DB,
                0xAED16A4A, 0xD9D65ADC, 0x40DF0B66, 0x37D83BF0, 0xA9BCAE53, 0xDEBB9EC5, 0x47B2CF7F, 0x30B5FFE9)
          else
            Row(0xBDBDF21C, 0xCABAC28A, 0x53B39330, 0x24B4A3A6, 0xBAD03605, 0xCDD70693, 0x54DE5729, 0x23D967BF,
                0xB3667A2E, 0xC4614AB8, 0x5D681B02, 0x2A6F2B94, 0xB40BBE37, 0xC30C8EA1, 0x5A05DF1B, 0x2D02EF8D)
  }

  function TableReflected(n: nat): bv32 { EntryAt(RowReflected(n / 16), n % 16) }

  predicate GrowsReflected(h: nat) {
    var twice := if h < 8 then 2 * h else 2 * h - 16;
    RowReflected(h) == GrownDown(RowReflected(twice), RowReflected(twice + 1), h >= 8)
  }

  lemma {:induction false} LowerRowsReflected()
    ensures GrowsReflected(0) && GrowsReflected(1) && GrowsReflected(2) && GrowsReflected(3)
    ensures GrowsReflected(4) && GrowsReflected(5) && GrowsReflected(6) && GrowsReflected(7)
  {
  }

  lemma {:induction false} UpperRowsReflected()
    ensures GrowsReflected(8) && GrowsReflected(9) && GrowsReflected(10) && GrowsReflected(11)
    ensures GrowsReflected(12) && GrowsReflected(13) && GrowsReflected(14) && GrowsReflected(15)
  {
  }

  lemma {:induction false} AllRowsReflected(h: nat)
    requires h < 16
    ensures GrowsReflected(h)
  {
    hide *;
    if h < 8 {
      LowerRowsReflected();
      assert h == 0 || h == 1 || h == 2 || h == 3 || h == 4 || h == 5 || h == 6 || h == 7;
    } else {
      UpperRowsReflected();
      assert h == 8 || h == 9 || h == 10 || h == 11 || h == 12 || h == 13 || h == 14 || h == 15;
    }
  }

  /** Twice an index, within a byte. */
  function Twice(n: nat): nat { if n < 128 then 2 * n else if n < 256 then 2 * n - 256 else 0 }

  /** The bits of an index come in from its lowest to its highest. */
  lemma {:induction false} NextReflected(n: nat)
    requires n < 256
    ensures TableReflected(0) == 0 && TableReflected(n) == StepDown(TableReflected(Twice(n)), n >= 128)
  {
    hide RowReflected, StepDown, EntryAt, Twice;
    ReflectedEntry(n / 16, n % 16);
    TwiceSplit(n);
    FirstReflected();
  }

  lemma {:induction false} ReflectedEntry(h: nat, l: nat)
    requires h < 16 && l < 16
    ensures var twice := if h < 8 then 2 * h else 2 * h - 16;
            EntryAt(RowReflected(h), l)
            == StepDown(if l < 8 then EntryAt(RowReflected(twice), 2 * l) else EntryAt(RowReflected(twice + 1), 2 * l - 16),
                        h >= 8)
  {
    hide RowReflected, GrownDown, StepDown, EntryAt;
    var twice := if h < 8 then 2 * h else 2 * h - 16;
    AllRowsReflected(h);
    GrownDownAt(RowReflected(twice), RowReflected(twice + 1), h >= 8, l);
  }

  lemma {:induction false} TwiceSplit(n: nat)
    requires n < 256
    ensures var h, l := n / 16, n % 16; var twice := if h < 8 then 2 * h else 2 * h - 16;
            && Twice(n) / 16 == (if l < 8 then twice else twice + 1)
            && Twice(n) % 16 == (if l < 8 then 2 * l else 2 * l - 16) && (n >= 128 <==> h >= 8)
  {
  }

  lemma {:induction false} FirstReflected()
    ensures TableReflected(0) == 0
  {
  }

  /** The table of crc32. */
  function RowSwapped(h: nat): Row {
    if h < 8 then
      if h < 4 then
        if h < 2 then
          if h < 1 then
            Row(0x00000000, 0xB71DC104, 0x6E3B8209, 0xD926430D, 0xDC760413, 0x6B6BC517, 0xB24D861A, 0x0550471E,
                0xB8ED0826, 0x0FF0C922, 0xD6D68A2F, 0x61CB4B2B, 0x649B0C35, 0xD386CD31, 0x0AA08E3C, 0xBDBD4F38)
          else
            Row(0x70DB114C, 0xC7C6D048, 0x1EE09345, 0xA9FD5241, 0xACAD155F, 0x1BB0D45B, 0xC2969756, 0x758B5652,
                0xC836196A, 0x7F2BD86E, 0xA60D9B63, 0x11105A67, 0x14401D79, 0xA35DDC7D, 0x7A7B9F70, 0xCD665E74)
        else
          if h < 3 then
            Row(0xE0B62398, 0x57ABE29C, 0x8E8DA191, 0x39906095, 0x3CC0278B, 0x8BDDE68F, 0x52FBA582, 0xE5E66486,
                0x585B2BBE, 0xEF46EABA, 0x3660A9B7, 0x817D68B3, 0x842D2FAD, 0x3330EEA9, 0xEA16ADA4, 0x5D0B6CA0)
          else
            Row(0x906D32D4, 0x2770F3D0, 0xFE56B0DD, 0x494B71D9, 0x4C1B36C7, 0xFB06F7C3, 0x2220B4CE, 0x953D75CA,
                0x28803AF2, 0x9F9DFBF6, 0x46BBB8FB, 0xF1A679FF, 0xF4F63EE1, 0x43EBFFE5, 0x9ACDBCE8, 0x2DD07DEC)
      else
        if h < 6 then
          if h < 5 then
            Row(0x77708634, 0xC06D4730, 0x194B043D, 0xAE56C539, 0xAB068227, 0x1C1B4323, 0xC53D002E, 0x7220C12A,
                0xCF9D8E12, 0x78804F16, 0xA1A60C1B, 0x16BBCD1F, 0x13EB8A01, 0xA4F64B05, 0x7DD00808, 0xCACDC90C)
          else
            Row(0x07AB9778, 0xB0B6567C, 0x69901571, 0xDE8DD475, 0xDBDD936B, 0x6CC0526F, 0xB5E61162, 0x02FBD066,
                0xBF469F5E, 0x085B5E5A, 0xD17D1D57, 0x6660DC53, 0x63309B4D, 0xD42D5A49, 0x0D0B1944, 0xBA16D840)
        else
          if h < 7 then
            Row(0x97C6A5AC, 0x20DB64A8, 0xF9FD27A5, 0x4EE0E6A1, 0x4BB0A1BF, 0xFCAD60BB, 0x258B23B6, 0x9296E2B2,
                0x2F2BAD8A, 0x98366C8E, 0x41102F83, 0xF60DEE87, 0xF35DA999, 0x4440689D, 0x9D662B90, 0x2A7BEA94)
          else
            Row(0xE71DB4E0, 0x500075E4, 0x892636E9, 0x3E3BF7ED, 0x3B6BB0F3, 0x8C7671F7, 0x555032FA, 0xE24DF3FE,
                0x5FF0BCC6, 0xE8ED7DC2, 0x31CB3ECF, 0x86D6FFCB, 0x8386B8D5, 0x349B79D1, 0xEDBD3ADC, 0x5AA0FBD8)
    else
      if h < 12 then
        if h < 10 then
          if h < 9 then
            Row(0xEEE00C69, 0x59FDCD6D, 0x80DB8E60, 0x37C64F64, 0x3296087A, 0x858BC97E, 0x5CAD8A73, 0xEBB04B77,
                0x560D044F, 0xE110C54B, 0x38368646, 0x8F2B4742, 0x8A7B005C, 0x3D66C158, 0xE4408255, 0x535D4351)
          else
            Row(0x9E3B1D25, 0x2926DC21, 0xF0009F2C, 0x471D5E28, 0x424D1936, 0xF550D832, 0x2C769B3F, 0x9B6B5A3B,
                0x26D61503, 0x91CBD407, 0x48ED970A, 0xFFF0560E, 0xFAA01110, 0x4DBDD014, 0x949B9319, 0x2386521D)
        else
          if h < 11 then
            Row(0x0E562FF1, 0xB94BEEF5, 0x606DADF8, 0xD7706CFC, 0xD2202BE2, 0x653DEAE6, 0xBC1BA9EB, 0x0B0668EF,
                0xB6BB27D7, 0x01A6E6D3, 0xD880A5DE, 0x6F9D64DA, 0x6ACD23C4, 0xDDD0E2C0, 0x04F6A1CD, 0xB3EB60C9)
          else
            Row(0x7E8D3EBD, 0xC990FFB9, 0x10B6BCB4, 0xA7AB7DB0, 0xA2FB3AAE, 0x15E6FBAA, 0xCCC0B8A7, 0x7BDD79A3,
                0xC660369B, 0x717DF79F, 0xA85BB492, 0x1F467596, 0x1A163288, 0xAD0BF38C, 0x742DB081, 0xC3307185)
      else
        if h < 14 then
          if h < 13 then
            Row(0x99908A5D, 0x2E8D4B59, 0xF7AB0854, 0x40B6C950, 0x45E68E4E, 0xF2FB4F4A, 0x2BDD0C47, 0x9CC0CD43,
                0x217D827B, 0x9660437F, 0x4F460072, 0xF85BC176, 0xFD0B8668, 0x4A16476C, 0x93300461, 0x242DC565)
          else
            Row(0xE94B9B11, 0x5E565A15, 0x87701918, 0x306DD81C, 0x353D9F02, 0x82205E06, 0x5B061D0B, 0xEC1BDC0F,
                0x51A69337, 0xE6BB5233, 0x3F9D113E, 0x8880D03A, 0x8DD09724, 0x3ACD5620, 0xE3EB152D, 0x54F6D429)
        else
          if h < 15 then
            Row(0x7926A9C5, 0xCE3B68C1, 0x171D2BCC, 0xA000EAC8, 0xA550ADD6, 0x124D6CD2, 0xCB6B2FDF, 0x7C76EEDB,
                0xC1CBA1E3, 0x76D660E7, 0xAFF023EA, 0x18EDE2EE, 0x1DBDA5F0, 0xAAA064F4, 0x738627F9, 0xC49BE6FD)
          else
            Row(0x09FDB889, 0xBEE0798D, 0x67C63A80, 0xD0DBFB84, 0xD58BBC9A, 0x62967D9E, 0xBBB03E93, 0x0CADFF97,
                0xB110B0AF, 0x060D71AB, 0xDF2B32A6, 0x6836F3A2, 0x6D66B4BC, 0xDA7B75B8, 0x035D36B5, 0xB440F7B1)
  }

  function TableSwapped(n: nat): bv32 { EntryAt(RowSwapped(n / 16), n % 16) }

  predicate IsSwapped(h: nat) { RowSwapped(h) == SwappedRow(Row32(h)) }

  lemma {:induction false} LowerRowsSwapped()
    ensures IsSwapped(0) && IsSwapped(1) && IsSwapped(2) && IsSwapped(3)
    ensures IsSwapped(4) && IsSwapped(5) && IsSwapped(6) && IsSwapped(7)
  {
  }

  lemma {:induction false} UpperRowsSwapped()
    ensures IsSwapped(8) && IsSwapped(9) && IsSwapped(10) && IsSwapped(11)
    ensures IsSwapped(12) && IsSwapped(13) && IsSwapped(14) && IsSwapped(15)
  {
  }

  lemma {:induction false} AllRowsSwapped(h: nat)
    requires h < 16
    ensures IsSwapped(h)
  {
    hide *;
    if h < 8 {
      LowerRowsSwapped();
      assert h == 0 || h == 1 || h == 2 || h == 3 || h == 4 || h == 5 || h == 6 || h == 7;
    } else {
      UpperRowsSwapped();
      assert h == 8 || h == 9 || h == 10 || h == 11 || h == 12 || h == 13 || h == 14 || h == 15;
    }
  }

  lemma {:induction false} EntrySwapped(n: nat)
    requires n < 256
    ensures TableSwapped(n) == Swap(Table32(n))
  {
    hide RowSwapped, Row32, SwappedRow, Swap, EntryAt;
    AllRowsSwapped(n / 16);
    SwappedAt(Row32(n / 16), n % 16);
  }
}
