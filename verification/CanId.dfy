/** The 29-bit CAN identifier of NMEA 2000 (section 5.2 of SAE J1939-21). The fields the source
    shifts and masks do not overlap, so they are written here as quotients, remainders and sums. */
module CanId {
  import opened Bytes

  type uint32 = x: nat | x < 0x1_0000_0000

  datatype CANHeader = CANHeader(priority: byte, pgn: uint32, source: byte, destination: byte)

  /** The fields of an identifier, from its top bits down. */
  datatype Fields = Fields(top: nat, reserved: nat, dp: nat, pf: nat, ps: nat, source: nat)

  predicate InRange(f: Fields) {
    f.top < 64 && f.reserved < 2 && f.dp < 2 && f.pf < 256 && f.ps < 256 && f.source < 256
  }

  /** Shifting right in steps: 8, 16, 24, 25 and 26 bits. */
  function Split(id: uint32): (f: Fields)
    ensures InRange(f) && Join(f) == id
  {
    var q8 := id / 256;
    var q16 := q8 / 256;
    var q24 := q16 / 256;
    var q25 := q24 / 2;
    Fields(q25 / 2, q25 % 2, q24 % 2, q16 % 256, q8 % 256, id % 256)
  }

  function Join(f: Fields): nat {
    ((((f.top * 2 + f.reserved) * 2 + f.dp) * 256 + f.pf) * 256 + f.ps) * 256 + f.source
  }

  lemma SplitJoin(f: Fields)
    requires InRange(f)
    ensures Join(f) < 0x1_0000_0000 && Split(Join(f)) == f
  {
    var q25 := f.top * 2 + f.reserved;
    var q24 := q25 * 2 + f.dp;
    var q16 := q24 * 256 + f.pf;
    var q8 := q16 * 256 + f.ps;
    assert Join(f) / 256 == q8 && q8 / 256 == q16 && q16 / 256 == q24 && q24 / 2 == q25;
  }

  function ParseCANID(id: uint32): CANHeader {
    HeaderFrom(Split(id))
  }

  function HeaderFrom(f: Fields): CANHeader
    requires InRange(f)
  {
    if f.pf >= 240 then CANHeader(f.top % 8, (f.dp * 256 + f.pf) * 256 + f.ps, f.source, 0xFF)
    else CANHeader(f.top % 8, (f.dp * 256 + f.pf) * 256, f.source, f.ps)
  }

  /** A priority above 63 would lose its high bits to the 32-bit shift. */
  function BuildFields(h: CANHeader): (f: Fields)
    ensures InRange(f)
  {
    var pf := h.pgn / 256 % 256;
    Fields(h.priority % 64, 0, h.pgn / 256 / 256 % 2, pf, if pf >= 240 then h.pgn % 256 else h.destination, h.source)
  }

  function BuildCANID(h: CANHeader): uint32 {
    SplitJoin(BuildFields(h));
    Join(BuildFields(h))
  }

  /** A header an identifier can carry: three priority bits, a 17-bit PGN, broadcast destination
      for PDU2 and an empty low PGN byte for PDU1. */
  predicate ValidHeader(h: CANHeader) {
    && h.priority < 8
    && h.pgn < 0x2_0000
    && (if h.pgn / 256 % 256 >= 240 then h.destination == 0xFF else h.pgn % 256 == 0)
  }

  /** Parsing undoes building on exactly the valid headers. */
  lemma ParseBuild(h: CANHeader)
    ensures ParseCANID(BuildCANID(h)) == h <==> ValidHeader(h)
  {
    SplitJoin(BuildFields(h));
    FieldsCarry(h);
  }

  lemma FieldsCarry(h: CANHeader)
    ensures HeaderFrom(BuildFields(h)) == h <==> ValidHeader(h)
  {
    var q := h.pgn / 256;
    assert h.pgn == q / 256 * 65536 + q % 256 * 256 + h.pgn % 256;
  }

  /** Building undoes parsing on exactly the 29-bit identifiers with a clear reserved bit. */
  lemma BuildParse(id: uint32)
    ensures BuildCANID(ParseCANID(id)) == id <==> Split(id).top < 8 && Split(id).reserved == 0
  {
    var f := Split(id);
    var g := BuildFields(ParseCANID(id));
    HeaderCarries(f);
    SplitJoin(f);
    SplitJoin(g);
    assert Join(f) == Join(g) <==> f == g;
  }

  lemma HeaderCarries(f: Fields)
    requires InRange(f)
    ensures BuildFields(HeaderFrom(f)) == Fields(f.top % 8, 0, f.dp, f.pf, f.ps, f.source)
  {
  }

  /** A broadcast, an addressed and a data-page identifier, taken apart and put together. */
  lemma KnownIdentifiers()
    ensures ParseCANID(0x09F8_0123) == CANHeader(2, 129025, 0x23, 0xFF)
    ensures ParseCANID(0x18EA_0501) == CANHeader(6, 0xEA00, 0x01, 0x05)
    ensures ParseCANID(0x0DF1_1923) == CANHeader(3, 0x1F119, 0x23, 0xFF)
    ensures BuildCANID(CANHeader(6, 0xEA00, 0x01, 0x05)) == 0x18EA_0501
  {
    assert 0x09F8_0123 == Join(Fields(2, 0, 1, 0xF8, 0x01, 0x23));
    SplitJoin(Fields(2, 0, 1, 0xF8, 0x01, 0x23));
    assert 0x18EA_0501 == Join(Fields(6, 0, 0, 0xEA, 0x05, 0x01));
    SplitJoin(Fields(6, 0, 0, 0xEA, 0x05, 0x01));
    assert 0x0DF1_1923 == Join(Fields(3, 0, 1, 0xF1, 0x19, 0x23));
    SplitJoin(Fields(3, 0, 1, 0xF1, 0x19, 0x23));
  }

  /** The journal keeps bit 31 free for its own flag: no valid header reaches it. */
  lemma BuildLeavesFlag(h: CANHeader)
    requires ValidHeader(h)
    ensures BuildCANID(h) < 0x2000_0000
  {
  }
}
