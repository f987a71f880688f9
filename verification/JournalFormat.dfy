/** The byte layout of one journal block, as the writer lays it out and the reader takes it
    apart: base time and number, delta-encoded frames, free space, device table, trailer. */
module JournalFormat {
  import opened Bytes
  import opened CanId

  const TRAILER_LEN: nat := 10
  const DATA_OFFSET: nat := 16
  const DEVICE_ENTRY_MAX: nat := 147
  const FLAG: nat := 0x8000_0000

  /** A frame as the block stores it; times are microseconds in 64 bits. */
  datatype Frame = Frame(time: int, id: uint32, data: seq<byte>)

  /** A frame as read back, with its number. */
  datatype Entry = Entry(seqNo: nat, time: int, id: uint32, data: seq<byte>)

  predicate Int64(t: int) {
    -0x8000_0000_0000_0000 <= t < 0x8000_0000_0000_0000
  }

  function ToU64(t: int): (v: nat)
    requires Int64(t)
    ensures v < Pow256(8) && FromU64(v) == t
  {
    Pow256Constants();
    if t < 0 then t + 0x1_0000_0000_0000_0000 else t
  }

  function FromU64(v: nat): int {
    if v >= 0x8000_0000_0000_0000 then v - 0x1_0000_0000_0000_0000 else v
  }

  // ---- One frame ----

  /** The identifier with bit 31 saying that the payload has the standard eight bytes. */
  function StoredId(id: uint32, standard: bool): uint32 {
    if standard then id % FLAG + FLAG else id
  }

  function Payload(data: seq<byte>): seq<byte> {
    if |data| == 8 then data else PutUvarint(|data|) + data
  }

  function EncodeRaw(delta: nat, id: uint32, data: seq<byte>): seq<byte> {
    PutUvarint(delta) + (PutLE(StoredId(id, |data| == 8), 4) + Payload(data))
  }

  function EncodeFrame(delta: nat, f: Frame): seq<byte> {
    EncodeRaw(delta, f.id, f.data)
  }

  datatype Parsed = BadFrame | Parsed(delta: nat, id: uint32, data: seq<byte>, size: nat)

  /** Decoding the frame at the start of `s`, the frame area still unread. */
  function ParseFrame(s: seq<byte>): (p: Parsed)
    ensures p.Parsed? ==> 5 <= p.size <= |s|
  {
    match Uvarint(s)
    case Bad => BadFrame
    case Got(delta, n) =>
      match ParseBody(s[n..])
      case BadBody => BadFrame
      case GotBody(id, data, m) => Parsed(delta, id, data, n + m)
  }

  datatype Body = BadBody | GotBody(id: uint32, data: seq<byte>, size: nat)

  /** A frame after its time difference. */
  function ParseBody(s: seq<byte>): (p: Body)
    ensures p.GotBody? ==> 4 <= p.size <= |s|
  {
    if |s| < 4 then BadBody
    else
      var stored := GetId(s[..4]);
      match ParsePayload(s[4..], stored >= FLAG)
      case BadPayload => BadBody
      case GotPayload(data, m) => GotBody(stored % FLAG, data, 4 + m)
  }

  function GetId(s: seq<byte>): uint32
    requires |s| == 4
  {
    Pow256Constants();
    GetLE(s)
  }

  datatype ReadPayload = BadPayload | GotPayload(data: seq<byte>, size: nat)

  function ParsePayload(s: seq<byte>, standard: bool): (p: ReadPayload)
    ensures p.GotPayload? ==> p.size <= |s|
  {
    if standard then
      if |s| < 8 then BadPayload else GotPayload(s[..8], 8)
    else
      match Uvarint(s)
      case Bad => BadPayload
      case Got(len, m) =>
        if m + len > |s| then BadPayload else GotPayload(s[m..m + len], m + len)
  }

  predicate Encodable(f: Frame) {
    Int64(f.time) && f.id < FLAG && |f.data| < 0x1_0000_0000_0000_0000
  }

  // Each of these reads exactly what is wholly there: `s` is the encoding followed by anything, or
  // the encoding cut off anywhere.

  lemma PayloadReads(data: seq<byte>, s: seq<byte>)
    requires |data| < 0x1_0000_0000_0000_0000 && Agree(s, Payload(data))
    ensures ParsePayload(s, |data| == 8) ==
            if |Payload(data)| <= |s| then GotPayload(data, |Payload(data)|) else BadPayload
  {
    if |data| != 8 {
      var len := PutUvarint(|data|);
      AgreeSplit(len, data, s);
      if |len| <= |s| {
        Pow256Constants();
        UvarintPut(|data|, s);
        TextBehind(len, data, s);
      } else {
        UvarintCut(|data|, s);
      }
    }
  }

  lemma TextBehind(x: seq<byte>, y: seq<byte>, s: seq<byte>)
    requires |x| <= |s| && Agree(s[|x|..], y)
    ensures |x| + |y| <= |s| ==> s[|x|..|x| + |y|] == y
  {
  }

  /** The identifier and its flag. */
  lemma IdReads(id: uint32, standard: bool, s: seq<byte>)
    requires id < FLAG && PutLE(StoredId(id, standard), 4) <= s
    ensures var stored := GetId(s[..4]); stored >= FLAG <==> standard
    ensures GetId(s[..4]) % FLAG == id
  {
    var stored := StoredId(id, standard);
    assert s[..4] == PutLE(stored, 4);
    Pow256Constants();
    GetPutLE(stored, 4);
  }

  lemma BodyReads(id: uint32, data: seq<byte>, s: seq<byte>)
    requires id < FLAG && |data| < 0x1_0000_0000_0000_0000
    requires Agree(s, PutLE(StoredId(id, |data| == 8), 4) + Payload(data))
    ensures ParseBody(s) ==
            if 4 + |Payload(data)| <= |s| then GotBody(id, data, 4 + |Payload(data)|) else BadBody
  {
    AgreeSplit(PutLE(StoredId(id, |data| == 8), 4), Payload(data), s);
    if 4 <= |s| {
      IdReads(id, |data| == 8, s);
      PayloadReads(data, s[4..]);
    }
  }

  lemma FrameReads(delta: nat, id: uint32, data: seq<byte>, s: seq<byte>)
    requires delta < Pow256(8) && |data| < 0x1_0000_0000_0000_0000 && id < FLAG
    requires Agree(s, EncodeRaw(delta, id, data))
    ensures var size := |EncodeRaw(delta, id, data)|;
            ParseFrame(s) == if size <= |s| then Parsed(delta, id, data, size) else BadFrame
  {
    var v := PutUvarint(delta);
    AgreeSplit(v, PutLE(StoredId(id, |data| == 8), 4) + Payload(data), s);
    if |v| <= |s| {
      UvarintPut(delta, s);
      BodyReads(id, data, s[|v|..]);
    } else {
      UvarintCut(delta, s);
    }
  }

  /** Whatever follows it, a frame reads back as written; only an identifier that already used
      the flag bit would lose it. */
  lemma ParseEncoded(delta: nat, id: uint32, data: seq<byte>, s: seq<byte>)
    requires delta < Pow256(8) && |data| < 0x1_0000_0000_0000_0000 && id < FLAG
    requires EncodeRaw(delta, id, data) <= s
    ensures ParseFrame(s) == Parsed(delta, id, data, |EncodeRaw(delta, id, data)|)
  {
    FrameReads(delta, id, data, s);
  }

  /** Cut off anywhere, it does not read: the reader never takes part of a frame for a frame. */
  lemma ParseCut(delta: nat, id: uint32, data: seq<byte>, s: seq<byte>)
    requires delta < Pow256(8) && |data| < 0x1_0000_0000_0000_0000 && id < FLAG
    requires s < EncodeRaw(delta, id, data)
    ensures ParseFrame(s) == BadFrame
  {
    FrameReads(delta, id, data, s);
  }

  // ---- The frames of a block ----

  /** The stored difference; a time before the previous one is stored as no difference. */
  function Delta(prev: int, t: int): nat {
    if t >= prev then t - prev else 0
  }

  function DeltaAt(fs: seq<Frame>, i: nat): nat
    requires i < |fs|
  {
    if i == 0 then 0 else Delta(fs[i - 1].time, fs[i].time)
  }

  function FrameParts(fs: seq<Frame>): (parts: seq<seq<byte>>)
    ensures |parts| == |fs|
  {
    seq(|fs|, i requires 0 <= i < |fs| => EncodeFrame(DeltaAt(fs, i), fs[i]))
  }

  function EncodeFrames(fs: seq<Frame>): seq<byte> {
    Flatten(FrameParts(fs))
  }

  lemma EncodeSnoc(fs: seq<Frame>, f: Frame)
    ensures EncodeFrames(fs + [f]) ==
            EncodeFrames(fs) + EncodeFrame(if fs == [] then 0 else Delta(fs[|fs| - 1].time, f.time), f)
  {
    var parts := FrameParts(fs + [f]);
    assert parts[..|fs|] == FrameParts(fs);
    FlattenTake(parts, |fs|);
    assert parts[..|fs| + 1] == parts;
  }

  lemma {:induction false} FlattenLength(parts: seq<seq<byte>>)
    requires forall i :: 0 <= i < |parts| ==> |parts[i]| >= 1
    ensures |Flatten(parts)| >= |parts|
  {
    if parts != [] {
      FlattenLength(parts[..|parts| - 1]);
    }
  }

  function Prefix(fs: seq<Frame>, baseSeq: nat): (s: seq<byte>)
    requires fs != [] && Int64(fs[0].time)
    ensures |s| == DATA_OFFSET + |EncodeFrames(fs)|
  {
    PutLE(ToU64(fs[0].time), 8) + PutLE(baseSeq, 8) + EncodeFrames(fs)
  }

  // ---- The device table ----

  datatype Product = Product(code: nat, modelId: seq<byte>, software: seq<byte>, version: seq<byte>, serial: seq<byte>)

  datatype DeviceEntry = DeviceEntry(source: byte, name: nat, activeFrom: nat, product: Product)

  const NO_PRODUCT := Product(0, [], [], [], [])

  /** Product strings come from fixed-width fields of 32, 40, 24 and 32 bytes. */
  predicate ProductFits(p: Product) {
    p.code < 0x1_0000 && |p.modelId| <= 32 && |p.software| <= 40 && |p.version| <= 24 && |p.serial| <= 32
  }

  predicate EntryFits(e: DeviceEntry) {
    e.name < 0x1_0000_0000_0000_0000 && e.activeFrom < 0x1_0000_0000 && ProductFits(e.product)
  }

  function PutString(s: seq<byte>): (r: seq<byte>)
    ensures |r| >= 1 && (|s| <= 255 ==> |r| == 1 + |s|)
  {
    if |s| <= 255 then [|s|] + s else [255] + s[..255]
  }

  function EncodeFixed(e: DeviceEntry): (s: seq<byte>)
    ensures |s| == 15
  {
    [e.source] + (PutLE(e.name, 8) + (PutLE(e.activeFrom, 4) + PutLE(e.product.code, 2)))
  }

  /** The four strings of an entry, in the order they are written. */
  function Texts(p: Product): seq<seq<byte>> {
    [p.modelId, p.software, p.version, p.serial]
  }

  function TextParts(texts: seq<seq<byte>>): (parts: seq<seq<byte>>)
    ensures |parts| == |texts|
  {
    seq(|texts|, i requires 0 <= i < |texts| => PutString(texts[i]))
  }

  function EncodeTexts(texts: seq<seq<byte>>): seq<byte> {
    Flatten(TextParts(texts))
  }

  function EncodeEntry(e: DeviceEntry): (s: seq<byte>)
    ensures ProductFits(e.product) ==> |s| == EntrySize(e)
  {
    TextsLength(e.product);
    EncodeFixed(e) + EncodeTexts(Texts(e.product))
  }

  lemma TextsLength(p: Product)
    ensures ProductFits(p) ==> |EncodeTexts(Texts(p))| == 4 + |p.modelId| + |p.software| + |p.version| + |p.serial|
  {
    var parts := TextParts(Texts(p));
    FlattenTake(parts, 0);
    FlattenTake(parts, 1);
    FlattenTake(parts, 2);
    FlattenTake(parts, 3);
    assert parts[..4] == parts && parts[..0] == [];
  }

  /** The writer's size computation, which does not look at the truncation of long strings. */
  function EntrySize(e: DeviceEntry): nat {
    15 + 4 + |e.product.modelId| + |e.product.software| + |e.product.version| + |e.product.serial|
  }

  function EntriesSize(es: seq<DeviceEntry>): nat {
    if es == [] then 0 else EntriesSize(es[..|es| - 1]) + EntrySize(es[|es| - 1])
  }

  function EntryParts(es: seq<DeviceEntry>): (parts: seq<seq<byte>>)
    ensures |parts| == |es|
  {
    seq(|es|, i requires 0 <= i < |es| => EncodeEntry(es[i]))
  }

  function EncodeEntries(es: seq<DeviceEntry>): seq<byte> {
    Flatten(EntryParts(es))
  }

  function EncodeTable(es: seq<DeviceEntry>): seq<byte> {
    PutLE(|es|, 2) + EncodeEntries(es)
  }

  /** The writer's size of the table of these entries. */
  function TableBytes(es: seq<DeviceEntry>): nat {
    2 + EntriesSize(es)
  }

  ghost predicate AllFit(es: seq<DeviceEntry>) {
    forall i :: 0 <= i < |es| ==> EntryFits(es[i])
  }

  lemma {:induction false} EntriesLength(es: seq<DeviceEntry>)
    requires AllFit(es)
    ensures |EncodeEntries(es)| == EntriesSize(es) <= DEVICE_ENTRY_MAX * |es|
    ensures EntriesSize(es) >= 19 * |es|
  {
    if es != [] {
      var front := es[..|es| - 1];
      EntriesLength(front);
      var parts := EntryParts(es);
      assert parts[..|es| - 1] == EntryParts(front);
      assert |parts[|es| - 1]| == EntrySize(es[|es| - 1]);
    }
  }

  lemma {:induction false} EntriesSizeConcat(a: seq<DeviceEntry>, b: seq<DeviceEntry>)
    ensures EntriesSize(a + b) == EntriesSize(a) + EntriesSize(b)
    decreases |b|
  {
    if b == [] {
      assert a + b == a;
    } else {
      EntriesSizeConcat(a, b[..|b| - 1]);
      assert (a + b)[..|a + b| - 1] == a + b[..|b| - 1];
    }
  }

  datatype ReadString = BadString | GotString(s: seq<byte>, size: nat)

  function GetString(s: seq<byte>): (r: ReadString)
    ensures r.GotString? ==> 1 <= r.size <= |s|
  {
    if s == [] then BadString
    else
      var n: nat := s[0];
      if 1 + n > |s| then BadString else GotString(s[1..][..n], 1 + n)
  }

  datatype ReadTexts = BadTexts | GotTexts(texts: seq<seq<byte>>, size: nat)

  /** `count` strings, each found where the previous one ends. */
  function GetTexts(s: seq<byte>, count: nat): (r: ReadTexts)
    ensures r.GotTexts? ==> r.size <= |s| && |r.texts| == count
    decreases |s|, count
  {
    if count == 0 then GotTexts([], 0)
    else
      match GetString(s)
      case BadString => BadTexts
      case GotString(t, n) =>
        match GetTexts(s[n..], count - 1)
        case BadTexts => BadTexts
        case GotTexts(ts, m) => GotTexts([t] + ts, n + m)
  }

  datatype ReadEntry = BadEntry | GotEntry(e: DeviceEntry, size: nat)

  function GetEntry(s: seq<byte>): (r: ReadEntry)
    ensures r.GotEntry? ==> r.size <= |s|
  {
    if |s| < 15 then BadEntry
    else
      match GetTexts(s[15..], 4)
      case BadTexts => BadEntry
      case GotTexts(t, n) =>
        GotEntry(DeviceEntry(s[0], GetLE(s[1..9]), GetLE(s[9..13]),
                             Product(GetLE(s[13..15]), t[0], t[1], t[2], t[3])), 15 + n)
  }

  datatype ReadTable = BadTable | GotTable(es: seq<DeviceEntry>)

  function GetEntries(s: seq<byte>, count: nat): ReadTable {
    if count == 0 then GotTable([])
    else
      match GetEntry(s)
      case BadEntry => BadTable
      case GotEntry(e, n) =>
        match GetEntries(s[n..], count - 1)
        case BadTable => BadTable
        case GotTable(es) => GotTable([e] + es)
  }

  /** `s` is the block from the device table on. */
  function GetTable(s: seq<byte>): ReadTable {
    if |s| < 2 then BadTable else GetEntries(s[2..], GetLE(s[..2]))
  }

  lemma GetPutString(t: seq<byte>, s: seq<byte>)
    requires |t| <= 255 && PutString(t) <= s
    ensures GetString(s) == GotString(t, |PutString(t)|)
  {
    PrefixSplit([|t|], t, s);
  }

  lemma {:induction false} GetPutTexts(texts: seq<seq<byte>>, s: seq<byte>)
    requires (forall i :: 0 <= i < |texts| ==> |texts[i]| <= 255) && EncodeTexts(texts) <= s
    ensures GetTexts(s, |texts|) == GotTexts(texts, |EncodeTexts(texts)|)
    decreases |texts|
  {
    if texts != [] {
      TextsCons(texts);
      PrefixSplit(PutString(texts[0]), EncodeTexts(texts[1..]), s);
      GetPutString(texts[0], s);
      GetPutTexts(texts[1..], s[|PutString(texts[0])|..]);
      TextsStep(s, texts, |PutString(texts[0])|, |EncodeTexts(texts[1..])|);
    }
  }

  lemma TextsStep(s: seq<byte>, texts: seq<seq<byte>>, n: nat, m: nat)
    requires texts != [] && n <= |s|
    requires GetString(s) == GotString(texts[0], n) && GetTexts(s[n..], |texts| - 1) == GotTexts(texts[1..], m)
    ensures GetTexts(s, |texts|) == GotTexts(texts, n + m)
  {
    assert texts == [texts[0]] + texts[1..];
  }

  lemma TextsCons(texts: seq<seq<byte>>)
    requires texts != []
    ensures EncodeTexts(texts) == PutString(texts[0]) + EncodeTexts(texts[1..])
  {
    TextPartsTail(texts);
    FlattenCons(TextParts(texts));
  }

  lemma TextPartsTail(texts: seq<seq<byte>>)
    requires texts != []
    ensures TextParts(texts)[1..] == TextParts(texts[1..])
  {
    forall i | 0 <= i < |texts| - 1 ensures TextParts(texts)[1..][i] == TextParts(texts[1..])[i] {
      assert texts[1..][i] == texts[1 + i];
    }
  }

  lemma GetPutFixed(e: DeviceEntry, s: seq<byte>)
    requires EntryFits(e) && EncodeFixed(e) <= s
    ensures s[0] == e.source && GetLE(s[1..9]) == e.name && GetLE(s[9..13]) == e.activeFrom
    ensures GetLE(s[13..15]) == e.product.code
  {
    Pow256Constants();
    var f := EncodeFixed(e);
    assert s[..15] == f;
    assert s[1..9] == f[1..9] == PutLE(e.name, 8);
    assert s[9..13] == f[9..13] == PutLE(e.activeFrom, 4);
    assert s[13..15] == f[13..15] == PutLE(e.product.code, 2);
    GetPutLE(e.name, 8);
    GetPutLE(e.activeFrom, 4);
    GetPutLE(e.product.code, 2);
  }

  lemma GetPutEntry(e: DeviceEntry, s: seq<byte>)
    requires EntryFits(e) && EncodeEntry(e) <= s
    ensures GetEntry(s) == GotEntry(e, |EncodeEntry(e)|)
  {
    PrefixSplit(EncodeFixed(e), EncodeTexts(Texts(e.product)), s);
    GetPutFixed(e, s);
    GetPutTexts(Texts(e.product), s[15..]);
  }

  lemma {:induction false} GetPutEntries(es: seq<DeviceEntry>, s: seq<byte>)
    requires AllFit(es) && EncodeEntries(es) <= s
    ensures GetEntries(s, |es|) == GotTable(es)
    decreases |es|
  {
    if es != [] {
      var n, e, rest, tail := FirstEntry(es, s);
      GetPutEntries(rest, tail);
      EntriesUnfold(s, e, n, rest, es);
    }
  }

  lemma FirstEntry(es: seq<DeviceEntry>, s: seq<byte>)
    returns (n: nat, e: DeviceEntry, rest: seq<DeviceEntry>, tail: seq<byte>)
    requires es != [] && AllFit(es) && EncodeEntries(es) <= s
    ensures n <= |s| && GetEntry(s) == GotEntry(e, n) && tail == s[n..]
    ensures es == [e] + rest && |rest| < |es| && AllFit(rest) && EncodeEntries(rest) <= tail
  {
    EntriesCons(es);
    n, e, rest := |EncodeEntry(es[0])|, es[0], es[1..];
    PrefixSplit(EncodeEntry(e), EncodeEntries(rest), s);
    tail := s[n..];
    GetPutEntry(e, s);
  }

  lemma EntriesUnfold(s: seq<byte>, e: DeviceEntry, n: nat, rest: seq<DeviceEntry>, es: seq<DeviceEntry>)
    requires n <= |s| && GetEntry(s) == GotEntry(e, n) && GetEntries(s[n..], |rest|) == GotTable(rest)
    requires es == [e] + rest
    ensures GetEntries(s, |es|) == GotTable(es)
  {
  }

  lemma EntriesCons(es: seq<DeviceEntry>)
    requires es != []
    ensures EncodeEntries(es) == EncodeEntry(es[0]) + EncodeEntries(es[1..])
  {
    EntryPartsTail(es);
    FlattenCons(EntryParts(es));
  }

  lemma EntryPartsTail(es: seq<DeviceEntry>)
    requires es != []
    ensures EntryParts(es)[1..] == EntryParts(es[1..])
  {
    forall i | 0 <= i < |es| - 1 ensures EntryParts(es)[1..][i] == EntryParts(es[1..])[i] {
      assert es[1..][i] == es[1 + i];
    }
  }

  /** The device table of a block reads back as the entries written. */
  lemma GetPutTable(es: seq<DeviceEntry>, s: seq<byte>)
    requires |es| < 0x1_0000 && AllFit(es) && EncodeTable(es) <= s
    ensures GetTable(s) == GotTable(es)
  {
    PrefixSplit(PutLE(|es|, 2), EncodeEntries(es), s);
    CountPut(|es|, s);
    GetPutEntries(es, s[2..]);
  }

  lemma CountPut(n: nat, s: seq<byte>)
    requires n < 0x1_0000 && PutLE(n, 2) <= s
    ensures GetLE(s[..2]) == n
  {
    Pow256Constants();
    GetPutLE(n, 2);
    assert s[..2] == PutLE(n, 2);
  }
}
