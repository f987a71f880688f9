/** Reading a journal block back, and the round trip from the frames a block was made of. */
module JournalBlock {
  import opened Bytes
  import opened CanId
  import opened JournalFormat

  /** The checksum is any function of the bytes it covers. */
  type Checksum = seq<byte> -> nat

  function Sum(crc: Checksum, s: seq<byte>): nat {
    crc(s) % 0x1_0000_0000
  }

  /** A reader's position in a loaded block. */
  datatype Cursor = Cursor(block: seq<byte>, off: nat, limit: int, idx: nat, count: nat, base: int, last: int,
                           baseSeq: nat)

  datatype Loaded = Corrupt | Loaded(c: Cursor)

  function LoadBlock(block: seq<byte>, crc: Checksum): Loaded
    requires |block| >= DATA_OFFSET + TRAILER_LEN
  {
    var bs := |block|;
    if GetLE(block[bs - 4..]) != Sum(crc, block[..bs - 4]) then Corrupt
    else
      var base := FromU64(GetLE(block[..8]));
      Loaded(Cursor(block, DATA_OFFSET, bs - TRAILER_LEN - GetLE(block[bs - 10..bs - 8]), 0,
                    GetLE(block[bs - 8..bs - 4]),
                    base, base, GetLE(block[8..16])))
  }

  /** The checksum guards itself: of all blocks that agree up to it, at most one loads. */
  lemma ChecksumGuards(a: seq<byte>, b: seq<byte>, crc: Checksum)
    requires |a| == |b| >= DATA_OFFSET + TRAILER_LEN && a[..|a| - 4] == b[..|b| - 4]
    requires LoadBlock(a, crc).Loaded? && LoadBlock(b, crc).Loaded?
    ensures a == b
  {
    GetLEInjective(a[|a| - 4..], b[|b| - 4..]);
    assert a == a[..|a| - 4] + a[|a| - 4..] && b == b[..|b| - 4] + b[|b| - 4..];
  }

  datatype Step = Broken | Yield(e: Entry, next: Cursor)

  /** Decodes one frame from the start of a byte sequence; the reader uses `ParseFrame`. */
  type Parser = seq<byte> -> Parsed

  function NextFrame(parse: Parser, c: Cursor): (r: Step)
    requires c.limit <= |c.block|
    ensures r.Yield? ==> r.next == c.(off := r.next.off, idx := c.idx + 1, last := r.next.last)
  {
    if c.off >= c.limit then Broken
    else
      match parse(c.block[c.off..c.limit])
      case BadFrame => Broken
      case Parsed(delta, id, data, size) =>
        var time := if c.idx == 0 then c.base else c.last + delta;
        Yield(Entry(c.baseSeq + c.idx, time, id, data), c.(off := c.off + size, idx := c.idx + 1, last := time))
  }

  /** All frames from a position on; a broken frame ends the block. */
  function ReadRest(parse: Parser, c: Cursor): seq<Entry>
    requires c.limit <= |c.block|
    decreases c.count - c.idx
  {
    if c.idx >= c.count then []
    else
      match NextFrame(parse, c)
      case Broken => []
      case Yield(e, next) => [e] + ReadRest(parse, next)
  }

  /** The reader over one block, with its position in fields of its own. */
  class BlockReader {
    const crc: Checksum
    var block: seq<byte>
    var off: nat
    var limit: int
    var frameIdx: nat
    var frameCount: nat
    var baseTimeUs: int
    var lastTimeUs: int
    var baseSeq: nat

    ghost function View(): Cursor
      reads this
    {
      Cursor(block, off, limit, frameIdx, frameCount, baseTimeUs, lastTimeUs, baseSeq)
    }

    constructor (crc: Checksum)
      ensures this.crc == crc && frameIdx == frameCount == 0 && block == [] && limit == 0
    {
      this.crc := crc;
      block, off, limit, frameIdx, frameCount, baseTimeUs, lastTimeUs, baseSeq := [], 0, 0, 0, 0, 0, 0, 0;
    }

    method ParseLoadedBlock(buf: seq<byte>) returns (ok: bool)
      requires |buf| >= DATA_OFFSET + TRAILER_LEN
      modifies this
      ensures LoadBlock(buf, crc) == if ok then Loaded(View()) else Corrupt
      ensures ok ==> limit <= |block|
      ensures !ok ==> View() == old(View())
    {
      var bs := |buf|;
      if GetLE(buf[bs - 4..]) != Sum(crc, buf[..bs - 4]) {
        return false;
      }
      block := buf;
      limit := bs - TRAILER_LEN - GetLE(buf[bs - 10..bs - 8]);
      frameCount := GetLE(buf[bs - 8..bs - 4]);
      baseTimeUs := FromU64(GetLE(buf[..8]));
      lastTimeUs := baseTimeUs;
      baseSeq := GetLE(buf[8..16]);
      off, frameIdx := DATA_OFFSET, 0;
      return true;
    }

    method ParseNextFrame() returns (ok: bool, e: Entry, header: CANHeader)
      requires limit <= |block|
      modifies this
      ensures ok ==> NextFrame(ParseFrame, old(View())) == Yield(e, View())
      ensures !ok ==> NextFrame(ParseFrame, old(View())) == Broken && View() == old(View())
      ensures ok ==> header == ParseCANID(e.id)
      ensures limit <= |block|
    {
      e, header := Entry(0, 0, 0, []), CANHeader(0, 0, 0, 0);
      if off >= limit {
        return false, e, header;
      }
      var p := ParseFrame(block[off..limit]);
      if p.BadFrame? {
        return false, e, header;
      }
      var time := if frameIdx == 0 then baseTimeUs else lastTimeUs + p.delta;
      e := Entry(baseSeq + frameIdx, time, p.id, p.data);
      lastTimeUs := time;
      off := off + p.size;
      frameIdx := frameIdx + 1;
      return true, e, ParseCANID(e.id);
    }

    /** The frames `Next` yields from here to the end of the block. */
    method ReadFrames() returns (out: seq<Entry>)
      requires limit <= |block|
      modifies this
      ensures out == ReadRest(ParseFrame, old(View()))
    {
      out := [];
      ghost var all := ReadRest(ParseFrame, View());
      Joined([], all);
      while frameIdx < frameCount
        invariant limit <= |block|
        invariant all == out + ReadRest(ParseFrame, View())
        decreases frameCount - frameIdx
      {
        Unrolled(ParseFrame, View());
        var ok, e, _ := ParseNextFrame();
        if !ok {
          Joined(out, []);
          return;
        }
        Moved(out, e, ReadRest(ParseFrame, View()));
        out := out + [e];
      }
      Joined(out, []);
    }
  }

  lemma Unrolled(parse: Parser, c: Cursor)
    requires c.limit <= |c.block| && c.idx < c.count
    ensures ReadRest(parse, c) ==
            match NextFrame(parse, c) case Broken => [] case Yield(e, next) => [e] + ReadRest(parse, next)
  {
  }

  lemma Joined(a: seq<Entry>, b: seq<Entry>)
    ensures a == [] ==> a + b == b
    ensures b == [] ==> a + b == a
  {
  }

  lemma Moved(a: seq<Entry>, e: Entry, b: seq<Entry>)
    ensures a + ([e] + b) == (a + [e]) + b
  {
  }

  // ---- What a flushed block is ----

  /** The last ten bytes: table size, of which 16 bits are kept, frame count and checksum. */
  ghost predicate HasTrailer(block: seq<byte>, tableBytes: nat, count: nat, crc: Checksum)
    requires TRAILER_LEN <= |block|
  {
    var bs := |block|;
    && block[bs - 10..bs - 8] == PutLE(tableBytes, 2) && block[bs - 8..bs - 4] == PutLE(count, 4)
    && block[bs - 4..] == PutLE(Sum(crc, block[..bs - 4]), 4)
  }

  ghost predicate AllEncodable(fs: seq<Frame>) {
    && fs != [] && Int64(fs[0].time)
    && forall i :: 0 <= i < |fs| ==> Encodable(fs[i])
  }

  /** The time a reader reconstructs for a frame: differences add up, backward ones count as 0. */
  function ReadTime(fs: seq<Frame>, i: nat): int
    requires i < |fs|
  {
    if i == 0 then fs[0].time else ReadTime(fs, i - 1) + DeltaAt(fs, i)
  }

  /** What reading a block of these frames yields. */
  function Expected(fs: seq<Frame>, baseSeq: nat): seq<Entry> {
    seq(|fs|, i requires 0 <= i < |fs| => Entry(baseSeq + i, ReadTime(fs, i), fs[i].id, fs[i].data))
  }

  // Reading, for any parser that finds the frames at known offsets.

  /** A block whose frame area ends at `limit`, with the time and number of its header. */
  datatype Area = Area(block: seq<byte>, limit: nat, base: int, baseSeq: nat)
  {
    predicate Valid() {
      limit <= |block|
    }

    function Bytes(): seq<byte>
      requires Valid()
    {
      block[..limit]
    }
  }

  /** Where the `i`-th of the frames `found` begins, `parse` finds it if it ends within the limit
      and nothing otherwise; `times[i]` is its time. */
  ghost predicate ThereAt(parse: Parser, a: Area, offs: seq<nat>, found: seq<Parsed>, times: seq<int>, i: nat)
    requires a.Valid() && |offs| == |found| + 1 && |times| == |found| && i < |found|
  {
    && found[i].Parsed? && found[i].size > 0 && offs[i + 1] == offs[i] + found[i].size
    && (offs[i] <= a.limit ==>
        parse(a.block[offs[i]..a.limit]) == if offs[i + 1] <= a.limit then found[i] else BadFrame)
    && times[i] == if i == 0 then a.base else times[i - 1] + found[i].delta
  }

  ghost predicate There(parse: Parser, a: Area, offs: seq<nat>, found: seq<Parsed>, times: seq<int>) {
    && a.Valid() && |offs| == |found| + 1 && |times| == |found|
    && forall i :: 0 <= i < |found| ==> ThereAt(parse, a, offs, found, times, i)
  }

  function EntriesOf(found: seq<Parsed>, times: seq<int>, baseSeq: nat): seq<Entry>
    requires |times| == |found| && forall i :: 0 <= i < |found| ==> found[i].Parsed?
  {
    seq(|found|, i requires 0 <= i < |found| => Entry(baseSeq + i, times[i], found[i].id, found[i].data))
  }

  function CursorAt(a: Area, offs: seq<nat>, times: seq<int>, j: nat): Cursor
    requires j < |offs| == |times| + 1
  {
    Cursor(a.block, offs[j], a.limit, j, |times|, a.base, if j == 0 then a.base else times[j - 1], a.baseSeq)
  }

  lemma ReadOne(parse: Parser, a: Area, offs: seq<nat>, found: seq<Parsed>, times: seq<int>, j: nat)
    requires There(parse, a, offs, found, times) && j < |found| && offs[j + 1] <= a.limit
    ensures found[j].Parsed?
    ensures NextFrame(parse, CursorAt(a, offs, times, j)) ==
            Yield(Entry(a.baseSeq + j, times[j], found[j].id, found[j].data), CursorAt(a, offs, times, j + 1))
  {
    assert ThereAt(parse, a, offs, found, times, j);
  }

  lemma ReadNone(parse: Parser, a: Area, offs: seq<nat>, found: seq<Parsed>, times: seq<int>, k: nat)
    requires There(parse, a, offs, found, times) && k <= |found|
    requires offs[k] <= a.limit && (k < |found| ==> a.limit < offs[k + 1])
    ensures ReadRest(parse, CursorAt(a, offs, times, k)) == []
  {
    assert k < |found| ==> ThereAt(parse, a, offs, found, times, k);
  }

  lemma {:induction false} ReadFrom(parse: Parser, a: Area, offs: seq<nat>, found: seq<Parsed>, times: seq<int>,
                                    j: nat, k: nat)
    requires There(parse, a, offs, found, times) && j <= k <= |found|
    requires offs[k] <= a.limit && (k < |found| ==> a.limit < offs[k + 1])
    requires forall i :: 0 <= i < |found| ==> found[i].Parsed?
    ensures ReadRest(parse, CursorAt(a, offs, times, j)) == EntriesOf(found, times, a.baseSeq)[j..k]
    decreases k - j
  {
    if j < k {
      Rising(parse, a, offs, found, times, j + 1, k);
      ReadOne(parse, a, offs, found, times, j);
      ReadFrom(parse, a, offs, found, times, j + 1, k);
      Peel(EntriesOf(found, times, a.baseSeq), j, k);
    } else {
      ReadNone(parse, a, offs, found, times, k);
    }
  }

  lemma {:induction false} Rising(parse: Parser, a: Area, offs: seq<nat>, found: seq<Parsed>, times: seq<int>, j: nat,
                                  k: nat)
    requires There(parse, a, offs, found, times) && j <= k <= |found|
    ensures offs[j] <= offs[k]
    decreases k - j
  {
    if j < k {
      Rising(parse, a, offs, found, times, j, k - 1);
      assert ThereAt(parse, a, offs, found, times, k - 1);
    }
  }

  lemma Peel(s: seq<Entry>, j: nat, k: nat)
    requires j < k <= |s|
    ensures s[j..k] == [s[j]] + s[j + 1..k]
  {
  }

  // The frames of a block, at their offsets.

  function Offsets(parts: seq<seq<byte>>): (offs: seq<nat>)
    ensures |offs| == |parts| + 1
  {
    seq(|parts| + 1, k requires 0 <= k <= |parts| => DATA_OFFSET + |Flatten(parts[..k])|)
  }

  function FoundIn(fs: seq<Frame>): (found: seq<Parsed>)
    ensures |found| == |fs| && forall i :: 0 <= i < |found| ==> found[i].Parsed?
  {
    seq(|fs|, i requires 0 <= i < |fs| => Parsed(DeltaAt(fs, i), fs[i].id, fs[i].data, |FrameParts(fs)[i]|))
  }

  function ReadTimes(fs: seq<Frame>): (times: seq<int>)
    ensures |times| == |fs|
  {
    seq(|fs|, i requires 0 <= i < |fs| => ReadTime(fs, i))
  }

  /** The bytes at the `k`-th part's offset are that part. */
  lemma PartInPlace(area: seq<byte>, head: seq<byte>, parts: seq<seq<byte>>, k: nat)
    requires |head| == DATA_OFFSET && k < |parts| && head + Flatten(parts) <= area
    ensures var off := Offsets(parts)[k];
            off <= |area| && parts[k] <= area[off..] && Offsets(parts)[k + 1] == off + |parts[k]|
  {
    PrefixSplit(head, Flatten(parts), area);
    FlattenHalves(parts, k);
    PrefixSplit(Flatten(parts[..k]), Flatten(parts[k..]), area[16..]);
    FlattenDrop(parts, k);
    PrefixSplit(parts[k], Flatten(parts[k + 1..]), area[16..][|Flatten(parts[..k])|..]);
    assert area[16..][|Flatten(parts[..k])|..] == area[16 + |Flatten(parts[..k])|..];
    FlattenTake(parts, k);
  }

  /** Exactly the first `k` parts are wholly within the first `n` bytes. */
  ghost predicate Present(n: nat, parts: seq<seq<byte>>, k: nat)
    requires k <= |parts|
  {
    Offsets(parts)[k] <= n && (k < |parts| ==> n < Offsets(parts)[k + 1])
  }

  lemma WholePresent(n: nat, parts: seq<seq<byte>>)
    requires n >= DATA_OFFSET
    ensures Present(n, parts, Whole(parts, n - DATA_OFFSET))
  {
  }

  lemma {:induction false} OffsetsRise(parts: seq<seq<byte>>, j: nat, k: nat)
    requires j <= k <= |parts|
    ensures Offsets(parts)[j] <= Offsets(parts)[k]
    decreases k - j
  {
    if j < k {
      OffsetsRise(parts, j, k - 1);
      FlattenTake(parts, k - 1);
    }
  }

  /** In bytes that are cut off somewhere or go on, what is at the `j`-th offset agrees with the
      `j`-th part as far as both go. */
  lemma PartAt(area: seq<byte>, head: seq<byte>, parts: seq<seq<byte>>, j: nat)
    requires |head| == DATA_OFFSET && Agree(area, head + Flatten(parts)) && j < |parts| && Offsets(parts)[j] <= |area|
    ensures Offsets(parts)[j + 1] == Offsets(parts)[j] + |parts[j]| && Agree(area[Offsets(parts)[j]..], parts[j])
  {
    var whole := head + Flatten(parts);
    if whole <= area {
      PartInPlace(area, head, parts, j);
    } else {
      PartInPlace(whole, head, parts, j);
      Overlap(area, whole, Offsets(parts)[j], parts[j]);
    }
  }

  lemma Overlap(area: seq<byte>, whole: seq<byte>, off: nat, part: seq<byte>)
    requires off <= |area| && area <= whole && part <= whole[off..]
    ensures Agree(area[off..], part)
  {
    var s := area[off..];
    assert s == whole[off..][..|s|];
    if |s| <= |part| {
      assert s == part[..|s|];
    } else {
      assert part == s[..|part|];
    }
  }

  lemma ParsesAs(fs: seq<Frame>, k: nat, s: seq<byte>)
    requires AllEncodable(fs) && k < |fs| && Agree(s, FrameParts(fs)[k])
    ensures ParseFrame(s) == if |FrameParts(fs)[k]| <= |s| then FoundIn(fs)[k] else BadFrame
  {
    assert Encodable(fs[k]) && (k > 0 ==> Encodable(fs[k - 1]));
    Pow256Constants();
    FrameReads(DeltaAt(fs, k), fs[k].id, fs[k].data, s);
  }

  /** The frame area agrees with these frames, from the header on. */
  ghost predicate Carries(a: Area, head: seq<byte>, fs: seq<Frame>) {
    && a.Valid() && AllEncodable(fs) && a.base == fs[0].time
    && |head| == DATA_OFFSET && Agree(a.Bytes(), head + EncodeFrames(fs))
  }

  lemma FrameAt(a: Area, head: seq<byte>, fs: seq<Frame>, j: nat)
    requires Carries(a, head, fs) && j < |fs| && Offsets(FrameParts(fs))[j] <= a.limit
    ensures var offs := Offsets(FrameParts(fs));
            ParseFrame(a.block[offs[j]..a.limit]) == if offs[j + 1] <= a.limit then FoundIn(fs)[j] else BadFrame
  {
    var off := Offsets(FrameParts(fs))[j];
    PartAt(a.Bytes(), head, FrameParts(fs), j);
    assert a.Bytes()[off..] == a.block[off..a.limit];
    ParsesAs(fs, j, a.block[off..a.limit]);
  }

  lemma PartSize(fs: seq<Frame>, j: nat)
    requires j < |fs|
    ensures FoundIn(fs)[j].size >= 5
    ensures Offsets(FrameParts(fs))[j + 1] == Offsets(FrameParts(fs))[j] + FoundIn(fs)[j].size
  {
    FlattenTake(FrameParts(fs), j);
  }

  lemma FramesThere(a: Area, head: seq<byte>, fs: seq<Frame>)
    returns (offs: seq<nat>, found: seq<Parsed>, times: seq<int>)
    requires Carries(a, head, fs)
    ensures offs == Offsets(FrameParts(fs)) && found == FoundIn(fs) && times == ReadTimes(fs)
    ensures There(ParseFrame, a, offs, found, times)
  {
    offs, found, times := Offsets(FrameParts(fs)), FoundIn(fs), ReadTimes(fs);
    forall j | 0 <= j < |fs| ensures ThereAt(ParseFrame, a, offs, found, times, j) {
      if offs[j] <= a.limit {
        FrameAt(a, head, fs, j);
      }
      PartSize(fs, j);
      TimeAt(fs, j);
    }
  }

  lemma TimeAt(fs: seq<Frame>, k: nat)
    requires k < |fs|
    ensures ReadTimes(fs)[k] == if k == 0 then fs[0].time else ReadTimes(fs)[k - 1] + FoundIn(fs)[k].delta
  {
  }

  /** A frame area, cut off anywhere, yields exactly the frames that are wholly there. */
  lemma ReadsWhole(a: Area, head: seq<byte>, fs: seq<Frame>, k: nat) returns (c: Cursor)
    requires Carries(a, head, fs) && k <= |fs| && Present(a.limit, FrameParts(fs), k)
    ensures c == Cursor(a.block, DATA_OFFSET, a.limit, 0, |fs|, a.base, a.base, a.baseSeq)
    ensures ReadRest(ParseFrame, c) == Expected(fs, a.baseSeq)[..k]
  {
    var offs, found, times := FramesThere(a, head, fs);
    ReadFrom(ParseFrame, a, offs, found, times, 0, k);
    FoundExpected(fs, a.baseSeq);
    assert offs[0] == DATA_OFFSET;
    c := CursorAt(a, offs, times, 0);
  }

  lemma FoundExpected(fs: seq<Frame>, baseSeq: nat)
    ensures EntriesOf(FoundIn(fs), ReadTimes(fs), baseSeq) == Expected(fs, baseSeq)
  {
  }

  function HeaderBytes(t: int, baseSeq: nat): (s: seq<byte>)
    requires Int64(t)
    ensures |s| == DATA_OFFSET
  {
    PutLE(ToU64(t), 8) + PutLE(baseSeq, 8)
  }

  lemma HeaderInPlace(block: seq<byte>, t: int, baseSeq: nat)
    requires Int64(t) && baseSeq < Pow256(8) && HeaderBytes(t, baseSeq) <= block
    ensures FromU64(GetLE(block[..8])) == t && GetLE(block[8..16]) == baseSeq
  {
    var h := HeaderBytes(t, baseSeq);
    assert block[..16] == h;
    assert block[..8] == PutLE(ToU64(t), 8) && block[8..16] == PutLE(baseSeq, 8);
    GetPutLE(ToU64(t), 8);
    GetPutLE(baseSeq, 8);
  }

  lemma LowTwo(v: nat)
    ensures GetLE(PutLE(v, 2)) == v % 0x1_0000
  {
    var low, high := v % 256, v / 256 % 256;
    assert PutLE(v, 2)[1..] == PutLE(v / 256, 1) && PutLE(v / 256, 1) == [high];
    assert GetLE([high]) == high;
    assert v % 0x1_0000 == low + 256 * high;
  }

  /** A block that loads, to read `count` frames up to `limit`. */
  ghost predicate Trailed(block: seq<byte>, limit: int, count: nat, crc: Checksum)
    requires |block| >= DATA_OFFSET + TRAILER_LEN
  {
    LoadBlock(block, crc).Loaded? &&
    var c := LoadBlock(block, crc).c;
    c == Cursor(block, DATA_OFFSET, limit, 0, count, c.base, c.base, c.baseSeq)
  }

  /** A block with a trailer loads, whatever else it holds. */
  lemma TrailerLoads(block: seq<byte>, tableBytes: nat, count: nat, crc: Checksum)
    requires |block| >= DATA_OFFSET + TRAILER_LEN && count < Pow256(4) && HasTrailer(block, tableBytes, count, crc)
    ensures Trailed(block, |block| - 10 - tableBytes % 0x1_0000, count, crc)
  {
    Pow256Constants();
    GetPutLE(Sum(crc, block[..|block| - 4]), 4);
    LowTwo(tableBytes);
    GetPutLE(count, 4);
  }

  lemma HeaderLoads(block: seq<byte>, t: int, baseSeq: nat, c: Cursor, limit: int, crc: Checksum)
    requires |block| >= DATA_OFFSET + TRAILER_LEN && Int64(t) && baseSeq < Pow256(8)
    requires c == Cursor(block, DATA_OFFSET, limit, 0, c.count, t, t, baseSeq)
    requires HeaderBytes(t, baseSeq) <= block && Trailed(block, limit, c.count, crc)
    ensures LoadBlock(block, crc) == Loaded(c)
  {
    HeaderInPlace(block, t, baseSeq);
  }

  lemma TrailerLimit(block: seq<byte>, tableBytes: nat, count: nat, limit: nat, crc: Checksum)
    requires |block| >= DATA_OFFSET + TRAILER_LEN && count < Pow256(4) && HasTrailer(block, tableBytes, count, crc)
    requires tableBytes < Pow256(2) && limit + tableBytes + 10 == |block|
    ensures Trailed(block, limit, count, crc)
  {
    TrailerLoads(block, tableBytes, count, crc);
    Pow256Constants();
  }

  /** A frame area that ends behind the frames yields all of them. */
  lemma ReadsAll(block: seq<byte>, fs: seq<Frame>, baseSeq: nat, limit: nat) returns (c: Cursor)
    requires AllEncodable(fs) && Prefix(fs, baseSeq) <= block && |Prefix(fs, baseSeq)| <= limit <= |block|
    ensures HeaderBytes(fs[0].time, baseSeq) <= block
    ensures c == Cursor(block, DATA_OFFSET, limit, 0, |fs|, fs[0].time, fs[0].time, baseSeq)
    ensures ReadRest(ParseFrame, c) == Expected(fs, baseSeq)
  {
    var a, head := Starts(block, fs, baseSeq, limit);
    c := ReadsCarried(a, head, fs);
  }

  lemma ReadsCarried(a: Area, head: seq<byte>, fs: seq<Frame>) returns (c: Cursor)
    requires Carries(a, head, fs) && DATA_OFFSET + |EncodeFrames(fs)| <= a.limit
    ensures c == Cursor(a.block, DATA_OFFSET, a.limit, 0, |fs|, a.base, a.base, a.baseSeq)
    ensures ReadRest(ParseFrame, c) == Expected(fs, a.baseSeq)
  {
    AllPresent(fs, a.limit);
    c := ReadsWhole(a, head, fs, |fs|);
    AllTaken(Expected(fs, a.baseSeq), |fs|);
  }

  lemma AllPresent(fs: seq<Frame>, n: nat)
    requires DATA_OFFSET + |EncodeFrames(fs)| <= n
    ensures Present(n, FrameParts(fs), |fs|)
  {
    assert FrameParts(fs)[..|fs|] == FrameParts(fs);
  }

  lemma AllTaken(s: seq<Entry>, n: nat)
    requires n == |s|
    ensures s[..n] == s
  {
  }

  lemma Starts(block: seq<byte>, fs: seq<Frame>, baseSeq: nat, limit: nat) returns (a: Area, head: seq<byte>)
    requires AllEncodable(fs) && Prefix(fs, baseSeq) <= block && |Prefix(fs, baseSeq)| <= limit <= |block|
    ensures HeaderBytes(fs[0].time, baseSeq) <= block
    ensures a == Area(block, limit, fs[0].time, baseSeq) && Carries(a, head, fs)
  {
    a, head := Area(block, limit, fs[0].time, baseSeq), HeaderBytes(fs[0].time, baseSeq);
    var p := Prefix(fs, baseSeq);
    assert block[..limit][..|p|] == block[..|p|];
    PrefixSplit(HeaderBytes(fs[0].time, baseSeq), EncodeFrames(fs), block);
  }

  // ---- Flushed blocks ----

  /** All frames of a block, as a reader gets them. */
  function ReadBlock(block: seq<byte>, crc: Checksum): seq<Entry> {
    if |block| < DATA_OFFSET + TRAILER_LEN then []
    else match LoadBlock(block, crc)
      case Corrupt => []
      case Loaded(c) => if c.limit <= |c.block| then ReadRest(ParseFrame, c) else []
  }

  /** `block` was flushed with these frames and `tableBytes` of device table at its far end, which
      may have overwritten some of the frames. */
  ghost predicate IsFlushed(block: seq<byte>, fs: seq<Frame>, baseSeq: nat, tableBytes: nat, crc: Checksum) {
    && AllEncodable(fs) && baseSeq < Pow256(8) && |fs| < Pow256(4)
    && DATA_OFFSET + TRAILER_LEN <= |block| && tableBytes + TRAILER_LEN <= |block|
    && HasTrailer(block, tableBytes, |fs|, crc)
    && Agree(block[..|block| - TRAILER_LEN - tableBytes], Prefix(fs, baseSeq))
  }

  /** Frames, table and trailer have room behind each other. */
  predicate Apart(fs: seq<Frame>, blockSize: nat, tableBytes: nat) {
    DATA_OFFSET + |EncodeFrames(fs)| + tableBytes + TRAILER_LEN <= blockSize
  }

  /** How many frames lie wholly in front of the table. */
  function Survivors(fs: seq<Frame>, blockSize: nat, tableBytes: nat): (k: nat)
    ensures k <= |fs|
    ensures fs != [] ==> (k == |fs| <==> Apart(fs, blockSize, tableBytes))
  {
    var limit := blockSize - TRAILER_LEN - tableBytes;
    if limit < DATA_OFFSET then 0 else WholeFrames(fs, limit)
  }

  /** How many frames end within the first `n` bytes of a block. */
  function WholeFrames(fs: seq<Frame>, n: nat): (k: nat)
    requires DATA_OFFSET <= n
    ensures k <= |fs| && Present(n, FrameParts(fs), k)
    ensures k == |fs| <==> DATA_OFFSET + |EncodeFrames(fs)| <= n
  {
    WholeParts(FrameParts(fs), n)
  }

  function WholeParts(parts: seq<seq<byte>>, n: nat): (k: nat)
    requires DATA_OFFSET <= n
    ensures k <= |parts| && Present(n, parts, k)
    ensures k == |parts| <==> DATA_OFFSET + |Flatten(parts)| <= n
  {
    WholeIff(parts, n - DATA_OFFSET);
    WholePresent(n, parts);
    Whole(parts, n - DATA_OFFSET)
  }

  lemma CutStarts(block: seq<byte>, fs: seq<Frame>, baseSeq: nat, limit: nat) returns (a: Area, head: seq<byte>)
    requires AllEncodable(fs) && DATA_OFFSET <= limit <= |block| && Agree(block[..limit], Prefix(fs, baseSeq))
    ensures HeaderBytes(fs[0].time, baseSeq) <= block
    ensures a == Area(block, limit, fs[0].time, baseSeq) && Carries(a, head, fs)
  {
    a, head := Area(block, limit, fs[0].time, baseSeq), HeaderBytes(fs[0].time, baseSeq);
    AgreeSplit(head, EncodeFrames(fs), block[..limit]);
    assert block[..limit][..16] == block[..16];
  }

  lemma LoadedReads(block: seq<byte>, c: Cursor, crc: Checksum)
    requires |block| >= DATA_OFFSET + TRAILER_LEN && LoadBlock(block, crc) == Loaded(c) && c.limit <= |c.block|
    ensures ReadBlock(block, crc) == ReadRest(ParseFrame, c)
  {
  }

  lemma CutReads(block: seq<byte>, fs: seq<Frame>, baseSeq: nat, limit: nat, crc: Checksum)
    requires AllEncodable(fs) && baseSeq < Pow256(8) && |block| >= DATA_OFFSET + TRAILER_LEN
    requires DATA_OFFSET <= limit <= |block| && Agree(block[..limit], Prefix(fs, baseSeq))
    requires Trailed(block, limit, |fs|, crc)
    ensures ReadBlock(block, crc) == Expected(fs, baseSeq)[..WholeFrames(fs, limit)]
  {
    var a, head := CutStarts(block, fs, baseSeq, limit);
    var c := ReadsWhole(a, head, fs, WholeFrames(fs, limit));
    HeaderLoads(block, fs[0].time, baseSeq, c, limit, crc);
    LoadedReads(block, c, crc);
  }

  lemma NothingReads(block: seq<byte>, limit: int, count: nat, crc: Checksum)
    requires |block| >= DATA_OFFSET + TRAILER_LEN && limit < DATA_OFFSET && Trailed(block, limit, count, crc)
    ensures ReadBlock(block, crc) == []
  {
  }

  /** A flushed block with a table under 64 KiB yields exactly the frames that lie wholly in front
      of the table, however much of the others is still there. */
  lemma FlushedReads(block: seq<byte>, fs: seq<Frame>, baseSeq: nat, tableBytes: nat, crc: Checksum)
    requires IsFlushed(block, fs, baseSeq, tableBytes, crc) && tableBytes < 0x1_0000
    ensures ReadBlock(block, crc) == Expected(fs, baseSeq)[..Survivors(fs, |block|, tableBytes)]
  {
    var limit: nat := |block| - TRAILER_LEN - tableBytes;
    Pow256Constants();
    TrailerLimit(block, tableBytes, |fs|, limit, crc);
    if limit < DATA_OFFSET {
      NothingReads(block, limit, |fs|, crc);
    } else {
      CutReads(block, fs, baseSeq, limit, crc);
    }
  }

  /** If the table is clear of the frames they are all read, even when the size field cannot hold
      the table's size and the reader's limit lies within the table. */
  lemma ApartReads(block: seq<byte>, fs: seq<Frame>, baseSeq: nat, tableBytes: nat, crc: Checksum)
    requires IsFlushed(block, fs, baseSeq, tableBytes, crc) && Apart(fs, |block|, tableBytes)
    ensures ReadBlock(block, crc) == Expected(fs, baseSeq)
  {
    var limit: nat := |block| - TRAILER_LEN - tableBytes % 0x1_0000;
    StillThere(block, Prefix(fs, baseSeq), |block| - TRAILER_LEN - tableBytes);
    TrailerLoads(block, tableBytes, |fs|, crc);
    var c := ReadsAll(block, fs, baseSeq, limit);
    HeaderLoads(block, fs[0].time, baseSeq, c, limit, crc);
    LoadedReads(block, c, crc);
  }

  /** `block` was flushed with these frames and table entries. */
  ghost predicate IsBlock(block: seq<byte>, fs: seq<Frame>, baseSeq: nat, es: seq<DeviceEntry>, crc: Checksum) {
    && IsFlushed(block, fs, baseSeq, TableBytes(es), crc)
    && EncodeTable(es) <= block[|block| - TRAILER_LEN - TableBytes(es)..]
  }

  /** The device table of a block at its limit. */
  function TableAt(block: seq<byte>, limit: int): ReadTable {
    if 0 <= limit <= |block| then GetTable(block[limit..]) else BadTable
  }

  /** A flushed block loads. It yields exactly the frames in front of the table, which are all of
      them if and only if frames and table are apart, and the table's entries in any case. */
  lemma RoundTrip(block: seq<byte>, fs: seq<Frame>, baseSeq: nat, es: seq<DeviceEntry>, crc: Checksum)
    returns (c: Cursor)
    requires IsBlock(block, fs, baseSeq, es, crc) && AllFit(es) && TableBytes(es) < 0x1_0000
    ensures LoadBlock(block, crc) == Loaded(c) && c.block == block && 0 <= c.limit <= |block|
    ensures ReadRest(ParseFrame, c) == Expected(fs, baseSeq)[..Survivors(fs, |block|, TableBytes(es))]
    ensures TableAt(block, c.limit) == GotTable(es)
  {
    FlushedReads(block, fs, baseSeq, TableBytes(es), crc);
    c := LimitOf(block, TableBytes(es), |fs|, crc);
    LoadedReads(block, c, crc);
    EntriesLength(es);
    GetPutTable(es, block[c.limit..]);
  }

  lemma LimitOf(block: seq<byte>, tableBytes: nat, count: nat, crc: Checksum) returns (c: Cursor)
    requires DATA_OFFSET + TRAILER_LEN <= |block| && tableBytes + TRAILER_LEN <= |block|
    requires count < Pow256(4) && tableBytes < 0x1_0000 && HasTrailer(block, tableBytes, count, crc)
    ensures LoadBlock(block, crc) == Loaded(c) && c.block == block && c.limit == |block| - TRAILER_LEN - tableBytes
  {
    TrailerLoads(block, tableBytes, count, crc);
    c := LoadBlock(block, crc).c;
  }

  lemma StillThere(block: seq<byte>, p: seq<byte>, n: nat)
    requires |p| <= n <= |block| && Agree(block[..n], p)
    ensures p <= block
  {
    if block[..n] <= p {
      assert block[..n] == p;
    } else {
      assert p == block[..n][..|p|];
    }
  }

  // ---- When the round trip is exact ----

  /** A frame on its way to the journal. */
  datatype RxFrame = RxFrame(time: int, bus: string, header: CANHeader, data: seq<byte>, seqNo: nat)

  function Stored(f: RxFrame): Frame {
    Frame(f.time, BuildCANID(f.header), f.data)
  }

  function StoredAll(fs: seq<RxFrame>): (r: seq<Frame>)
    ensures |r| == |fs|
  {
    seq(|fs|, i requires 0 <= i < |fs| => Stored(fs[i]))
  }

  /** The entry read back is the frame appended; its bus name is not stored. */
  predicate SameFrame(e: Entry, f: RxFrame) {
    e.seqNo == f.seqNo && e.time == f.time && ParseCANID(e.id) == f.header && e.data == f.data
  }

  ghost predicate Monotone(fs: seq<RxFrame>) {
    forall i :: 1 <= i < |fs| ==> fs[i - 1].time <= fs[i].time
  }

  lemma {:induction false} ReadTimeExact(fs: seq<RxFrame>, i: nat)
    requires i < |fs| && Monotone(fs)
    ensures ReadTime(StoredAll(fs), i) == fs[i].time
  {
    if i > 0 {
      ReadTimeExact(fs, i - 1);
      assert fs[i - 1].time <= fs[i].time;
    }
  }

  lemma BackwardTimeLost(fs: seq<RxFrame>, i: nat)
    requires 1 <= i < |fs| && fs[i - 1].time > fs[i].time
    ensures ReadTime(StoredAll(fs), i) != fs[i].time || ReadTime(StoredAll(fs), i - 1) != fs[i - 1].time
  {
  }

  lemma SameFrameIff(fs: seq<RxFrame>, baseSeq: nat, i: nat)
    requires i < |fs|
    ensures SameFrame(Expected(StoredAll(fs), baseSeq)[i], fs[i]) <==>
            fs[i].seqNo == baseSeq + i && ReadTime(StoredAll(fs), i) == fs[i].time && ValidHeader(fs[i].header)
  {
    ParseBuild(fs[i].header);
  }

  /** Reading returns exactly the frames, times and numbers appended if and only if the numbers
      are consecutive, the times never go back, and every header is a valid one. */
  lemma ExactIff(fs: seq<RxFrame>, baseSeq: nat)
    ensures (forall i :: 0 <= i < |fs| ==> SameFrame(Expected(StoredAll(fs), baseSeq)[i], fs[i])) <==>
            (&& (forall i :: 0 <= i < |fs| ==> fs[i].seqNo == baseSeq + i)
             && Monotone(fs)
             && (forall i :: 0 <= i < |fs| ==> ValidHeader(fs[i].header)))
  {
    forall i | 0 <= i < |fs|
      ensures SameFrame(Expected(StoredAll(fs), baseSeq)[i], fs[i]) <==>
              fs[i].seqNo == baseSeq + i && ReadTime(StoredAll(fs), i) == fs[i].time && ValidHeader(fs[i].header)
    {
      SameFrameIff(fs, baseSeq, i);
    }
    TimesExactIff(fs);
  }

  lemma TimesExactIff(fs: seq<RxFrame>)
    ensures Monotone(fs) <==> forall i :: 0 <= i < |fs| ==> ReadTime(StoredAll(fs), i) == fs[i].time
  {
    if Monotone(fs) {
      forall i | 0 <= i < |fs| ensures ReadTime(StoredAll(fs), i) == fs[i].time {
        ReadTimeExact(fs, i);
      }
    } else {
      var i :| 1 <= i < |fs| && fs[i - 1].time > fs[i].time;
      BackwardTimeLost(fs, i);
    }
  }
}
