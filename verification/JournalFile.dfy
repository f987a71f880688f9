/** Compressed journal files: blocks behind each other after a file header, and at the end an
    index of block offsets. A reader takes the index, or scans the blocks when there is none. */
module JournalFile {
  import opened Bytes
  import opened JournalFormat
  import opened JournalBlock

  const FILE_HEADER: nat := 16
  const MAX_INDEX: nat := 0x4_0000
  const INDEX_MAGIC: seq<byte> := [0x4C, 0x50, 0x4A, 0x49]

  /** A compressed block as the file stores it; the dictionary only exists in dictionary files. */
  datatype Packed = Packed(baseTime: int, baseSeq: nat, dict: seq<byte>, payload: seq<byte>)

  /** A reader's table entry for a block. */
  datatype BlockInfo = BlockInfo(offset: nat, baseTime: int, baseSeq: nat)

  predicate Storable(p: Packed, dicted: bool) {
    && Int64(p.baseTime) && p.baseSeq < Pow256(8)
    && 0 < |p.payload| < Pow256(4) && |p.dict| < Pow256(4) && (!dicted ==> p.dict == [])
  }

  function HeaderLen(dicted: bool): nat {
    if dicted then 24 else 20
  }

  function Sizes(p: Packed, dicted: bool): seq<byte> {
    if dicted then PutLE(|p.dict|, 4) + PutLE(|p.payload|, 4) else PutLE(|p.payload|, 4)
  }

  function EncodeBlock(p: Packed, dicted: bool): (s: seq<byte>)
    requires Storable(p, dicted)
    ensures |s| == HeaderLen(dicted) + |p.dict| + |p.payload|
  {
    (PutLE(ToU64(p.baseTime), 8) + PutLE(p.baseSeq, 8)) + (Sizes(p, dicted) + (p.dict + p.payload))
  }

  ghost predicate AllStorable(ps: seq<Packed>, dicted: bool) {
    forall i :: 0 <= i < |ps| ==> Storable(ps[i], dicted)
  }

  function Parts(ps: seq<Packed>, dicted: bool): (parts: seq<seq<byte>>)
    requires AllStorable(ps, dicted)
    ensures |parts| == |ps|
  {
    seq(|ps|, i requires 0 <= i < |ps| => EncodeBlock(ps[i], dicted))
  }

  function FileBody(header: seq<byte>, ps: seq<Packed>, dicted: bool): seq<byte>
    requires AllStorable(ps, dicted)
  {
    header + Flatten(Parts(ps, dicted))
  }

  /** The table a reader should get. */
  function Infos(ps: seq<Packed>, dicted: bool): seq<BlockInfo>
    requires AllStorable(ps, dicted)
  {
    seq(|ps|, i requires 0 <= i < |ps| => BlockInfo(Offsets(Parts(ps, dicted))[i], ps[i].baseTime, ps[i].baseSeq))
  }

  function OffsetParts(offs: seq<nat>): (parts: seq<seq<byte>>)
    ensures |parts| == |offs|
  {
    seq(|offs|, i requires 0 <= i < |offs| => PutLE(offs[i], 8))
  }

  /** The index of a file; a file without blocks gets none. */
  function Index(offs: seq<nat>): seq<byte> {
    if offs == [] then [] else Flatten(OffsetParts(offs)) + (PutLE(|offs|, 4) + INDEX_MAGIC)
  }

  function BlockOffsets(ps: seq<Packed>, dicted: bool): (offs: seq<nat>)
    requires AllStorable(ps, dicted)
    ensures |offs| == |ps|
  {
    Offsets(Parts(ps, dicted))[..|ps|]
  }

  function Complete(header: seq<byte>, ps: seq<Packed>, dicted: bool): seq<byte>
    requires AllStorable(ps, dicted)
  {
    FileBody(header, ps, dicted) + Index(BlockOffsets(ps, dicted))
  }

  // ---- Writing ----

  class FileWriter {
    const dicted: bool
    var file: seq<byte>
    var fileBytes: nat
    var blockOffsets: seq<nat>

    /** These blocks have been written behind this header. */
    ghost predicate Wrote(header: seq<byte>, ps: seq<Packed>)
      reads this
    {
      && |header| == FILE_HEADER && AllStorable(ps, dicted)
      && file == FileBody(header, ps, dicted) && fileBytes == |file| && blockOffsets == BlockOffsets(ps, dicted)
    }

    constructor (header: seq<byte>, dicted: bool)
      requires |header| == FILE_HEADER
      ensures Wrote(header, []) && this.dicted == dicted
    {
      this.dicted := dicted;
      file, fileBytes, blockOffsets := header, FILE_HEADER, [];
    }

    method WriteBlock(p: Packed, ghost header: seq<byte>, ghost ps: seq<Packed>)
      requires Wrote(header, ps) && Storable(p, dicted)
      modifies this
      ensures Wrote(header, ps + [p])
    {
      BodySnoc(header, ps, p, dicted);
      blockOffsets := blockOffsets + [fileBytes];
      file := file + EncodeBlock(p, dicted);
      fileBytes := fileBytes + |EncodeBlock(p, dicted)|;
    }

    method WriteBlockIndex(ghost header: seq<byte>, ghost ps: seq<Packed>)
      requires Wrote(header, ps)
      modifies this
      ensures file == Complete(header, ps, dicted)
    {
      var offs: seq<nat> := blockOffsets;
      var buf: seq<byte> := [];
      assert Complete(header, ps, dicted) == file + Index(offs);
      if offs == [] {
        return;
      }
      ghost var parts := OffsetParts(offs);
      for i := 0 to |offs|
        invariant buf == Flatten(parts[..i]) && file == old(file)
      {
        FlattenTake(parts, i);
        buf := buf + PutLE(offs[i], 8);
      }
      assert parts[..|parts|] == parts;
      assert Index(offs) == buf + (PutLE(|offs|, 4) + INDEX_MAGIC);
      file := file + (buf + (PutLE(|offs|, 4) + INDEX_MAGIC));
    }
  }

  lemma BodySnoc(header: seq<byte>, ps: seq<Packed>, p: Packed, dicted: bool)
    requires |header| == FILE_HEADER && AllStorable(ps, dicted) && Storable(p, dicted)
    ensures AllStorable(ps + [p], dicted)
    ensures FileBody(header, ps + [p], dicted) == FileBody(header, ps, dicted) + EncodeBlock(p, dicted)
    ensures BlockOffsets(ps + [p], dicted) == BlockOffsets(ps, dicted) + [|FileBody(header, ps, dicted)|]
  {
    assert Parts(ps + [p], dicted) == Parts(ps, dicted) + [EncodeBlock(p, dicted)];
    PartsSnoc(header, Parts(ps, dicted), EncodeBlock(p, dicted));
  }

  lemma PartsSnoc(header: seq<byte>, parts: seq<seq<byte>>, part: seq<byte>)
    requires |header| == FILE_HEADER
    ensures header + Flatten(parts + [part]) == header + Flatten(parts) + part
    ensures Offsets(parts + [part])[..|parts| + 1] == Offsets(parts)[..|parts|] + [|header + Flatten(parts)|]
  {
    OffsetsSnoc(parts, part);
    FlattenConcat(parts, [part]);
    FlattenOne(part);
    assert header + (Flatten(parts) + part) == header + Flatten(parts) + part;
    assert Offsets(parts) == Offsets(parts)[..|parts|] + [Offsets(parts)[|parts|]];
  }

  lemma OffsetsSnoc(parts: seq<seq<byte>>, part: seq<byte>)
    ensures Offsets(parts + [part])[..|parts| + 1] == Offsets(parts)
    ensures Offsets(parts)[|parts|] == 16 + |Flatten(parts)|
  {
    forall k | 0 <= k <= |parts| ensures Offsets(parts + [part])[k] == Offsets(parts)[k] {
      assert (parts + [part])[..k] == parts[..k];
    }
    assert parts[..|parts|] == parts;
  }

  // ---- The scan ----

  datatype Header = Header(baseTime: int, baseSeq: nat, size: nat)

  /** The fixed fields of the block at the start of `s`, with the bytes that follow them. */
  function ParseHeader(s: seq<byte>, dicted: bool): Header {
    if |s| < HeaderLen(dicted) then Header(0, 0, 0)
    else
      Header(FromU64(GetLE(s[..8])), GetLE(s[8..16]),
             if dicted then GetLE(s[16..20]) + GetLE(s[20..24]) else GetLE(s[16..20]))
  }

  type HeaderParser = seq<byte> -> Header

  function Headers(dicted: bool): HeaderParser {
    s => ParseHeader(s, dicted)
  }

  /** The blocks wholly present from `pos` on, behind headers of length `h`. */
  function Scan(parse: HeaderParser, h: nat, file: seq<byte>, pos: nat): seq<BlockInfo>
    requires pos <= |file|
    decreases |file| - pos
  {
    if pos + h > |file| then []
    else
      var header := parse(file[pos..]);
      var end := pos + h + header.size;
      if header.size == 0 || end > |file| then []
      else [BlockInfo(pos, header.baseTime, header.baseSeq)] + Scan(parse, h, file, end)
  }

  function ScanFile(file: seq<byte>, dicted: bool): seq<BlockInfo>
    requires |file| >= FILE_HEADER
  {
    Scan(Headers(dicted), HeaderLen(dicted), file, FILE_HEADER)
  }

  method ScanBlocks(file: seq<byte>, dicted: bool) returns (blocks: seq<BlockInfo>)
    requires |file| >= FILE_HEADER
    ensures blocks == ScanFile(file, dicted)
  {
    blocks := ScanWith(Headers(dicted), HeaderLen(dicted), file);
  }

  method ScanWith(parse: HeaderParser, h: nat, file: seq<byte>) returns (blocks: seq<BlockInfo>)
    requires |file| >= FILE_HEADER
    ensures blocks == Scan(parse, h, file, FILE_HEADER)
  {
    blocks := [];
    var pos := FILE_HEADER;
    while pos + h <= |file|
      invariant FILE_HEADER <= pos <= |file|
      invariant Scan(parse, h, file, FILE_HEADER) == blocks + Scan(parse, h, file, pos)
      decreases |file| - pos
    {
      var header := parse(file[pos..]);
      var end := pos + h + header.size;
      if header.size == 0 || end > |file| {
        break;
      }
      blocks := blocks + [BlockInfo(pos, header.baseTime, header.baseSeq)];
      pos := end;
    }
  }

  lemma HeaderPut(p: Packed, dicted: bool, s: seq<byte>)
    requires Storable(p, dicted) && |s| >= HeaderLen(dicted)
    requires s <= EncodeBlock(p, dicted) || EncodeBlock(p, dicted) <= s
    ensures ParseHeader(s, dicted) == Header(p.baseTime, p.baseSeq, |p.dict| + |p.payload|)
  {
    var e := EncodeBlock(p, dicted);
    assert s[..8] == e[..8] == PutLE(ToU64(p.baseTime), 8);
    assert s[8..16] == e[8..16] == PutLE(p.baseSeq, 8);
    assert s[16..HeaderLen(dicted)] == e[16..HeaderLen(dicted)] == Sizes(p, dicted);
    GetPutLE(ToU64(p.baseTime), 8);
    GetPutLE(p.baseSeq, 8);
    GetPutLE(|p.dict|, 4);
    GetPutLE(|p.payload|, 4);
    if dicted {
      assert s[16..20] == Sizes(p, dicted)[..4] && s[20..24] == Sizes(p, dicted)[4..];
    }
  }

  /** The scan goes from the `j`-th offset to the next one. */
  ghost predicate Advances(parse: HeaderParser, h: nat, file: seq<byte>, offs: seq<nat>, infos: seq<BlockInfo>, j: nat)
    requires j < |infos| == |offs| - 1
  {
    && offs[j] <= |file| && offs[j + 1] <= |file|
    && Scan(parse, h, file, offs[j]) == [infos[j]] + Scan(parse, h, file, offs[j + 1])
  }

  lemma {:induction false} ScanChain(parse: HeaderParser, h: nat, file: seq<byte>, offs: seq<nat>,
                                     infos: seq<BlockInfo>, j: nat, k: nat)
    requires j <= k <= |infos| == |offs| - 1
    requires forall i :: j <= i < k ==> Advances(parse, h, file, offs, infos, i)
    requires offs[k] <= |file| && Scan(parse, h, file, offs[k]) == []
    ensures offs[j] <= |file| && Scan(parse, h, file, offs[j]) == infos[j..k]
    decreases k - j
  {
    if j < k {
      assert Advances(parse, h, file, offs, infos, j);
      ScanChain(parse, h, file, offs, infos, j + 1, k);
      Cons(infos, j, k);
    }
  }

  /** The header found where a block, or what is left of it, begins. */
  lemma HeaderAt(file: seq<byte>, header: seq<byte>, ps: seq<Packed>, dicted: bool, j: nat)
    requires |header| == FILE_HEADER && AllStorable(ps, dicted) && file <= FileBody(header, ps, dicted) && j < |ps|
    requires Offsets(Parts(ps, dicted))[j] + HeaderLen(dicted) <= |file|
    ensures Headers(dicted)(file[Offsets(Parts(ps, dicted))[j]..]) ==
            Header(ps[j].baseTime, ps[j].baseSeq, |ps[j].dict| + |ps[j].payload|)
  {
    PartAt(file, header, Parts(ps, dicted), j);
    HeaderPut(ps[j], dicted, file[Offsets(Parts(ps, dicted))[j]..]);
  }

  /** In a body cut off anywhere, the scan passes a block that is wholly there. */
  lemma ScanPasses(file: seq<byte>, header: seq<byte>, ps: seq<Packed>, dicted: bool, j: nat, k: nat)
    requires |header| == FILE_HEADER && AllStorable(ps, dicted) && file <= FileBody(header, ps, dicted)
    requires j < k <= |ps| && Present(|file|, Parts(ps, dicted), k)
    ensures Advances(Headers(dicted), HeaderLen(dicted), file, Offsets(Parts(ps, dicted)), Infos(ps, dicted), j)
  {
    var offs := Offsets(Parts(ps, dicted));
    OffsetsRise(Parts(ps, dicted), j, k);
    OffsetsRise(Parts(ps, dicted), j + 1, k);
    OffsetStep(ps, dicted, j);
    HeaderAt(file, header, ps, dicted, j);
    ScanOne(Headers(dicted), HeaderLen(dicted), file, offs, Infos(ps, dicted), j,
            Header(ps[j].baseTime, ps[j].baseSeq, |ps[j].dict| + |ps[j].payload|));
  }

  /** It stops at the first block that is not. */
  lemma ScanEnds(file: seq<byte>, header: seq<byte>, ps: seq<Packed>, dicted: bool, k: nat)
    requires |header| == FILE_HEADER && AllStorable(ps, dicted) && file <= FileBody(header, ps, dicted)
    requires k <= |ps| && Present(|file|, Parts(ps, dicted), k)
    ensures Scan(Headers(dicted), HeaderLen(dicted), file, Offsets(Parts(ps, dicted))[k]) == []
  {
    if k == |ps| {
      EndOfBody(header, Parts(ps, dicted));
    } else {
      OffsetStep(ps, dicted, k);
      if Offsets(Parts(ps, dicted))[k] + HeaderLen(dicted) <= |file| {
        HeaderAt(file, header, ps, dicted, k);
      }
    }
  }

  lemma OffsetStep(ps: seq<Packed>, dicted: bool, j: nat)
    requires AllStorable(ps, dicted) && j < |ps|
    ensures var offs := Offsets(Parts(ps, dicted));
            offs[j + 1] == offs[j] + HeaderLen(dicted) + |ps[j].dict| + |ps[j].payload|
  {
    FlattenTake(Parts(ps, dicted), j);
  }

  lemma ScanOne(parse: HeaderParser, h: nat, file: seq<byte>, offs: seq<nat>, infos: seq<BlockInfo>, j: nat,
                header: Header)
    requires j < |infos| == |offs| - 1 && offs[j + 1] == offs[j] + h + header.size <= |file| && header.size > 0
    requires parse(file[offs[j]..]) == header && infos[j] == BlockInfo(offs[j], header.baseTime, header.baseSeq)
    ensures Advances(parse, h, file, offs, infos, j)
  {
  }

  lemma Cons(s: seq<BlockInfo>, j: nat, k: nat)
    requires j < k <= |s|
    ensures s[j..k] == [s[j]] + s[j + 1..k]
  {
  }

  lemma EndOfBody(header: seq<byte>, parts: seq<seq<byte>>)
    requires |header| == FILE_HEADER
    ensures Offsets(parts)[|parts|] == |header + Flatten(parts)|
  {
    assert parts[..|parts|] == parts;
  }

  /** The scan of any truncation of a body finds exactly the blocks wholly present. */
  lemma ScanTruncated(header: seq<byte>, ps: seq<Packed>, dicted: bool, n: nat)
    requires |header| == FILE_HEADER && AllStorable(ps, dicted) && FILE_HEADER <= n <= |FileBody(header, ps, dicted)|
    ensures var k := Whole(Parts(ps, dicted), n - FILE_HEADER);
            ScanFile(FileBody(header, ps, dicted)[..n], dicted) == Infos(ps, dicted)[..k]
  {
    var file := FileBody(header, ps, dicted)[..n];
    var k := Whole(Parts(ps, dicted), n - FILE_HEADER);
    WholePresent(|file|, Parts(ps, dicted));
    forall j | 0 <= j < k
      ensures Advances(Headers(dicted), HeaderLen(dicted), file, Offsets(Parts(ps, dicted)), Infos(ps, dicted), j)
    {
      ScanPasses(file, header, ps, dicted, j, k);
    }
    ScanEnds(file, header, ps, dicted, k);
    ScanChain(Headers(dicted), HeaderLen(dicted), file, Offsets(Parts(ps, dicted)), Infos(ps, dicted), 0, k);
    assert Offsets(Parts(ps, dicted))[0] == FILE_HEADER;
    assert Infos(ps, dicted)[0..k] == Infos(ps, dicted)[..k];
  }

  /** The scan of a whole body finds all blocks. */
  lemma ScanBody(header: seq<byte>, ps: seq<Packed>, dicted: bool)
    requires |header| == FILE_HEADER && AllStorable(ps, dicted)
    ensures ScanFile(FileBody(header, ps, dicted), dicted) == Infos(ps, dicted)
  {
    var body := FileBody(header, ps, dicted);
    ScanTruncated(header, ps, dicted, |body|);
    WholeIff(Parts(ps, dicted), |Flatten(Parts(ps, dicted))|);
    AllOf(body, Infos(ps, dicted));
  }

  lemma AllOf(body: seq<byte>, infos: seq<BlockInfo>)
    ensures body[..|body|] == body && infos[..|infos|] == infos
  {
  }

  // ---- The index ----

  datatype IndexResult = NoIndex | Table(blocks: seq<BlockInfo>)

  /** Entry `i` of the offset table that begins at `start`. */
  function StoredOffset(file: seq<byte>, start: nat, i: nat): int
    requires start + 8 * i + 8 <= |file|
  {
    FromU64(GetLE(file[start + 8 * i..start + 8 * i + 8]))
  }

  function InfoAt(file: seq<byte>, off: nat): BlockInfo
    requires off + 16 <= |file|
  {
    BlockInfo(off, FromU64(GetLE(file[off..off + 8])), GetLE(file[off + 8..off + 16]))
  }

  /** The offset table of `count` entries that begins at `start`. */
  function OffsetsIn(file: seq<byte>, start: nat, count: nat): (offs: seq<int>)
    requires start + 8 * count <= |file|
    ensures |offs| == count
  {
    seq(count, i requires 0 <= i < count => StoredOffset(file, start, i))
  }

  /** Offsets lie between file header and table and rise strictly. */
  predicate Good(offs: seq<int>, start: int) {
    forall i :: 0 <= i < |offs| ==> FILE_HEADER <= offs[i] < start && (i > 0 ==> offs[i - 1] < offs[i])
  }

  function InfosAt(file: seq<byte>, offs: seq<int>): (infos: seq<BlockInfo>)
    requires Good(offs, |file| - 15)
    ensures |infos| == |offs|
  {
    seq(|offs|, i requires 0 <= i < |offs| => InfoAt(file, offs[i]))
  }

  /** What a reader makes of the end of a file. */
  function ReadIndex(file: seq<byte>): IndexResult {
    var n := |file|;
    if n < FILE_HEADER + 8 || file[n - 4..] != INDEX_MAGIC then NoIndex
    else
      var count := GetLE(file[n - 8..n - 4]);
      var start := n - 8 - 8 * count;
      if count == 0 then Table([])
      else if count > MAX_INDEX || start < FILE_HEADER then NoIndex
      else if Good(OffsetsIn(file, start, count), start) then Table(InfosAt(file, OffsetsIn(file, start, count)))
      else NoIndex
  }

  /** Whatever the file, the blocks of a table that is accepted begin behind the header and before the index,
      one behind the other, and the index says how many there are. */
  lemma TableSound(file: seq<byte>)
    requires ReadIndex(file).Table?
    ensures var bs := ReadIndex(file).blocks;
            && |file| >= FILE_HEADER + 8 && file[|file| - 4..] == INDEX_MAGIC
            && |bs| == GetLE(file[|file| - 8..|file| - 4]) <= 262144
            && (forall i :: 0 <= i < |bs| ==> FILE_HEADER <= bs[i].offset < |file| - 8 - 8 * |bs|)
            && (forall i, j :: 0 <= i < j < |bs| ==> bs[i].offset < bs[j].offset)
            && (forall i :: 0 <= i < |bs| ==> bs[i].offset == OffsetsIn(file, |file| - 8 - 8 * |bs|, |bs|)[i])
  {
    var bs := ReadIndex(file).blocks;
    forall i, j | 0 <= i < j < |bs| ensures bs[i].offset < bs[j].offset {
      Rise(OffsetsIn(file, |file| - 8 - 8 * |bs|, |bs|), |file| - 8 - 8 * |bs|, i, j);
    }
  }

  lemma {:induction false} Rise(offs: seq<int>, start: int, i: nat, j: nat)
    requires Good(offs, start) && i < j < |offs|
    ensures offs[i] < offs[j]
    decreases j
  {
    if i < j - 1 {
      Rise(offs, start, i, j - 1);
    }
  }

  method ReadBlockIndex(file: seq<byte>) returns (r: IndexResult)
    ensures r == ReadIndex(file)
  {
    var n := |file|;
    if n < FILE_HEADER + 8 || file[n - 4..] != INDEX_MAGIC {
      return NoIndex;
    }
    var count := GetLE(file[n - 8..n - 4]);
    if count == 0 {
      return Table([]);
    }
    var start := n - 8 - 8 * count;
    if count > MAX_INDEX || start < FILE_HEADER {
      return NoIndex;
    }
    var ok, offs := CheckOffsets(file, start, count);
    if !ok {
      return NoIndex;
    }
    var blocks := ReadHeaders(file, offs);
    return Table(blocks);
  }

  method CheckOffsets(file: seq<byte>, start: nat, count: nat) returns (ok: bool, offs: seq<int>)
    requires start + 8 * count <= |file|
    ensures ok == Good(OffsetsIn(file, start, count), start)
    ensures ok ==> offs == OffsetsIn(file, start, count)
  {
    offs := [];
    ghost var all := OffsetsIn(file, start, count);
    for i := 0 to count
      invariant offs == all[..i] && Good(offs, start)
    {
      var off := StoredOffset(file, start, i);
      assert off == all[i];
      if off < FILE_HEADER || off >= start || (i > 0 && off <= offs[i - 1]) {
        return false, offs;
      }
      NextGood(all, i, off, start);
      offs := offs + [off];
    }
    return true, offs;
  }

  lemma NextGood(all: seq<int>, i: nat, off: int, start: int)
    requires i < |all| && all[i] == off && Good(all[..i], start)
    requires FILE_HEADER <= off < start && (i > 0 ==> all[i - 1] < off)
    ensures all[..i] + [off] == all[..i + 1] && Good(all[..i + 1], start)
  {
  }

  method ReadHeaders(file: seq<byte>, offs: seq<int>) returns (blocks: seq<BlockInfo>)
    requires Good(offs, |file| - 15)
    ensures blocks == InfosAt(file, offs)
  {
    blocks := [];
    for i := 0 to |offs|
      invariant blocks == InfosAt(file, offs)[..i]
    {
      blocks := blocks + [InfoAt(file, offs[i])];
    }
  }

  /** A compressed file's block table: the index, or else a scan. */
  method OpenBlocks(file: seq<byte>, dicted: bool) returns (blocks: seq<BlockInfo>)
    requires |file| >= FILE_HEADER
    ensures blocks == TableOf(file, dicted)
  {
    var r := ReadBlockIndex(file);
    match r
    case Table(found) => blocks := found;
    case NoIndex => blocks := ScanBlocks(file, dicted);
  }

  function TableOf(file: seq<byte>, dicted: bool): seq<BlockInfo>
    requires |file| >= FILE_HEADER
  {
    match ReadIndex(file)
    case Table(found) => found
    case NoIndex => ScanFile(file, dicted)
  }

  lemma {:induction false} EqualLength(parts: seq<seq<byte>>)
    requires forall j :: 0 <= j < |parts| ==> |parts[j]| == 8
    ensures |Flatten(parts)| == 8 * |parts|
  {
    if parts != [] {
      EqualLength(parts[..|parts| - 1]);
    }
  }

  /** Equally long parts lie at multiples of their length. */
  lemma EqualParts(parts: seq<seq<byte>>, i: nat)
    requires (forall j :: 0 <= j < |parts| ==> |parts[j]| == 8) && i < |parts|
    ensures |Flatten(parts)| == 8 * |parts| && Flatten(parts)[8 * i..8 * i + 8] == parts[i]
  {
    EqualLength(parts);
    EqualLength(parts[..i]);
    FlattenHalves(parts, i);
    FlattenDrop(parts, i);
    Middle(Flatten(parts[..i]), parts[i], Flatten(parts[i + 1..]));
  }

  lemma Middle(x: seq<byte>, y: seq<byte>, z: seq<byte>)
    ensures (x + (y + z))[|x|..|x| + |y|] == y
  {
  }

  /** The end of a file that ends in the index of these offsets. */
  lemma TailRead(body: seq<byte>, offs: seq<nat>)
    requires 0 < |offs| < Pow256(4)
    ensures var file := body + Index(offs);
            && |Flatten(OffsetParts(offs))| == 8 * |offs| && |file| == |body| + 8 * |offs| + 8
            && file[|file| - 4..] == INDEX_MAGIC && GetLE(file[|file| - 8..|file| - 4]) == |offs|
  {
    EqualParts(OffsetParts(offs), 0);
    TailAt(body, Flatten(OffsetParts(offs)), PutLE(|offs|, 4));
    GetPutLE(|offs|, 4);
  }

  lemma TailAt(body: seq<byte>, table: seq<byte>, count: seq<byte>)
    requires |count| == 4
    ensures var file := body + (table + (count + INDEX_MAGIC));
            && |file| == |body| + |table| + 8 && file[|file| - 4..] == INDEX_MAGIC
            && file[|file| - 8..|file| - 4] == count
  {
  }

  lemma OffsetsRead(body: seq<byte>, offs: seq<nat>)
    requires 0 < |offs| && |Flatten(OffsetParts(offs))| == 8 * |offs|
    requires forall i :: 0 <= i < |offs| ==> offs[i] < 0x8000_0000_0000_0000
    ensures |body + Index(offs)| >= |body| + 8 * |offs| && OffsetsIn(body + Index(offs), |body|, |offs|) == offs
  {
    forall i | 0 <= i < |offs| ensures StoredOffset(body + Index(offs), |body|, i) == offs[i] {
      OffsetRead(body, Flatten(OffsetParts(offs)), PutLE(|offs|, 4) + INDEX_MAGIC, offs, i);
    }
  }

  lemma OffsetRead(body: seq<byte>, table: seq<byte>, tail: seq<byte>, offs: seq<nat>, i: nat)
    requires i < |offs| && offs[i] < 0x8000_0000_0000_0000 && table == Flatten(OffsetParts(offs))
    requires |table| == 8 * |offs|
    ensures StoredOffset(body + (table + tail), |body|, i) == offs[i]
  {
    EqualParts(OffsetParts(offs), i);
    assert (body + (table + tail))[|body| + 8 * i..|body| + 8 * i + 8] == table[8 * i..8 * i + 8];
    Pow256Constants();
    GetPutLE(offs[i], 8);
  }

  lemma InfoPut(file: seq<byte>, off: nat, p: Packed, dicted: bool)
    requires Storable(p, dicted) && off <= |file| && EncodeBlock(p, dicted) <= file[off..]
    ensures off + 16 <= |file| && InfoAt(file, off) == BlockInfo(off, p.baseTime, p.baseSeq)
  {
    HeaderPut(p, dicted, file[off..]);
    assert file[off..][..8] == file[off..off + 8] && file[off..][8..16] == file[off + 8..off + 16];
  }

  lemma OffsetsGood(header: seq<byte>, ps: seq<Packed>, dicted: bool)
    requires |header| == FILE_HEADER && AllStorable(ps, dicted)
    ensures Good(BlockOffsets(ps, dicted), |FileBody(header, ps, dicted)|)
  {
    var parts, offs := Parts(ps, dicted), BlockOffsets(ps, dicted);
    EndOfBody(header, parts);
    forall i | 0 <= i < |ps|
      ensures FILE_HEADER <= offs[i] < |FileBody(header, ps, dicted)| && (i > 0 ==> offs[i - 1] < offs[i])
    {
      OffsetGood(parts, i);
    }
  }

  lemma OffsetGood(parts: seq<seq<byte>>, i: nat)
    requires i < |parts| && forall k :: 0 <= k < |parts| ==> |parts[k]| > 0
    ensures var offs := Offsets(parts); FILE_HEADER <= offs[i] < offs[|parts|] && (i > 0 ==> offs[i - 1] < offs[i])
  {
    OffsetsRise(parts, i + 1, |parts|);
    FlattenTake(parts, i);
    if i > 0 {
      FlattenTake(parts, i - 1);
    }
  }

  lemma InfosRead(file: seq<byte>, header: seq<byte>, ps: seq<Packed>, dicted: bool)
    requires |header| == FILE_HEADER && AllStorable(ps, dicted) && FileBody(header, ps, dicted) <= file
    requires Good(BlockOffsets(ps, dicted), |file| - 15)
    ensures InfosAt(file, BlockOffsets(ps, dicted)) == Infos(ps, dicted)
  {
    var parts, offs := Parts(ps, dicted), BlockOffsets(ps, dicted);
    forall i | 0 <= i < |ps| ensures InfoAt(file, offs[i]) == Infos(ps, dicted)[i] {
      PartInPlace(file, header, parts, i);
      InfoPut(file, offs[i], ps[i], dicted);
    }
  }

  /** For every complete file within the index limit, the table read from the index is the forward
      scan of the body, and both are the blocks written. */
  lemma IndexIsScan(header: seq<byte>, ps: seq<Packed>, dicted: bool)
    requires |header| == FILE_HEADER && AllStorable(ps, dicted) && 0 < |ps| <= MAX_INDEX
    requires |FileBody(header, ps, dicted)| < 0x8000_0000_0000_0000
    ensures ReadIndex(Complete(header, ps, dicted)) == Table(ScanFile(FileBody(header, ps, dicted), dicted))
    ensures ScanFile(FileBody(header, ps, dicted), dicted) == Infos(ps, dicted)
  {
    var body, offs := FileBody(header, ps, dicted), BlockOffsets(ps, dicted);
    ScanBody(header, ps, dicted);
    OffsetsGood(header, ps, dicted);
    Pow256Constants();
    TailRead(body, offs);
    OffsetsRead(body, offs);
    InfosRead(body + Index(offs), header, ps, dicted);
    IndexOf(body + Index(offs), |body|, offs);
  }

  lemma IndexOf(file: seq<byte>, start: nat, offs: seq<int>)
    requires |file| == start + 8 * |offs| + 8 && file[|file| - 4..] == INDEX_MAGIC
    requires GetLE(file[|file| - 8..|file| - 4]) == |offs|
    requires FILE_HEADER <= start && 0 < |offs| <= MAX_INDEX && OffsetsIn(file, start, |offs|) == offs
    requires Good(offs, start)
    ensures ReadIndex(file) == Table(InfosAt(file, offs))
  {
  }

  /** A file cut off within its body, unless it happens to end in the index magic, opens with
      exactly the blocks wholly present. */
  lemma TruncatedOpens(header: seq<byte>, ps: seq<Packed>, dicted: bool, n: nat)
    requires |header| == FILE_HEADER && AllStorable(ps, dicted) && FILE_HEADER <= n <= |FileBody(header, ps, dicted)|
    requires FileBody(header, ps, dicted)[..n][n - 4..] != INDEX_MAGIC
    ensures var k := Whole(Parts(ps, dicted), n - FILE_HEADER);
            TableOf(FileBody(header, ps, dicted)[..n], dicted) == Infos(ps, dicted)[..k]
  {
    ScanTruncated(header, ps, dicted, n);
  }
}
