/** The journal writer: frames are encoded into a block buffer in place, the device table is laid
    out from the far end when the block is flushed, and full blocks go to a file until it is
    rotated. */
module JournalWriting {
  import opened Bytes
  import opened CanId
  import opened JournalFormat
  import opened JournalBlock

  const ADDRESS_CLAIM: nat := 60928
  const MIN_BLOCK: nat := 4096

  /** A device of the registry. */
  datatype Device = Device(source: byte, name: nat, product: Product)

  /** An address claim seen in the current block. */
  datatype Change = Change(bus: string, source: byte, name: nat, frameIdx: nat)

  /** Product information by bus and address, as the registry has it. */
  type Registry = map<(string, byte), Product>

  predicate IsClaim(f: RxFrame) {
    f.header.pgn == ADDRESS_CLAIM && |f.data| >= 8
  }

  function ClaimChange(f: RxFrame, idx: nat): Change
    requires IsClaim(f)
  {
    Change(f.bus, f.header.source, GetLE(f.data[..8]), idx)
  }

  /** The claims among these frames, each with the index of its frame. */
  function Claims(fs: seq<RxFrame>): seq<Change> {
    if fs == [] then []
    else
      var n := |fs| - 1;
      Claims(fs[..n]) + if IsClaim(fs[n]) then [ClaimChange(fs[n], n)] else []
  }

  function StartEntries(snapshot: seq<Device>): seq<DeviceEntry> {
    if snapshot == [] then []
    else
      var d := snapshot[|snapshot| - 1];
      StartEntries(snapshot[..|snapshot| - 1]) + if d.name != 0 then [StartEntry(d)] else []
  }

  function StartEntry(d: Device): DeviceEntry {
    DeviceEntry(d.source, d.name, 0, d.product)
  }

  function ProductOf(registry: Registry, bus: string, source: byte): Product {
    if (bus, source) in registry then registry[(bus, source)] else NO_PRODUCT
  }

  function ChangeEntry(c: Change, registry: Registry): DeviceEntry {
    DeviceEntry(c.source, c.name, c.frameIdx, ProductOf(registry, c.bus, c.source))
  }

  function ChangeEntries(changes: seq<Change>, registry: Registry): (es: seq<DeviceEntry>)
    ensures |es| == |changes|
  {
    seq(|changes|, i requires 0 <= i < |changes| => ChangeEntry(changes[i], registry))
  }

  /** Bytes of one encoded frame, as the writer adds them up. */
  method EncodedSize(delta: nat, f: RxFrame) returns (size: nat)
    ensures size == |EncodeFrame(delta, Stored(f))|
  {
    var deltaSize := UvarintSize(delta);
    if |f.data| == 8 {
      size := deltaSize + 4 + 8;
    } else {
      var lenSize := UvarintSize(|f.data|);
      size := deltaSize + 4 + lenSize + |f.data|;
    }
  }

  /** A frame whose time, identifier and number have room in their fields. */
  predicate Acceptable(f: RxFrame) {
    Encodable(Stored(f)) && f.seqNo < Pow256(8)
  }

  // ---- The writer's state and its steps ----

  datatype Writing = Writing(
    block: seq<byte>,
    dataOffset: nat,
    frameCount: nat,
    baseTimeUs: int,
    lastTimeUs: int,
    baseSeq: nat,
    startEntries: seq<DeviceEntry>,
    startTableSize: nat,
    changes: seq<Change>,
    open: bool, // there is a current file
    written: seq<seq<byte>>, // its blocks
    rotated: seq<seq<seq<byte>>>) // the files before it, each with its blocks
  {
    /** The blocks of all files, in order. */
    function Journal(): seq<seq<byte>> {
      BlocksOf(rotated) + written
    }

    /** The entries a flush would write now. */
    function Entries(registry: Registry): seq<DeviceEntry> {
      startEntries + ChangeEntries(changes, registry)
    }

    /** The space the fit check keeps free for the device table. */
    function Reserve(): nat {
      2 + startTableSize + |changes| * DEVICE_ENTRY_MAX
    }

    /** The stored time difference of the next frame in this block. */
    function NextDelta(f: RxFrame): nat {
      if frameCount > 0 then Delta(lastTimeUs, f.time) else 0
    }

    /** The fit check: the frame, the reserved table and the trailer have room. */
    predicate Fits(f: RxFrame) {
      dataOffset + |EncodeFrame(NextDelta(f), Stored(f))| + Reserve() + TRAILER_LEN <= |block|
    }

    /** The frame goes into the current block. */
    predicate Continues(f: RxFrame) {
      frameCount > 0 && Fits(f)
    }

    /** A flush finds space for the table at all; otherwise the writer panics. */
    predicate Flushable(registry: Registry) {
      frameCount > 0 ==> TableBytes(Entries(registry)) + TRAILER_LEN <= |block|
    }

    /** Table and trailer have their reserved room behind the frames. */
    predicate Roomy() {
      dataOffset + Reserve() + TRAILER_LEN <= |block|
    }
  }

  function BlocksOf(files: seq<seq<seq<byte>>>): seq<seq<byte>> {
    if files == [] then [] else BlocksOf(files[..|files| - 1]) + files[|files| - 1]
  }

  /** A writer that has not taken a frame. */
  function NewWriting(blockSize: nat): Writing {
    Writing(Zeros(blockSize), 0, 0, 0, 0, 0, [], 0, [], false, [], [])
  }

  function Zeros(n: nat): seq<byte> {
    seq(n, _ => 0)
  }

  function Header(n: nat, time: seq<byte>, number: seq<byte>): (r: seq<byte>)
    requires |time| == |number| == 8 && 16 <= n
    ensures |r| == n
  {
    Overwrite(Overwrite(Zeros(n), 0, time), 8, number)
  }

  /** A fresh block for `f`. */
  function Fresh(w: Writing, f: RxFrame, snapshot: seq<Device>): (r: Writing)
    requires |w.block| >= DATA_OFFSET && Int64(f.time)
    ensures |r.block| == |w.block|
  {
    var es := StartEntries(snapshot);
    w.(block := Header(|w.block|, PutLE(ToU64(f.time), 8), PutLE(f.seqNo, 8)),
       dataOffset := DATA_OFFSET, frameCount := 0, baseTimeUs := f.time, lastTimeUs := f.time, baseSeq := f.seqNo,
       startEntries := es, startTableSize := EntriesSize(es), changes := [])
  }

  /** Device table, table size, frame count and checksum, written over the end of the block. */
  function Tail(block: seq<byte>, table: seq<byte>, tableBytes: nat, count: nat, crc: Checksum): (r: seq<byte>)
    requires |table| <= tableBytes && tableBytes + TRAILER_LEN <= |block|
    ensures |r| == |block|
  {
    var bs := |block|;
    var b := BeforeSum(block, table, tableBytes, count);
    Overwrite(b, bs - 4, PutLE(Sum(crc, b[..bs - 4]), 4))
  }

  function BeforeSum(block: seq<byte>, table: seq<byte>, tableBytes: nat, count: nat): (r: seq<byte>)
    requires |table| <= tableBytes && tableBytes + TRAILER_LEN <= |block|
    ensures |r| == |block|
  {
    var bs := |block|;
    var b := Overwrite(block, bs - 10 - tableBytes, table);
    Overwrite(Overwrite(b, bs - 10, PutLE(tableBytes, 2)), bs - 8, PutLE(count, 4))
  }

  /** The bytes a flush leaves in the block. */
  function Sealed(w: Writing, registry: Registry, crc: Checksum): (r: seq<byte>)
    requires w.frameCount > 0 && w.Flushable(registry)
    ensures |r| == |w.block|
  {
    var es := w.Entries(registry);
    EntriesNoLonger(es);
    Tail(w.block, EncodeTable(es), TableBytes(es), w.frameCount, crc)
  }

  /** The block with its table and trailer, appended to the current file. */
  function Flushed(w: Writing, registry: Registry, crc: Checksum): (r: Writing)
    requires w.Flushable(registry)
    ensures |r.block| == |w.block|
  {
    if w.frameCount == 0 then w
    else
      var b := Sealed(w, registry, crc);
      w.(block := b, frameCount := 0, dataOffset := DATA_OFFSET, written := w.written + [b])
  }

  /** The current file is closed; the next frame opens another. */
  function Rotated(w: Writing): Writing {
    w.(open := false, written := [], rotated := w.rotated + [w.written])
  }

  /** `f`, encoded as `bytes`, behind the frames of the block. Bytes beyond its end are dropped. */
  function Put(w: Writing, f: RxFrame, bytes: seq<byte>): (r: Writing)
    requires w.dataOffset <= |w.block|
    ensures |r.block| == |w.block|
  {
    w.(block := Overwrite(w.block, w.dataOffset, bytes[..Fitting(w.block, w.dataOffset, bytes)]),
       dataOffset := w.dataOffset + |bytes|, frameCount := w.frameCount + 1, lastTimeUs := f.time,
       changes := w.changes + if IsClaim(f) then [ClaimChange(f, w.frameCount)] else [])
  }

  function Fitting(block: seq<byte>, off: nat, bytes: seq<byte>): (n: nat)
    requires off <= |block|
    ensures n <= |bytes| && off + n <= |block|
  {
    if |bytes| <= |block| - off then |bytes| else |block| - off
  }

  /** A frame with what the registry says when it is appended, and whether the file is then due for
      rotation and the writer paused. */
  datatype Input = Input(f: RxFrame, snapshot: seq<Device>, registry: Registry, rotate: bool, paused: bool)

  /** The frame is acceptable and the flush it may cause does not panic. */
  predicate CanAppend(w: Writing, i: Input) {
    && MIN_BLOCK <= |w.block| && Acceptable(i.f)
    && (!w.Fits(i.f) ==> w.Flushable(i.registry))
  }

  /** Appending the frame closes the current file and leaves the frame in a block without one. */
  predicate Rotates(w: Writing, i: Input) {
    !w.Fits(i.f) && i.rotate
  }

  /** The state in which a new block is begun. */
  function Turned(w: Writing, i: Input, crc: Checksum): (r: Writing)
    requires CanAppend(w, i) && !w.Continues(i.f)
    ensures |r.block| == |w.block|
  {
    var done := Flushed(w.(open := true), i.registry, crc);
    if Rotates(w, i) then Rotated(done) else done
  }

  /** Appending a frame, in a new block when it does not fit. */
  function Append(w: Writing, i: Input, crc: Checksum): (r: Writing)
    requires CanAppend(w, i)
    ensures |r.block| == |w.block|
  {
    if w.Continues(i.f) then Put(w.(open := true), i.f, EncodeFrame(w.NextDelta(i.f), Stored(i.f)))
    else Put(Fresh(Turned(w, i, crc), i.f, i.snapshot), i.f, EncodeFrame(0, Stored(i.f)))
  }

  /** The end of a run: the last block goes to the file, and the file is closed. A block without a
      file cannot be written. */
  function Finish(w: Writing, registry: Registry, crc: Checksum): (r: Writing)
    requires w.Flushable(registry)
  {
    if w.frameCount > 0 && !w.open then w.(block := Sealed(w, registry, crc))
    else
      var done := Flushed(w, registry, crc);
      if done.open then Rotated(done) else done
  }

  class JournalWriter {
    const crc: Checksum
    const block: array<byte>
    var dataOffset: nat
    var frameCount: nat
    var baseTimeUs: int
    var lastTimeUs: int
    var baseSeq: nat
    var startEntries: seq<DeviceEntry>
    var startTableSize: nat
    var changes: seq<Change>
    var open: bool
    var written: seq<seq<byte>>
    var rotated: seq<seq<seq<byte>>>

    function View(): Writing
      reads this, block
    {
      Writing(block[..], dataOffset, frameCount, baseTimeUs, lastTimeUs, baseSeq, startEntries, startTableSize, changes,
              open, written, rotated)
    }

    constructor (blockSize: nat, crc: Checksum)
      ensures View() == NewWriting(blockSize) && fresh(block) && this.crc == crc
    {
      this.crc := crc;
      block := new byte[blockSize](_ => 0);
      dataOffset, frameCount, baseTimeUs, lastTimeUs, baseSeq := 0, 0, 0, 0, 0;
      startEntries, startTableSize, changes, open, written, rotated := [], 0, [], false, [], [];
      new;
      assert block[..] == Zeros(blockSize);
    }

    method InitBlock(f: RxFrame, snapshot: seq<Device>)
      requires block.Length >= DATA_OFFSET && Int64(f.time)
      modifies this, block
      ensures View() == Fresh(old(View()), f, snapshot)
    {
      WriteHeader(block, PutLE(ToU64(f.time), 8), PutLE(f.seqNo, 8));
      dataOffset, frameCount, baseTimeUs, lastTimeUs, baseSeq := DATA_OFFSET, 0, f.time, f.time, f.seqNo;
      startEntries, startTableSize := CollectStart(snapshot);
      changes := [];
    }

    /** Writing the block fails when there is no file. */
    method FlushBlock(registry: Registry) returns (ok: bool)
      requires View().Flushable(registry)
      modifies this, block
      ensures ok == (old(frameCount) == 0 || open)
      ensures ok ==> View() == Flushed(old(View()), registry, crc)
      ensures !ok ==> View() == old(View()).(block := Sealed(old(View()), registry, crc))
    {
      if frameCount == 0 {
        return true;
      }
      var es := View().Entries(registry);
      EntriesNoLonger(es);
      WriteTail(block, EncodeTable(es), TableBytes(es), frameCount, crc);
      if !open {
        return false;
      }
      written := written + [block[..]];
      frameCount, dataOffset := 0, DATA_OFFSET;
      return true;
    }

    method PutFrame(f: RxFrame, bytes: seq<byte>)
      requires dataOffset <= block.Length
      modifies this, block
      ensures View() == Put(old(View()), f, bytes)
    {
      PutAt(block, dataOffset, bytes[..Fitting(block[..], dataOffset, bytes)]);
      if IsClaim(f) {
        changes := changes + [ClaimChange(f, frameCount)];
      }
      dataOffset := dataOffset + |bytes|;
      lastTimeUs := f.time;
      frameCount := frameCount + 1;
    }

    method CloseFile()
      modifies this
      ensures View() == Rotated(old(View()))
    {
      rotated := rotated + [written];
      written, open := [], false;
    }

    /** Writes the current block away, closes the file if it is due, and begins a block. */
    method TurnBlock(i: Input)
      requires CanAppend(View(), i) && open && !View().Fits(i.f)
      modifies this, block
      ensures View() == Fresh(Turned(old(View()), i, crc), i.f, i.snapshot)
    {
      var _ := FlushBlock(i.registry);
      if i.rotate {
        CloseFile();
      }
      InitBlock(i.f, i.snapshot);
    }

    method AppendFrame(i: Input)
      requires CanAppend(View(), i)
      modifies this, block
      ensures View() == Append(old(View()), i, crc)
    {
      open := true;
      var delta := View().NextDelta(i.f);
      var size := EncodedSize(delta, i.f);
      var available := block.Length - dataOffset - View().Reserve() - TRAILER_LEN;
      if available < size {
        TurnBlock(i);
        delta := 0;
      }
      if frameCount == 0 {
        InitBlock(i.f, i.snapshot);
      }
      PutFrame(i.f, EncodeFrame(delta, Stored(i.f)));
    }

    method Finalize(registry: Registry) returns (ok: bool)
      requires View().Flushable(registry)
      modifies this, block
      ensures View() == Finish(old(View()), registry, crc)
      ensures ok == (old(frameCount) == 0 || old(open))
    {
      ok := FlushBlock(registry);
      if ok && open {
        CloseFile();
      }
    }

    /** The main loop: frames until the channel closes, those taken while paused dropped, then the
        last block. */
    method Run(inputs: seq<Input>, registry: Registry) returns (ok: bool)
      requires Accepts(View(), Taken(inputs), registry, crc)
      modifies this, block
      ensures View() == Finish(RunAll(old(View()), Taken(inputs), registry, crc), registry, crc)
      ensures ok == !Unfiled(RunAll(old(View()), Taken(inputs), registry, crc))
    {
      ghost var end := RunAll(View(), Taken(inputs), registry, crc);
      var k := 0;
      assert inputs[0..] == inputs;
      while k < |inputs|
        invariant 0 <= k <= |inputs|
        invariant Leads(View(), inputs[k..], end, registry, crc)
      {
        LeadsStep(View(), inputs[k..], end, registry, crc);
        assert inputs[k..][1..] == inputs[k + 1..];
        Take(inputs[k]);
        k := k + 1;
      }
      assert inputs[k..] == [];
      ok := Finalize(registry);
    }

    /** One frame from the channel, dropped while the writer is paused. */
    method Take(i: Input)
      requires i.paused || CanAppend(View(), i)
      modifies this, block
      ensures View() == After(old(View()), i, crc)
    {
      if i.paused {
        return;
      }
      AppendFrame(i);
    }
  }

  function After(w: Writing, i: Input, crc: Checksum): Writing
    requires i.paused || CanAppend(w, i)
  {
    if i.paused then w else Append(w, i, crc)
  }

  /** These inputs take the writer to `end`. */
  ghost predicate Leads(w: Writing, inputs: seq<Input>, end: Writing, registry: Registry, crc: Checksum) {
    Accepts(w, Taken(inputs), registry, crc) && RunAll(w, Taken(inputs), registry, crc) == end
  }

  lemma LeadsStep(w: Writing, inputs: seq<Input>, end: Writing, registry: Registry, crc: Checksum)
    requires inputs != [] && Leads(w, inputs, end, registry, crc)
    ensures inputs[0].paused || CanAppend(w, inputs[0])
    ensures Leads(After(w, inputs[0], crc), inputs[1..], end, registry, crc)
  {
    if inputs[0].paused {
      assert Taken(inputs) == Taken(inputs[1..]);
    } else {
      assert Taken(inputs)[1..] == Taken(inputs[1..]);
    }
  }

  /** The inputs that are not dropped. */
  function Taken(inputs: seq<Input>): seq<Input> {
    if inputs == [] then [] else (if inputs[0].paused then [] else [inputs[0]]) + Taken(inputs[1..])
  }

  /** No append of the run and no flush at its end makes the writer panic. */
  predicate Accepts(w: Writing, inputs: seq<Input>, registry: Registry, crc: Checksum)
    decreases |inputs|
  {
    if inputs == [] then w.Flushable(registry)
    else CanAppend(w, inputs[0]) && Accepts(Append(w, inputs[0], crc), inputs[1..], registry, crc)
  }

  function RunAll(w: Writing, inputs: seq<Input>, registry: Registry, crc: Checksum): (r: Writing)
    requires Accepts(w, inputs, registry, crc)
    ensures |r.block| == |w.block| && r.Flushable(registry)
    decreases |inputs|
  {
    if inputs == [] then w else RunAll(Append(w, inputs[0], crc), inputs[1..], registry, crc)
  }

  /** Frames are in a block that has no file. */
  predicate Unfiled(w: Writing) {
    w.frameCount > 0 && !w.open
  }

  method ClearBlock(block: array<byte>)
    modifies block
    ensures block[..] == Zeros(block.Length)
  {
    for k := 0 to block.Length
      invariant forall j :: 0 <= j < k ==> block[j] == 0
    {
      block[k] := 0;
    }
  }

  method WriteHeader(block: array<byte>, time: seq<byte>, number: seq<byte>)
    requires |time| == |number| == 8 && 16 <= block.Length
    modifies block
    ensures block[..] == Header(block.Length, time, number)
  {
    ClearBlock(block);
    PutAt(block, 0, time);
    PutAt(block, 8, number);
  }

  method WriteTail(block: array<byte>, table: seq<byte>, tableBytes: nat, count: nat, crc: Checksum)
    requires |table| <= tableBytes && tableBytes + TRAILER_LEN <= block.Length
    modifies block
    ensures block[..] == Tail(old(block[..]), table, tableBytes, count, crc)
  {
    var bs := block.Length;
    PutAt(block, bs - 10 - tableBytes, table);
    PutAt(block, bs - 10, PutLE(tableBytes, 2));
    PutAt(block, bs - 8, PutLE(count, 4));
    assert block[..bs - 4] == block[..][..bs - 4];
    PutAt(block, bs - 4, PutLE(Sum(crc, block[..bs - 4]), 4));
  }

  method CollectStart(snapshot: seq<Device>) returns (es: seq<DeviceEntry>, size: nat)
    ensures es == StartEntries(snapshot) && size == EntriesSize(es)
  {
    es, size := [], 0;
    for i := 0 to |snapshot|
      invariant es == StartEntries(snapshot[..i]) && size == EntriesSize(es)
    {
      StartSnoc(snapshot, i);
      if snapshot[i].name != 0 {
        var e := StartEntry(snapshot[i]);
        SizeSnoc(es, e);
        es := es + [e];
        size := size + EntrySize(e);
      }
    }
    assert snapshot[..|snapshot|] == snapshot;
  }

  lemma StartSnoc(snapshot: seq<Device>, i: nat)
    requires i < |snapshot|
    ensures StartEntries(snapshot[..i + 1]) ==
            StartEntries(snapshot[..i]) + if snapshot[i].name != 0 then [StartEntry(snapshot[i])] else []
  {
    assert snapshot[..i + 1][..i] == snapshot[..i];
  }

  lemma SizeSnoc(es: seq<DeviceEntry>, e: DeviceEntry)
    ensures EntriesSize(es + [e]) == EntriesSize(es) + EntrySize(e)
  {
    assert (es + [e])[..|es|] == es;
  }

  lemma {:induction false} EntriesNoLonger(es: seq<DeviceEntry>)
    ensures |EncodeTable(es)| <= TableBytes(es)
  {
    if es != [] {
      var front, last := es[..|es| - 1], es[|es| - 1];
      EntriesNoLonger(front);
      var parts := EntryParts(es);
      assert parts[..|es| - 1] == EntryParts(front);
      EntryNoLonger(last);
    }
  }

  lemma EntryNoLonger(e: DeviceEntry)
    ensures |EncodeEntry(e)| <= EntrySize(e)
  {
    var parts := TextParts(Texts(e.product));
    FlattenTake(parts, 0);
    FlattenTake(parts, 1);
    FlattenTake(parts, 2);
    FlattenTake(parts, 3);
    assert parts[..4] == parts && parts[..0] == [];
  }

  // ---- What every step keeps ----

  /** What went into one flushed block, and where its frames end. */
  datatype Segment = Segment(frames: seq<RxFrame>, baseSeq: nat, entries: seq<DeviceEntry>, dataOffset: nat)

  ghost predicate Readable(s: Segment, block: seq<byte>, blockSize: nat, crc: Checksum) {
    && |block| == blockSize && s.frames != [] && s.baseSeq == s.frames[0].seqNo
    && s.dataOffset == DATA_OFFSET + |EncodeFrames(StoredAll(s.frames))|
    && IsBlock(block, StoredAll(s.frames), s.baseSeq, s.entries, crc)
  }

  ghost predicate AllReadable(segments: seq<Segment>, blocks: seq<seq<byte>>, blockSize: nat, crc: Checksum) {
    && |segments| == |blocks|
    && (segments == [] ||
        (&& AllReadable(segments[..|segments| - 1], blocks[..|blocks| - 1], blockSize, crc)
         && Readable(segments[|segments| - 1], blocks[|blocks| - 1], blockSize, crc)))
  }

  /** `block` starts with the encoding of these frames, which ends at `off`; what does not fit the
      block is not there. */
  ghost predicate Holds(block: seq<byte>, off: nat, frames: seq<RxFrame>, baseSeq: nat) {
    && frames != [] && AllEncodable(StoredAll(frames)) && baseSeq < Pow256(8) && baseSeq == frames[0].seqNo
    && off == |Prefix(StoredAll(frames), baseSeq)| && Agree(block, Prefix(StoredAll(frames), baseSeq))
  }

  /** The writer holds `frames` in its block and has flushed `segments`. */
  ghost predicate Recorded(w: Writing, frames: seq<RxFrame>, segments: seq<Segment>, crc: Checksum) {
    && MIN_BLOCK <= |w.block| < Pow256(4) && w.frameCount == |frames| < Pow256(4)
    && AllReadable(segments, w.Journal(), |w.block|, crc)
    && (frames != [] ==> Current(w, frames))
  }

  ghost predicate Current(w: Writing, frames: seq<RxFrame>) {
    && Holds(w.block, w.dataOffset, frames, w.baseSeq)
    && w.lastTimeUs == frames[|frames| - 1].time
    && w.changes == Claims(frames)
    && w.startTableSize == EntriesSize(w.startEntries)
  }

  function SegmentOf(w: Writing, frames: seq<RxFrame>, registry: Registry): Segment {
    Segment(frames, w.baseSeq, w.Entries(registry), w.dataOffset)
  }

  /** What a flush adds to the file. */
  function Closed(w: Writing, frames: seq<RxFrame>, registry: Registry): seq<Segment> {
    if frames == [] then [] else [SegmentOf(w, frames, registry)]
  }

  /** A flush turns the current frames into one more block of the file. */
  lemma FlushKeeps(w: Writing, frames: seq<RxFrame>, segments: seq<Segment>, registry: Registry, crc: Checksum)
    requires Recorded(w, frames, segments, crc) && w.Flushable(registry)
    ensures Recorded(Flushed(w, registry, crc), [], segments + Closed(w, frames, registry), crc)
  {
    if frames == [] {
      assert segments + [] == segments;
    } else {
      var b := Sealed(w, registry, crc);
      SealedReadable(w, frames, registry, crc);
      OneMore(segments, w.Journal(), SegmentOf(w, frames, registry), b, |w.block|, crc);
      FlushedRecorded(w, b, segments + [SegmentOf(w, frames, registry)], crc);
    }
  }

  lemma FlushedRecorded(w: Writing, b: seq<byte>, segments: seq<Segment>, crc: Checksum)
    requires MIN_BLOCK <= |w.block| < Pow256(4) && |b| == |w.block|
    requires AllReadable(segments, w.Journal() + [b], |w.block|, crc)
    ensures Recorded(w.(block := b, frameCount := 0, dataOffset := DATA_OFFSET, written := w.written + [b]), [],
                     segments, crc)
  {
    assert BlocksOf(w.rotated) + (w.written + [b]) == w.Journal() + [b];
  }

  lemma OneMore(segments: seq<Segment>, blocks: seq<seq<byte>>, s: Segment, b: seq<byte>, n: nat, crc: Checksum)
    requires AllReadable(segments, blocks, n, crc) && Readable(s, b, n, crc)
    ensures AllReadable(segments + [s], blocks + [b], n, crc)
  {
    assert (segments + [s])[..|segments|] == segments && (blocks + [b])[..|blocks|] == blocks;
  }

  lemma SealedReadable(w: Writing, frames: seq<RxFrame>, registry: Registry, crc: Checksum)
    requires MIN_BLOCK <= |w.block| && w.frameCount == |frames| < Pow256(4) && Current(w, frames)
    requires w.Flushable(registry)
    ensures Readable(SegmentOf(w, frames, registry), Sealed(w, registry, crc), |w.block|, crc)
  {
    var es := w.Entries(registry);
    EntriesNoLonger(es);
    TailMakes(w.block, StoredAll(frames), w.baseSeq, es, crc);
  }

  lemma TailMakes(before: seq<byte>, fs: seq<Frame>, baseSeq: nat, es: seq<DeviceEntry>, crc: Checksum)
    requires MIN_BLOCK <= |before| && AllEncodable(fs) && baseSeq < Pow256(8) && |fs| < Pow256(4)
    requires |EncodeTable(es)| <= TableBytes(es) && TableBytes(es) + TRAILER_LEN <= |before|
    requires Agree(before, Prefix(fs, baseSeq))
    ensures IsBlock(Tail(before, EncodeTable(es), TableBytes(es), |fs|, crc), fs, baseSeq, es, crc)
  {
    TailParts(before, EncodeTable(es), TableBytes(es), |fs|, crc);
    AgreeTake(before, Prefix(fs, baseSeq), |before| - TRAILER_LEN - TableBytes(es));
  }

  lemma AgreeTake(a: seq<byte>, b: seq<byte>, n: nat)
    requires Agree(a, b) && n <= |a|
    ensures Agree(a[..n], b)
  {
    if n <= |b| {
      assert a[..n] == b[..n];
    } else {
      assert a[..n][..|b|] == b;
    }
  }

  lemma TailParts(before: seq<byte>, table: seq<byte>, tableBytes: nat, count: nat, crc: Checksum)
    requires |table| <= tableBytes && tableBytes + TRAILER_LEN <= |before|
    ensures var after, off := Tail(before, table, tableBytes, count, crc), |before| - TRAILER_LEN - tableBytes;
            after[..off] == before[..off] && table <= after[off..] && HasTrailer(after, tableBytes, count, crc)
  {
    var bs, after := |before|, Tail(before, table, tableBytes, count, crc);
    assert after[..bs - 4] == BeforeSum(before, table, tableBytes, count)[..bs - 4];
  }

  /** A frame that does not fit when the file is due closes it, with the block before it as its last; any
      other frame leaves the files before the current one alone and has a file itself. */
  lemma AppendFiles(w: Writing, i: Input, crc: Checksum)
    requires CanAppend(w, i)
    ensures var next := Append(w, i, crc);
            var last := if w.frameCount > 0 && !w.Fits(i.f) then [Sealed(w, i.registry, crc)] else [];
            if !w.Fits(i.f) && i.rotate then
              !next.open && next.written == [] && next.rotated == w.rotated + [w.written + last]
            else next.open && next.rotated == w.rotated && next.written == w.written + last
  {
    assert w.written + [] == w.written;
  }

  /** Closing a file moves its blocks and changes none. */
  lemma RotateKeeps(w: Writing)
    ensures Rotated(w).Journal() == w.Journal()
  {
    assert (w.rotated + [w.written])[..|w.rotated|] == w.rotated;
  }

  /** Appending keeps the record: the frame is added to the current block, or to a new one after
      the current block went to the file. */
  lemma AppendKeeps(w: Writing, frames: seq<RxFrame>, segments: seq<Segment>, i: Input, crc: Checksum)
    requires Recorded(w, frames, segments, crc) && CanAppend(w, i)
    ensures w.Continues(i.f) ==> Recorded(Append(w, i, crc), frames + [i.f], segments, crc)
    ensures !w.Continues(i.f) ==> Recorded(Append(w, i, crc), [i.f], segments + Closed(w, frames, i.registry), crc)
  {
    if w.Continues(i.f) {
      PutHere(w.(open := true), frames, i.f);
    } else {
      TurnKeeps(w, frames, segments, i, crc);
      FirstKeeps(Turned(w, i, crc), segments + Closed(w, frames, i.registry), i.f, i.snapshot, crc);
    }
  }

  lemma FirstKeeps(w: Writing, segments: seq<Segment>, f: RxFrame, snapshot: seq<Device>, crc: Checksum)
    requires Recorded(w, [], segments, crc) && Acceptable(f)
    ensures Recorded(Put(Fresh(w, f, snapshot), f, EncodeFrame(0, Stored(f))), [f], segments, crc)
  {
    PutFirst(w, f, snapshot);
  }

  lemma TurnKeeps(w: Writing, frames: seq<RxFrame>, segments: seq<Segment>, i: Input, crc: Checksum)
    requires Recorded(w, frames, segments, crc) && CanAppend(w, i) && !w.Continues(i.f)
    ensures Recorded(Turned(w, i, crc), [], segments + Closed(w, frames, i.registry), crc)
  {
    var o := w.(open := true);
    FlushKeeps(o, frames, segments, i.registry, crc);
    RotateKeeps(Flushed(o, i.registry, crc));
  }

  lemma PutHere(w: Writing, frames: seq<RxFrame>, f: RxFrame)
    requires w.frameCount == |frames| && Current(w, frames) && |w.block| < Pow256(4) && Acceptable(f) && w.Continues(f)
    ensures Current(Put(w, f, EncodeFrame(w.NextDelta(f), Stored(f))), frames + [f]) && |frames| + 1 < Pow256(4)
  {
    var bytes := EncodeFrame(w.NextDelta(f), Stored(f));
    EncodeSnoc(StoredAll(frames), Stored(f));
    HoldsSnoc(w.block, w.dataOffset, frames, w.baseSeq, f, bytes);
    ClaimsSnoc(frames, f);
    HoldsCount(w.block, w.dataOffset, frames, w.baseSeq);
    assert bytes[..|bytes|] == bytes;
  }

  lemma PutFirst(w: Writing, f: RxFrame, snapshot: seq<Device>)
    requires MIN_BLOCK <= |w.block| && Acceptable(f)
    ensures Current(Put(Fresh(w, f, snapshot), f, EncodeFrame(0, Stored(f))), [f]) && 1 < Pow256(4)
  {
    var r := Fresh(w, f, snapshot);
    FirstHolds(w.block, f, EncodeFrame(0, Stored(f)));
    ClaimsSnoc([], f);
    assert [] + [f] == [f];
    Pow256Constants();
  }

  lemma FirstHolds(before: seq<byte>, f: RxFrame, bytes: seq<byte>)
    requires MIN_BLOCK <= |before| && Acceptable(f) && bytes == EncodeFrame(0, Stored(f))
    ensures var block := Header(|before|, PutLE(ToU64(f.time), 8), PutLE(f.seqNo, 8));
            Holds(Overwrite(block, 16, bytes[..Fitting(block, 16, bytes)]), 16 + |bytes|, [f], f.seqNo)
  {
    var block := Header(|before|, PutLE(ToU64(f.time), 8), PutLE(f.seqNo, 8));
    var head := HeaderBytes(f.time, f.seqNo);
    HeaderStarts(|before|, PutLE(ToU64(f.time), 8), PutLE(f.seqNo, 8));
    FirstPrefix(f, bytes);
    Extends(block, head, bytes);
  }

  lemma HeaderStarts(n: nat, time: seq<byte>, number: seq<byte>)
    requires |time| == |number| == 8 && 16 <= n
    ensures Header(n, time, number)[..16] == time + number
  {
  }

  /** Bytes put behind a beginning agree with the beginning and the bytes, as far as there is room. */
  lemma Extends(block: seq<byte>, head: seq<byte>, bytes: seq<byte>)
    requires |head| <= |block| && block[..|head|] == head
    ensures Agree(Overwrite(block, |head|, bytes[..Fitting(block, |head|, bytes)]), head + bytes)
  {
    var n := Fitting(block, |head|, bytes);
    var after := Overwrite(block, |head|, bytes[..n]);
    if n == |bytes| {
      assert after[..|head| + n] == head + bytes;
    } else {
      assert after == (head + bytes)[..|block|];
    }
  }

  /** The frames of these blocks, in order. */
  ghost function FramesOf(segments: seq<Segment>): seq<RxFrame> {
    if segments == [] then [] else FramesOf(segments[..|segments| - 1]) + segments[|segments| - 1].frames
  }

  lemma HoldsSnoc(block: seq<byte>, off: nat, frames: seq<RxFrame>, baseSeq: nat, f: RxFrame, bytes: seq<byte>)
    requires Encodable(Stored(f)) && Holds(block, off, frames, baseSeq) && off + |bytes| <= |block|
    requires EncodeFrames(StoredAll(frames) + [Stored(f)]) == EncodeFrames(StoredAll(frames)) + bytes
    ensures Holds(Overwrite(block, off, bytes), off + |bytes|, frames + [f], baseSeq)
  {
    var fs, head := StoredAll(frames), Prefix(StoredAll(frames), baseSeq);
    assert StoredAll(frames + [f]) == fs + [Stored(f)];
    EncodableSnoc(fs, Stored(f));
    PrefixSnoc(fs, Stored(f), baseSeq, bytes);
    assert block[..off] == head;
    assert bytes[..|bytes|] == bytes;
    Extends(block, head, bytes);
  }

  lemma FirstPrefix(f: RxFrame, bytes: seq<byte>)
    requires Encodable(Stored(f)) && bytes == EncodeFrame(0, Stored(f))
    ensures AllEncodable(StoredAll([f])) && Prefix(StoredAll([f]), f.seqNo) == HeaderBytes(f.time, f.seqNo) + bytes
  {
    assert StoredAll([f]) == [] + [Stored(f)];
    EncodeSnoc([], Stored(f));
    assert EncodeFrames([]) + bytes == bytes;
  }

  lemma EncodableSnoc(fs: seq<Frame>, f: Frame)
    requires AllEncodable(fs) && Encodable(f)
    ensures AllEncodable(fs + [f])
  {
  }

  lemma PrefixSnoc(fs: seq<Frame>, f: Frame, baseSeq: nat, bytes: seq<byte>)
    requires fs != [] && Int64(fs[0].time) && EncodeFrames(fs + [f]) == EncodeFrames(fs) + bytes
    ensures Prefix(fs + [f], baseSeq) == Prefix(fs, baseSeq) + bytes
  {
    assert (fs + [f])[0] == fs[0];
    Associative(PutLE(ToU64(fs[0].time), 8) + PutLE(baseSeq, 8), EncodeFrames(fs), bytes);
  }

  lemma Associative(a: seq<byte>, b: seq<byte>, c: seq<byte>)
    ensures a + (b + c) == a + b + c
  {
  }

  lemma ClaimsSnoc(fs: seq<RxFrame>, f: RxFrame)
    ensures Claims(fs + [f]) == Claims(fs) + if IsClaim(f) then [ClaimChange(f, |fs|)] else []
  {
    assert (fs + [f])[..|fs|] == fs;
  }

  lemma HoldsCount(block: seq<byte>, off: nat, frames: seq<RxFrame>, baseSeq: nat)
    requires Holds(block, off, frames, baseSeq)
    ensures |frames| + DATA_OFFSET <= off
  {
    FlattenLength(FrameParts(StoredAll(frames)));
  }
}
