/** From the writer to the reader: when reading the files of a run gives back the frames that were
    appended. */
module JournalRoundTrip {
  import opened Bytes
  import opened CanId
  import opened JournalFormat
  import opened JournalBlock
  import opened JournalWriting
  import opened JournalRuns
  import Reading = JournalReading

  /** The end of a run of a new writer. */
  function Ended(blockSize: nat, inputs: seq<Input>, registry: Registry, crc: Checksum): Writing
    requires Accepts(NewWriting(blockSize), inputs, registry, crc)
  {
    Finish(RunAll(NewWriting(blockSize), inputs, registry, crc), registry, crc)
  }

  lemma NewRecorded(blockSize: nat, crc: Checksum)
    requires MIN_BLOCK <= blockSize < 0x1_0000_0000
    ensures Recorded(NewWriting(blockSize), [], [], crc) && Tracks(NewWriting(blockSize), [])
    ensures |NewWriting(blockSize).block| == blockSize
  {
    Pow256Constants();
  }

  /** The blocks a run leaves, and what is in them. */
  lemma RunBlocks(blockSize: nat, inputs: seq<Input>, registry: Registry, crc: Checksum)
    returns (segments: seq<Segment>, flushes: seq<Flush>, last: bool)
    requires MIN_BLOCK <= blockSize < 0x1_0000_0000 && Accepts(NewWriting(blockSize), inputs, registry, crc)
    ensures AllReadable(segments, Ended(blockSize, inputs, registry, crc).Journal(), blockSize, crc)
    ensures flushes == Flushes(NewWriting(blockSize), inputs, registry, crc)
    ensures last == LastRotates(NewWriting(blockSize), inputs, registry, crc)
    ensures AllApart(segments, blockSize) <==> FlushesApart(flushes, blockSize)
    ensures AllSized(segments) <==> FlushesSized(flushes)
    ensures last ==> |FramesOf(segments)| < |inputs|
    ensures !last ==> FramesOf(segments) == FramesIn(inputs)
    ensures !last ==> (AllRegular(segments) <==> StepsExact(NewWriting(blockSize), inputs, registry, crc))
  {
    var w := NewWriting(blockSize);
    NewRecorded(blockSize, crc);
    segments, flushes, last := RunFrom(w, inputs, registry, crc);
  }

  lemma RunFrom(w: Writing, inputs: seq<Input>, registry: Registry, crc: Checksum)
    returns (segments: seq<Segment>, flushes: seq<Flush>, last: bool)
    requires Recorded(w, [], [], crc) && Tracks(w, []) && Accepts(w, inputs, registry, crc)
    ensures AllReadable(segments, Finish(RunAll(w, inputs, registry, crc), registry, crc).Journal(), |w.block|, crc)
    ensures flushes == Flushes(w, inputs, registry, crc)
    ensures last == LastRotates(w, inputs, registry, crc)
    ensures AllApart(segments, |w.block|) <==> FlushesApart(flushes, |w.block|)
    ensures AllSized(segments) <==> FlushesSized(flushes)
    ensures last ==> |FramesOf(segments)| < |inputs|
    ensures !last ==> FramesOf(segments) == FramesIn(inputs)
    ensures !last ==> (AllRegular(segments) <==> StepsExact(w, inputs, registry, crc))
  {
    segments := FiledBlocks(w, inputs, registry, crc);
    flushes, last := Flushes(w, inputs, registry, crc), LastRotates(w, inputs, registry, crc);
    FlushesTell(segments, |w.block|);
  }

  /** What a run must be like to read back exactly: its last frame does not close the file, at
      every flush the frames end before the table, and every frame has a valid header and goes on
      with the number and time of its block. */
  ghost predicate Exact(w: Writing, inputs: seq<Input>, registry: Registry, crc: Checksum)
    requires Accepts(w, inputs, registry, crc)
  {
    && !LastRotates(w, inputs, registry, crc)
    && FlushesApart(Flushes(w, inputs, registry, crc), |w.block|)
    && StepsExact(w, inputs, registry, crc)
  }

  /** The files of any run that does not panic read back as exactly the frames appended if the run
      is exact; and only if it is, as far as no device table outgrows its 16-bit size field. Such a
      run loses no frame if and only if its last frame does not close the file and no table reaches
      into the frames. */
  lemma JournalExactIff(blockSize: nat, inputs: seq<Input>, registry: Registry, crc: Checksum)
    requires MIN_BLOCK <= blockSize < 0x1_0000_0000 && Accepts(NewWriting(blockSize), inputs, registry, crc)
    ensures var w, read := NewWriting(blockSize), ReadBlocks(Ended(blockSize, inputs, registry, crc).Journal(), crc);
            && (Exact(w, inputs, registry, crc) ==> AllSame(read, FramesIn(inputs)))
            && (FlushesSized(Flushes(w, inputs, registry, crc)) ==>
                && |read| <= |inputs|
                && (|read| == |inputs| <==>
                    && !LastRotates(w, inputs, registry, crc)
                    && FlushesApart(Flushes(w, inputs, registry, crc), blockSize))
                && (AllSame(read, FramesIn(inputs)) <==> Exact(w, inputs, registry, crc)))
  {
    var segments, flushes, last := RunBlocks(blockSize, inputs, registry, crc);
    var blocks := Ended(blockSize, inputs, registry, crc).Journal();
    if FlushesApart(flushes, blockSize) {
      FileExact(segments, blocks, blockSize, crc);
    }
    if FlushesSized(flushes) {
      FileCount(segments, blocks, blockSize, crc);
    }
  }

  lemma {:induction false} StaysFiled(w: Writing, inputs: seq<Input>, registry: Registry, crc: Checksum)
    requires Accepts(w, inputs, registry, crc) && (inputs != [] ==> !inputs[|inputs| - 1].rotate)
    ensures !LastRotates(w, inputs, registry, crc)
    decreases |inputs|
  {
    if |inputs| > 1 {
      StaysFiled(Append(w, inputs[0], crc), inputs[1..], registry, crc);
    }
  }

  // ---- A claim that costs a frame ----

  /** Standard frames a microsecond apart, the 312th of which is an address claim. */
  function LateFrame(k: nat): RxFrame {
    RxFrame(k, "", if k == 311 then CANHeader(6, ADDRESS_CLAIM, 1, 255) else CANHeader(6, 127250, 1, 255), Zeros(8), k)
  }

  function LateInput(k: nat): Input {
    Input(LateFrame(k), [], map[], false, false)
  }

  function LateInputs(): (r: seq<Input>)
    ensures |r| == 312
  {
    seq(312, k requires 0 <= k < 312 => LateInput(k))
  }

  /** The writer after the first `k` of them, in a block of 4096 bytes. */
  ghost predicate LateAt(w: Writing, k: nat) {
    && |w.block| == 4096 && w.frameCount == k && w.dataOffset == DATA_OFFSET + 13 * k && w.lastTimeUs == k - 1
    && w.startEntries == [] && w.startTableSize == 0 && w.open && w.baseSeq == 0
    && |w.changes| == (if k == 312 then 1 else 0)
  }

  lemma LateSize(k: nat, delta: nat)
    requires delta < 128
    ensures Acceptable(LateFrame(k)) || k >= 312
    ensures |EncodeFrame(delta, Stored(LateFrame(k)))| == 13
    ensures ValidHeader(LateFrame(k).header) && (IsClaim(LateFrame(k)) <==> k == 311)
  {
    Pow256Constants();
    BuildLeavesFlag(LateFrame(k).header);
  }

  lemma LateStart(crc: Checksum)
    ensures CanAppend(NewWriting(4096), LateInput(0)) && LateAt(Append(NewWriting(4096), LateInput(0), crc), 1)
  {
    LateSize(0, 0);
  }

  lemma LateStep(w: Writing, k: nat, crc: Checksum)
    requires 1 <= k < 312 && LateAt(w, k)
    ensures CanAppend(w, LateInput(k)) && w.Continues(LateFrame(k)) && StepExact(w, LateInput(k))
    ensures LateAt(Append(w, LateInput(k), crc), k + 1)
  {
    LateSize(k, 1);
  }

  lemma LateEnd(w: Writing)
    requires LateAt(w, 312)
    ensures FlushOf(w, map[]) == Flush(4072, 21)
  {
    var es := ChangeEntries(w.changes, map[]);
    assert w.Entries(map[]) == es && es == [] + [es[0]];
    SizeSnoc([], es[0]);
    assert es[0].product == NO_PRODUCT;
  }

  lemma {:induction false} LateRun(w: Writing, k: nat, inputs: seq<Input>, crc: Checksum)
    requires 1 <= k <= 312 && LateAt(w, k) && inputs == LateInputs()
    ensures Accepts(w, inputs[k..], map[], crc) && Flushes(w, inputs[k..], map[], crc) == [Flush(4072, 21)]
    ensures StepsExact(w, inputs[k..], map[], crc)
    decreases 312 - k
  {
    if k == 312 {
      LateEnd(w);
    } else {
      var next := LateNext(w, k, crc);
      LateRun(next, k + 1, inputs, crc);
      assert inputs[k..][0] == LateInput(k) && inputs[k..][1..] == inputs[k + 1..];
      LateCons(w, inputs[k..], next, map[], crc);
      LateExact(w, inputs[k..], next, map[], crc);
    }
  }

  lemma LateNext(w: Writing, k: nat, crc: Checksum) returns (next: Writing)
    requires 1 <= k < 312 && LateAt(w, k)
    ensures Goes(w, LateInput(k), next, crc) && LateAt(next, k + 1)
  {
    LateStep(w, k, crc);
    next := Append(w, LateInput(k), crc);
  }

  ghost predicate Goes(w: Writing, i: Input, next: Writing, crc: Checksum) {
    CanAppend(w, i) && next == Append(w, i, crc) && w.Continues(i.f) && StepExact(w, i)
  }

  lemma LateCons(w: Writing, inputs: seq<Input>, next: Writing, registry: Registry, crc: Checksum)
    requires inputs != [] && Goes(w, inputs[0], next, crc) && Accepts(next, inputs[1..], registry, crc)
    ensures Accepts(w, inputs, registry, crc)
    ensures Flushes(w, inputs, registry, crc) == Flushes(next, inputs[1..], registry, crc)
  {
    var rest := Flushes(next, inputs[1..], registry, crc);
    assert [] + rest == rest;
  }

  lemma LateExact(w: Writing, inputs: seq<Input>, next: Writing, registry: Registry, crc: Checksum)
    requires inputs != [] && Goes(w, inputs[0], next, crc)
    requires Accepts(w, inputs, registry, crc) && Accepts(next, inputs[1..], registry, crc)
    requires StepsExact(next, inputs[1..], registry, crc)
    ensures StepsExact(w, inputs, registry, crc)
  {
  }

  lemma LateAll(w: Writing, inputs: seq<Input>, crc: Checksum)
    requires w == NewWriting(4096) && inputs == LateInputs()
    ensures Accepts(w, inputs, map[], crc) && Flushes(w, inputs, map[], crc) == [Flush(4072, 21)]
    ensures StepsExact(w, inputs, map[], crc) && !LastRotates(w, inputs, map[], crc)
  {
    LateStart(crc);
    LateRun(Append(w, LateInput(0), crc), 1, inputs, crc);
    assert inputs[0] == LateInput(0);
    StaysFiled(w, inputs, map[], crc);
  }

  /** A real loss: 311 standard frames and an address claim in a block of 4096 bytes. All are
      accepted and go on with number and time, but the claim's table entry needs 19 bytes where the
      fit check reserved none, and fewer than 312 frames are read back. */
  lemma LateClaim(crc: Checksum) returns (blockSize: nat, inputs: seq<Input>)
    ensures blockSize == 4096 && |inputs| == 312 && Accepts(NewWriting(blockSize), inputs, map[], crc)
    ensures StepsExact(NewWriting(blockSize), inputs, map[], crc)
    ensures !LastRotates(NewWriting(blockSize), inputs, map[], crc)
    ensures |ReadBlocks(Ended(blockSize, inputs, map[], crc).Journal(), crc)| < |inputs|
  {
    blockSize, inputs := 4096, LateInputs();
    LateAll(NewWriting(blockSize), inputs, crc);
    OneOverlap(Flush(4072, 21), blockSize);
    JournalExactIff(blockSize, inputs, map[], crc);
  }

  lemma OneOverlap(f: Flush, blockSize: nat)
    requires !f.Apart(blockSize) && f.Sized()
    ensures FlushesSized([f]) && !FlushesApart([f], blockSize)
  {
    assert [f][0] == f;
  }

  // ---- The reader over the files of a run ----

  /** The blocks of a file, for the reader. */
  function OnDisk(blocks: seq<seq<byte>>, blockSize: nat, crc: Checksum): Reading.Medium {
    Reading.Medium((b: nat) => if b < |blocks| then blocks[b] else [],
                   |blocks|, blockSize, Reading.BlockDecoder(crc), ParseFrame)
  }

  ghost predicate Loads(block: seq<byte>, blockSize: nat, crc: Checksum) {
    DATA_OFFSET + TRAILER_LEN <= |block| == blockSize && LoadBlock(block, crc).Loaded?
  }

  ghost predicate AllLoad(blocks: seq<seq<byte>>, blockSize: nat, crc: Checksum) {
    forall i :: 0 <= i < |blocks| ==> Loads(blocks[i], blockSize, crc)
  }

  lemma {:induction false} ReadConcat(a: seq<seq<byte>>, b: seq<seq<byte>>, crc: Checksum)
    ensures ReadBlocks(a + b, crc) == ReadBlocks(a, crc) + ReadBlocks(b, crc)
    decreases |b|
  {
    if b == [] {
      assert a + b == a;
    } else {
      var n := |b| - 1;
      ReadConcat(a, b[..n], crc);
      assert (a + b)[..|a + b| - 1] == a + b[..n] && (a + b)[|a + b| - 1] == b[n];
      EntriesAttached(ReadBlocks(a, crc), ReadBlocks(b[..n], crc), ReadBlock(b[n], crc));
    }
  }

  lemma EntriesAttached(a: seq<Entry>, b: seq<Entry>, c: seq<Entry>)
    ensures a + (b + c) == a + b + c
  {
  }

  lemma ReadSingle(block: seq<byte>, crc: Checksum)
    ensures ReadBlocks([block], crc) == ReadBlock(block, crc)
  {
    assert [block][..0] == [];
  }

  lemma ReadCons(blocks: seq<seq<byte>>, b: nat, crc: Checksum)
    requires b < |blocks|
    ensures ReadBlocks(blocks[b..], crc) == ReadBlock(blocks[b], crc) + ReadBlocks(blocks[b + 1..], crc)
  {
    assert blocks[b..] == [blocks[b]] + blocks[b + 1..];
    ReadFirst(blocks[b], blocks[b + 1..], crc);
  }

  lemma ReadFirst(block: seq<byte>, rest: seq<seq<byte>>, crc: Checksum)
    ensures ReadBlocks([block] + rest, crc) == ReadBlock(block, crc) + ReadBlocks(rest, crc)
  {
    ReadSingle(block, crc);
    ReadConcat([block], rest, crc);
  }

  /** A linear read over blocks that load is the concatenation of what they yield. */
  lemma {:induction false} LinearIsBlocks(blocks: seq<seq<byte>>, blockSize: nat, crc: Checksum, b: nat)
    requires AllLoad(blocks, blockSize, crc) && b <= |blocks| && OnDisk(blocks, blockSize, crc).Valid()
    ensures Reading.AllFrom(OnDisk(blocks, blockSize, crc), b) == Reading.Outcome(ReadBlocks(blocks[b..], crc), false)
    decreases |blocks| - b
  {
    if b < |blocks| {
      LinearIsBlocks(blocks, blockSize, crc, b + 1);
      ReadCons(blocks, b, crc);
      assert Loads(blocks[b], blockSize, crc);
    }
  }

  method ReadFile(blocks: seq<seq<byte>>, blockSize: nat, crc: Checksum, prefetching: bool, prefetchable: nat -> bool)
    returns (out: seq<Entry>)
    requires AllLoad(blocks, blockSize, crc)
    ensures out == ReadBlocks(blocks, crc)
  {
    var m := OnDisk(blocks, blockSize, crc);
    Reading.BlockDecoderValid(m.disk, |blocks|, blockSize, crc);
    var r := new Reading.Reader(m, false, [], prefetching, prefetchable);
    Reading.LinearUnique(m, r.all, 0);
    LinearIsBlocks(blocks, blockSize, crc, 0);
    var o := r.ReadAll();
    assert blocks[0..] == blocks;
    out := o.frames;
  }

  /** All files of a journal, one reader each. */
  method ReadFiles(files: seq<seq<seq<byte>>>, blockSize: nat, crc: Checksum, prefetching: bool,
                   prefetchable: nat -> bool)
    returns (out: seq<Entry>)
    requires AllLoad(BlocksOf(files), blockSize, crc)
    ensures out == ReadBlocks(BlocksOf(files), crc)
  {
    out := [];
    for k := 0 to |files|
      invariant out == ReadBlocks(BlocksOf(files[..k]), crc)
    {
      FileLoads(files, k, blockSize, crc);
      var more := ReadFile(files[k], blockSize, crc, prefetching, prefetchable);
      assert files[..k + 1][..k] == files[..k];
      ReadConcat(BlocksOf(files[..k]), files[k], crc);
      out := out + more;
    }
    assert files[..|files|] == files;
  }

  lemma {:induction false} FileLoads(files: seq<seq<seq<byte>>>, k: nat, blockSize: nat, crc: Checksum)
    requires k < |files| && AllLoad(BlocksOf(files), blockSize, crc)
    ensures AllLoad(files[k], blockSize, crc)
    decreases |files|
  {
    var n := |files| - 1;
    LoadHalves(BlocksOf(files[..n]), files[n], blockSize, crc);
    if k < n {
      FileLoads(files[..n], k, blockSize, crc);
    }
  }

  lemma LoadHalves(a: seq<seq<byte>>, b: seq<seq<byte>>, blockSize: nat, crc: Checksum)
    requires AllLoad(a + b, blockSize, crc)
    ensures AllLoad(a, blockSize, crc) && AllLoad(b, blockSize, crc)
  {
    forall i | 0 <= i < |a| ensures Loads(a[i], blockSize, crc) {
      assert (a + b)[i] == a[i];
    }
    forall i | 0 <= i < |b| ensures Loads(b[i], blockSize, crc) {
      assert (a + b)[|a| + i] == b[i];
    }
  }

  lemma {:induction false} ReadableLoads(segments: seq<Segment>, blocks: seq<seq<byte>>, blockSize: nat, crc: Checksum)
    requires AllReadable(segments, blocks, blockSize, crc)
    ensures AllLoad(blocks, blockSize, crc)
    decreases |segments|
  {
    if segments != [] {
      var front := LastLoads(segments, blocks, blockSize, crc);
      ReadableLoads(front, blocks[..|blocks| - 1], blockSize, crc);
      LoadsSnoc(blocks, blockSize, crc);
    }
  }

  lemma LastLoads(segments: seq<Segment>, blocks: seq<seq<byte>>, blockSize: nat, crc: Checksum)
    returns (front: seq<Segment>)
    requires AllReadable(segments, blocks, blockSize, crc) && segments != []
    ensures |blocks| == |segments| == |front| + 1 && AllReadable(front, blocks[..|blocks| - 1], blockSize, crc)
    ensures Loads(blocks[|blocks| - 1], blockSize, crc)
  {
    front := segments[..|segments| - 1];
    OneLoads(segments[|segments| - 1], blocks[|blocks| - 1], blockSize, crc);
  }

  lemma LoadsSnoc(blocks: seq<seq<byte>>, blockSize: nat, crc: Checksum)
    requires blocks != [] && AllLoad(blocks[..|blocks| - 1], blockSize, crc)
    requires Loads(blocks[|blocks| - 1], blockSize, crc)
    ensures AllLoad(blocks, blockSize, crc)
  {
    forall i | 0 <= i < |blocks| ensures Loads(blocks[i], blockSize, crc) {
      if i < |blocks| - 1 {
        assert blocks[..|blocks| - 1][i] == blocks[i];
      }
    }
  }

  lemma OneLoads(s: Segment, block: seq<byte>, blockSize: nat, crc: Checksum)
    requires Readable(s, block, blockSize, crc)
    ensures Loads(block, blockSize, crc)
  {
    TrailerLoads(block, TableBytes(s.entries), |s.frames|, crc);
  }

  lemma {:induction false} AllInFiles(w: Writing, frames: seq<RxFrame>, inputs: seq<Input>, registry: Registry,
                                      crc: Checksum)
    requires Tracks(w, frames) && Accepts(w, inputs, registry, crc)
    ensures Finish(RunAll(w, inputs, registry, crc), registry, crc).written == []
    decreases |inputs|
  {
    if inputs != [] {
      var next, here, _, _ := FirstStep(w, frames, [], inputs, registry, crc);
      AllInFiles(next, here, inputs[1..], registry, crc);
    }
  }

  /** The whole way, prefetch on or off: a writer takes the frames that arrive while it is not
      paused, and readers over the files it leaves yield exactly these frames if and only if the run
      is exact, up to tables beyond 64 KiB. The writer reports failure exactly when the last frame
      was left without a file. */
  method WriteAndRead(blockSize: nat, inputs: seq<Input>, registry: Registry, crc: Checksum, prefetching: bool,
                      prefetchable: nat -> bool)
    returns (ok: bool, out: seq<Entry>)
    requires MIN_BLOCK <= blockSize < 0x1_0000_0000 && Accepts(NewWriting(blockSize), Taken(inputs), registry, crc)
    ensures ok == !LastRotates(NewWriting(blockSize), Taken(inputs), registry, crc)
    ensures Exact(NewWriting(blockSize), Taken(inputs), registry, crc) ==> AllSame(out, FramesIn(Taken(inputs)))
    ensures FlushesSized(Flushes(NewWriting(blockSize), Taken(inputs), registry, crc)) ==>
              (AllSame(out, FramesIn(Taken(inputs))) <==> Exact(NewWriting(blockSize), Taken(inputs), registry, crc))
  {
    var w := new JournalWriter(blockSize, crc);
    ok := w.Run(inputs, registry);
    FilesLoad(blockSize, Taken(inputs), registry, crc);
    out := ReadFiles(w.rotated, blockSize, crc, prefetching, prefetchable);
    JournalExactIff(blockSize, Taken(inputs), registry, crc);
  }

  lemma FilesLoad(blockSize: nat, inputs: seq<Input>, registry: Registry, crc: Checksum)
    requires MIN_BLOCK <= blockSize < 0x1_0000_0000 && Accepts(NewWriting(blockSize), inputs, registry, crc)
    ensures var end := Ended(blockSize, inputs, registry, crc);
            end.Journal() == BlocksOf(end.rotated) && AllLoad(BlocksOf(end.rotated), blockSize, crc)
    ensures Unfiled(RunAll(NewWriting(blockSize), inputs, registry, crc)) <==>
            LastRotates(NewWriting(blockSize), inputs, registry, crc)
  {
    NewRecorded(blockSize, crc);
    AllInFiles(NewWriting(blockSize), [], inputs, registry, crc);
    var end := Ended(blockSize, inputs, registry, crc);
    assert BlocksOf(end.rotated) + [] == BlocksOf(end.rotated);
    var segments, _, _ := RunBlocks(blockSize, inputs, registry, crc);
    ReadableLoads(segments, end.Journal(), blockSize, crc);
    EndsUnfiled(NewWriting(blockSize), inputs, registry, crc);
  }
}
