/** What a run of the journal writer leaves in its files, block by block, and what reading the
    blocks yields. */
module JournalRuns {
  import opened Bytes
  import opened CanId
  import opened JournalFormat
  import opened JournalBlock
  import opened JournalWriting

  // ---- Whole files ----

  /** What reading these blocks from the first to the last yields. */
  function ReadBlocks(blocks: seq<seq<byte>>, crc: Checksum): seq<Entry> {
    if blocks == [] then []
    else ReadBlocks(blocks[..|blocks| - 1], crc) + ReadBlock(blocks[|blocks| - 1], crc)
  }

  ghost predicate AllSame(es: seq<Entry>, fs: seq<RxFrame>) {
    |es| == |fs| && forall i :: 0 <= i < |fs| ==> SameFrame(es[i], fs[i])
  }

  /** Consecutive numbers, times that never go back, valid headers. */
  ghost predicate Regular(fs: seq<RxFrame>) {
    && (forall i :: 0 <= i < |fs| ==> fs[i].seqNo == fs[0].seqNo + i)
    && Monotone(fs)
    && (forall i :: 0 <= i < |fs| ==> ValidHeader(fs[i].header))
  }

  lemma RegularIff(fs: seq<RxFrame>)
    requires fs != []
    ensures AllSame(Expected(StoredAll(fs), fs[0].seqNo), fs) <==> Regular(fs)
  {
    ExactIff(fs, fs[0].seqNo);
  }

  predicate ApartIn(s: Segment, blockSize: nat) {
    s.dataOffset + TableBytes(s.entries) + TRAILER_LEN <= blockSize
  }

  predicate SizedIn(s: Segment) {
    TableBytes(s.entries) < 0x1_0000
  }

  /** Reading a block in which frames and table are apart returns what was appended if and only if
      that was regular. */
  lemma ApartExact(s: Segment, block: seq<byte>, blockSize: nat, crc: Checksum)
    requires Readable(s, block, blockSize, crc) && ApartIn(s, blockSize)
    ensures |ReadBlock(block, crc)| == |s.frames|
    ensures AllSame(ReadBlock(block, crc), s.frames) <==> Regular(s.frames)
  {
    ApartReads(block, StoredAll(s.frames), s.baseSeq, TableBytes(s.entries), crc);
    RegularIff(s.frames);
  }

  /** A block with a table under 64 KiB yields all its frames if and only if they are apart from
      the table, and fewer otherwise. */
  lemma SizedCount(s: Segment, block: seq<byte>, blockSize: nat, crc: Checksum)
    requires Readable(s, block, blockSize, crc) && SizedIn(s)
    ensures |ReadBlock(block, crc)| <= |s.frames|
    ensures |ReadBlock(block, crc)| == |s.frames| <==> ApartIn(s, blockSize)
  {
    FlushedReads(block, StoredAll(s.frames), s.baseSeq, TableBytes(s.entries), crc);
  }

  ghost predicate AllRegular(segments: seq<Segment>) {
    segments == [] || (AllRegular(segments[..|segments| - 1]) && Regular(segments[|segments| - 1].frames))
  }

  ghost predicate AllApart(segments: seq<Segment>, blockSize: nat) {
    segments == [] || (AllApart(segments[..|segments| - 1], blockSize) && ApartIn(segments[|segments| - 1], blockSize))
  }

  ghost predicate AllSized(segments: seq<Segment>) {
    segments == [] || (AllSized(segments[..|segments| - 1]) && SizedIn(segments[|segments| - 1]))
  }

  lemma SameHalves(a: seq<Entry>, b: seq<Entry>, fs: seq<RxFrame>, gs: seq<RxFrame>)
    requires |a| == |fs| && |b| == |gs|
    ensures AllSame(a + b, fs + gs) <==> AllSame(a, fs) && AllSame(b, gs)
  {
    if AllSame(a + b, fs + gs) {
      forall i | 0 <= i < |fs| ensures SameFrame(a[i], fs[i]) {
        assert SameFrame((a + b)[i], (fs + gs)[i]);
      }
      forall i | 0 <= i < |gs| ensures SameFrame(b[i], gs[i]) {
        assert SameFrame((a + b)[|a| + i], (fs + gs)[|a| + i]);
      }
    }
  }

  /** Blocks in which frames and table are apart read back as everything appended, frame by frame,
      if and only if the frames within each block were regular. */
  lemma {:induction false} FileExact(segments: seq<Segment>, blocks: seq<seq<byte>>, blockSize: nat, crc: Checksum)
    requires AllReadable(segments, blocks, blockSize, crc) && AllApart(segments, blockSize)
    ensures |ReadBlocks(blocks, crc)| == |FramesOf(segments)|
    ensures AllSame(ReadBlocks(blocks, crc), FramesOf(segments)) <==> AllRegular(segments)
    decreases |segments|
  {
    if segments != [] {
      var n := |segments| - 1;
      FileExact(segments[..n], blocks[..n], blockSize, crc);
      ApartExact(segments[n], blocks[n], blockSize, crc);
      SameHalves(ReadBlocks(blocks[..n], crc), ReadBlock(blocks[n], crc), FramesOf(segments[..n]), segments[n].frames);
    }
  }

  /** Blocks with tables under 64 KiB yield as many frames as were appended if and only if frames
      and table are apart in every one, and fewer otherwise. */
  lemma {:induction false} FileCount(segments: seq<Segment>, blocks: seq<seq<byte>>, blockSize: nat, crc: Checksum)
    requires AllReadable(segments, blocks, blockSize, crc) && AllSized(segments)
    ensures |ReadBlocks(blocks, crc)| <= |FramesOf(segments)|
    ensures |ReadBlocks(blocks, crc)| == |FramesOf(segments)| <==> AllApart(segments, blockSize)
    decreases |segments|
  {
    if segments != [] {
      var n := |segments| - 1;
      FileCount(segments[..n], blocks[..n], blockSize, crc);
      SizedCount(segments[n], blocks[n], blockSize, crc);
    }
  }

  // ---- The blocks of a run ----

  /** Where the frames end and how large the table is when a block is flushed. */
  datatype Flush = Flush(dataOffset: nat, tableBytes: nat) {
    predicate Apart(blockSize: nat) {
      dataOffset + tableBytes + TRAILER_LEN <= blockSize
    }

    predicate Sized() {
      tableBytes < 0x1_0000
    }
  }

  function FlushOf(w: Writing, registry: Registry): Flush {
    Flush(w.dataOffset, TableBytes(w.Entries(registry)))
  }

  /** The flushes of a run that write a block. */
  function Flushes(w: Writing, inputs: seq<Input>, registry: Registry, crc: Checksum): seq<Flush>
    requires Accepts(w, inputs, registry, crc)
    decreases |inputs|
  {
    if inputs == [] then
      if w.frameCount > 0 && w.open then [FlushOf(w, registry)] else []
    else
      var i := inputs[0];
      (if w.frameCount > 0 && !w.Continues(i.f) then [FlushOf(w, i.registry)] else []) +
      Flushes(Append(w, i, crc), inputs[1..], registry, crc)
  }

  /** The blocks these flushes write, with what is in them; `frames` are in the current one. */
  ghost function Blocks(w: Writing, frames: seq<RxFrame>, inputs: seq<Input>, registry: Registry,
                        crc: Checksum): seq<Segment>
    requires Accepts(w, inputs, registry, crc)
    decreases |inputs|
  {
    if inputs == [] then
      if w.open then Closed(w, frames, registry) else []
    else
      var i, next := inputs[0], Append(w, inputs[0], crc);
      if w.Continues(i.f) then Blocks(next, frames + [i.f], inputs[1..], registry, crc)
      else Closed(w, frames, i.registry) + Blocks(next, [i.f], inputs[1..], registry, crc)
  }

  /** The header is valid and, within a block, the number is the next one and time does not go back. */
  predicate StepExact(w: Writing, i: Input) {
    && ValidHeader(i.f.header)
    && (w.Continues(i.f) ==> i.f.seqNo == w.baseSeq + w.frameCount && w.lastTimeUs <= i.f.time)
  }

  predicate StepsExact(w: Writing, inputs: seq<Input>, registry: Registry, crc: Checksum)
    requires Accepts(w, inputs, registry, crc)
    decreases |inputs|
  {
    inputs == [] || (StepExact(w, inputs[0]) && StepsExact(Append(w, inputs[0], crc), inputs[1..], registry, crc))
  }

  lemma RegularSnoc(frames: seq<RxFrame>, f: RxFrame)
    requires frames != []
    ensures Regular(frames + [f]) <==>
            && Regular(frames) && ValidHeader(f.header)
            && f.seqNo == frames[0].seqNo + |frames| && frames[|frames| - 1].time <= f.time
  {
    var all, n := frames + [f], |frames|;
    assert all[0] == frames[0] && all[n] == f && all[n - 1] == frames[n - 1];
    assert forall i :: 0 <= i < n ==> all[i] == frames[i];
    if Regular(all) {
      assert all[n].seqNo == all[0].seqNo + n && all[n - 1].time <= all[n].time && ValidHeader(all[n].header);
      forall i | 1 <= i < n ensures frames[i - 1].time <= frames[i].time {
        assert all[i - 1].time <= all[i].time;
      }
      forall i | 0 <= i < n ensures frames[i].seqNo == frames[0].seqNo + i && ValidHeader(frames[i].header) {
        assert all[i].seqNo == all[0].seqNo + i && ValidHeader(all[i].header);
      }
    }
  }

  lemma {:induction false} RegularConcat(a: seq<Segment>, b: seq<Segment>)
    ensures AllRegular(a + b) <==> AllRegular(a) && AllRegular(b)
    decreases |b|
  {
    if b == [] {
      assert a + b == a;
    } else {
      RegularConcat(a, b[..|b| - 1]);
      LastMoved(a, b);
    }
  }

  lemma ClosedRegular(w: Writing, frames: seq<RxFrame>, registry: Registry)
    ensures AllRegular(Closed(w, frames, registry)) <==> Regular(frames)
  {
    if frames != [] {
      assert Closed(w, frames, registry)[0].frames == frames;
    }
  }

  lemma FinishKeeps(w: Writing, frames: seq<RxFrame>, segments: seq<Segment>, registry: Registry, crc: Checksum)
    requires Recorded(w, frames, segments, crc) && w.Flushable(registry)
    ensures AllReadable(segments + (if w.open then Closed(w, frames, registry) else []),
                        Finish(w, registry, crc).Journal(), |w.block|, crc)
  {
    if Unfiled(w) {
      assert segments + [] == segments;
    } else {
      FlushKeeps(w, frames, segments, registry, crc);
      RotateKeeps(Flushed(w, registry, crc));
    }
  }

  function FlushIn(s: Segment): Flush {
    Flush(s.dataOffset, TableBytes(s.entries))
  }

  function FlushesIn(segments: seq<Segment>): (r: seq<Flush>)
    ensures |r| == |segments|
  {
    if segments == [] then [] else FlushesIn(segments[..|segments| - 1]) + [FlushIn(segments[|segments| - 1])]
  }

  lemma {:induction false} FlushesConcat(a: seq<Segment>, b: seq<Segment>)
    ensures FlushesIn(a + b) == FlushesIn(a) + FlushesIn(b)
    decreases |b|
  {
    if b == [] {
      assert a + b == a;
    } else {
      FlushesConcat(a, b[..|b| - 1]);
      LastMoved(a, b);
    }
  }

  function FramesIn(inputs: seq<Input>): (fs: seq<RxFrame>)
    ensures |fs| == |inputs|
  {
    seq(|inputs|, k requires 0 <= k < |inputs| => inputs[k].f)
  }

  /** The writer's position in its block is behind these frames. */
  ghost predicate Tracks(w: Writing, frames: seq<RxFrame>) {
    && w.frameCount == |frames| && (!w.open ==> |frames| <= 1 && w.written == [])
    && (frames != [] ==> w.baseSeq == frames[0].seqNo && w.lastTimeUs == frames[|frames| - 1].time)
  }

  lemma TracksStep(w: Writing, frames: seq<RxFrame>, i: Input, crc: Checksum)
    requires Tracks(w, frames) && CanAppend(w, i)
    ensures Tracks(Append(w, i, crc), if w.Continues(i.f) then frames + [i.f] else [i.f])
    ensures Append(w, i, crc).open == !Rotates(w, i)
  {
  }

  lemma {:induction false} FramesConcat(a: seq<Segment>, b: seq<Segment>)
    ensures FramesOf(a + b) == FramesOf(a) + FramesOf(b)
    decreases |b|
  {
    if b == [] {
      assert a + b == a;
    } else {
      var n := |b| - 1;
      FramesConcat(a, b[..n]);
      LastMoved(a, b);
      Attached(FramesOf(a), FramesOf(b[..n]), b[n].frames);
    }
  }

  lemma LastMoved(a: seq<Segment>, b: seq<Segment>)
    requires b != []
    ensures (a + b)[..|a + b| - 1] == a + b[..|b| - 1] && (a + b)[|a + b| - 1] == b[|b| - 1]
  {
  }

  lemma Attached(a: seq<RxFrame>, b: seq<RxFrame>, c: seq<RxFrame>)
    ensures a + (b + c) == a + b + c
  {
  }

  lemma ClosedFrames(w: Writing, frames: seq<RxFrame>, registry: Registry)
    ensures FramesOf(Closed(w, frames, registry)) == frames
  {
    if frames != [] {
      var s := SegmentOf(w, frames, registry);
      assert [s][..0] == [];
    }
  }

  // ---- One step of a run ----

  lemma StepBlocks(w: Writing, frames: seq<RxFrame>, inputs: seq<Input>, registry: Registry, crc: Checksum)
    requires inputs != [] && Accepts(w, inputs, registry, crc)
    ensures Blocks(w, frames, inputs, registry, crc) ==
            Left(w, frames, inputs[0]) +
            Blocks(Append(w, inputs[0], crc), Here(w, frames, inputs[0]), inputs[1..], registry, crc)
  {
    if w.Continues(inputs[0].f) {
      var rest := Blocks(Append(w, inputs[0], crc), frames + [inputs[0].f], inputs[1..], registry, crc);
      assert [] + rest == rest;
    }
  }

  /** The frames in the block the input goes to. */
  ghost function Here(w: Writing, frames: seq<RxFrame>, i: Input): seq<RxFrame> {
    if w.Continues(i.f) then frames + [i.f] else [i.f]
  }

  /** The block that is written for it, if any. */
  ghost function Left(w: Writing, frames: seq<RxFrame>, i: Input): seq<Segment> {
    if w.Continues(i.f) then [] else Closed(w, frames, i.registry)
  }

  ghost function LeftBy(w: Writing, i: Input): seq<Flush> {
    if w.frameCount > 0 && !w.Continues(i.f) then [FlushOf(w, i.registry)] else []
  }

  lemma StepRecorded(w: Writing, frames: seq<RxFrame>, segments: seq<Segment>, i: Input, crc: Checksum)
    requires Recorded(w, frames, segments, crc) && CanAppend(w, i)
    ensures Recorded(Append(w, i, crc), Here(w, frames, i), segments + Left(w, frames, i), crc)
  {
    AppendKeeps(w, frames, segments, i, crc);
    assert segments + [] == segments;
  }

  lemma StepAlike(w: Writing, frames: seq<RxFrame>, segments: seq<Segment>, i: Input, crc: Checksum)
    requires Recorded(w, frames, segments, crc)
    ensures LeftBy(w, i) == FlushesIn(Left(w, frames, i))
  {
    ClosedFlush(w, frames, i.registry);
  }

  lemma ClosedFlush(w: Writing, frames: seq<RxFrame>, registry: Registry)
    requires w.frameCount == |frames|
    ensures FlushesIn(Closed(w, frames, registry)) == if w.frameCount > 0 then [FlushOf(w, registry)] else []
  {
    if frames != [] {
      var s := SegmentOf(w, frames, registry);
      assert [s][..0] == [];
    }
  }

  lemma StepFrames(w: Writing, frames: seq<RxFrame>, i: Input)
    requires Tracks(w, frames)
    ensures FramesOf(Left(w, frames, i)) + Here(w, frames, i) == frames + [i.f]
  {
    if !w.Continues(i.f) {
      ClosedFrames(w, frames, i.registry);
    }
  }

  lemma StepRegular(w: Writing, frames: seq<RxFrame>, i: Input)
    requires Tracks(w, frames)
    ensures AllRegular(Left(w, frames, i)) && Regular(Here(w, frames, i)) <==> Regular(frames) && StepExact(w, i)
  {
    if w.Continues(i.f) {
      RegularSnoc(frames, i.f);
    } else {
      ClosedRegular(w, frames, i.registry);
      RegularOne(i.f);
    }
  }

  lemma RegularOne(f: RxFrame)
    ensures Regular([f]) <==> ValidHeader(f.header)
  {
    assert [f][0] == f;
  }

  /** The first step of a run: what it leaves behind and where it leads. */
  lemma {:induction false} FirstStep(w: Writing, frames: seq<RxFrame>, segments: seq<Segment>, inputs: seq<Input>,
                                     registry: Registry, crc: Checksum)
    returns (next: Writing, here: seq<RxFrame>, left: seq<Segment>, flushed: seq<Flush>)
    requires inputs != [] && Accepts(w, inputs, registry, crc)
    ensures Accepts(next, inputs[1..], registry, crc) && |next.block| == |w.block|
    ensures RunAll(w, inputs, registry, crc) == RunAll(next, inputs[1..], registry, crc)
    ensures Blocks(w, frames, inputs, registry, crc) == left + Blocks(next, here, inputs[1..], registry, crc)
    ensures Flushes(w, inputs, registry, crc) == flushed + Flushes(next, inputs[1..], registry, crc)
    ensures StepsExact(w, inputs, registry, crc) <==>
            StepExact(w, inputs[0]) && StepsExact(next, inputs[1..], registry, crc)
    ensures Recorded(w, frames, segments, crc) ==>
            Recorded(next, here, segments + left, crc) && flushed == FlushesIn(left)
    ensures here != [] && (Tracks(w, frames) ==> Tracks(next, here))
    ensures Tracks(w, frames) ==> FramesOf(left) + here == frames + [inputs[0].f]
    ensures Tracks(w, frames) ==> (AllRegular(left) && Regular(here) <==> Regular(frames) && StepExact(w, inputs[0]))
  {
    var i := inputs[0];
    next, here, left, flushed := Append(w, i, crc), Here(w, frames, i), Left(w, frames, i), LeftBy(w, i);
    StepBlocks(w, frames, inputs, registry, crc);
    if Recorded(w, frames, segments, crc) {
      StepRecorded(w, frames, segments, i, crc);
      StepAlike(w, frames, segments, i, crc);
    }
    if Tracks(w, frames) {
      TracksStep(w, frames, i, crc);
      StepFrames(w, frames, i);
      StepRegular(w, frames, i);
    }
  }

  // ---- Whole runs ----

  /** The blocks of a run are the blocks of the files at its end. */
  lemma {:induction false} BlocksReadable(w: Writing, frames: seq<RxFrame>, segments: seq<Segment>,
                                          inputs: seq<Input>, registry: Registry, crc: Checksum)
    requires Recorded(w, frames, segments, crc) && Accepts(w, inputs, registry, crc)
    ensures AllReadable(segments + Blocks(w, frames, inputs, registry, crc),
                        Finish(RunAll(w, inputs, registry, crc), registry, crc).Journal(), |w.block|, crc)
    decreases |inputs|
  {
    if inputs == [] {
      FinishKeeps(w, frames, segments, registry, crc);
    } else {
      var next, here, left, _ := FirstStep(w, frames, segments, inputs, registry, crc);
      BlocksReadable(next, here, segments + left, inputs[1..], registry, crc);
      Behind(segments, left, Blocks(next, here, inputs[1..], registry, crc));
    }
  }

  lemma Behind(a: seq<Segment>, b: seq<Segment>, c: seq<Segment>)
    ensures a + (b + c) == a + b + c
  {
  }

  lemma {:induction false} BlocksFlushed(w: Writing, frames: seq<RxFrame>, segments: seq<Segment>, inputs: seq<Input>,
                                         registry: Registry, crc: Checksum)
    requires Recorded(w, frames, segments, crc) && Accepts(w, inputs, registry, crc)
    ensures FlushesIn(Blocks(w, frames, inputs, registry, crc)) == Flushes(w, inputs, registry, crc)
    decreases |inputs|
  {
    if inputs == [] {
      ClosedFlush(w, frames, registry);
    } else {
      var next, here, left, flushed := FirstStep(w, frames, segments, inputs, registry, crc);
      BlocksFlushed(next, here, segments + left, inputs[1..], registry, crc);
      FlushesConcat(left, Blocks(next, here, inputs[1..], registry, crc));
    }
  }

  /** No frame is lost on the way to a file but the last one, when it is left in a block without a
      file. */
  lemma {:induction false} BlocksFrames(w: Writing, frames: seq<RxFrame>, inputs: seq<Input>, registry: Registry,
                                        crc: Checksum)
    requires Tracks(w, frames) && Accepts(w, inputs, registry, crc)
    ensures FramesOf(Blocks(w, frames, inputs, registry, crc)) ==
            Filed(frames + FramesIn(inputs), Unfiled(RunAll(w, inputs, registry, crc)))
    decreases |inputs|
  {
    if inputs == [] {
      ClosedFrames(w, frames, registry);
      assert frames + [] == frames;
    } else {
      var next, here, left, _ := FirstStep(w, frames, [], inputs, registry, crc);
      BlocksFrames(next, here, inputs[1..], registry, crc);
      FramesConcat(left, Blocks(next, here, inputs[1..], registry, crc));
      Regroup(FramesOf(left), here, frames, inputs, Unfiled(RunAll(w, inputs, registry, crc)));
    }
  }

  /** All frames, or all but the last. */
  function Filed(all: seq<RxFrame>, unfiled: bool): seq<RxFrame> {
    if unfiled && all != [] then all[..|all| - 1] else all
  }

  lemma Regroup(left: seq<RxFrame>, here: seq<RxFrame>, frames: seq<RxFrame>, inputs: seq<Input>, unfiled: bool)
    requires inputs != [] && left + here == frames + [inputs[0].f] && here != []
    ensures left + Filed(here + FramesIn(inputs[1..]), unfiled) == Filed(frames + FramesIn(inputs), unfiled)
  {
    var rest := FramesIn(inputs[1..]);
    assert FramesIn(inputs) == [inputs[0].f] + rest;
    assert left + (here + rest) == (left + here) + rest;
    assert frames + FramesIn(inputs) == (frames + [inputs[0].f]) + rest;
    Shortened(left, here + rest);
  }

  lemma Shortened(a: seq<RxFrame>, b: seq<RxFrame>)
    requires b != []
    ensures a + b[..|b| - 1] == (a + b)[..|a + b| - 1]
  {
  }

  lemma {:induction false} BlocksRegular(w: Writing, frames: seq<RxFrame>, inputs: seq<Input>, registry: Registry,
                                         crc: Checksum)
    requires Tracks(w, frames) && Accepts(w, inputs, registry, crc) && !Unfiled(RunAll(w, inputs, registry, crc))
    ensures AllRegular(Blocks(w, frames, inputs, registry, crc)) <==>
            Regular(frames) && StepsExact(w, inputs, registry, crc)
    decreases |inputs|
  {
    if inputs == [] {
      ClosedRegular(w, frames, registry);
    } else {
      var next, here, left, _ := FirstStep(w, frames, [], inputs, registry, crc);
      BlocksRegular(next, here, inputs[1..], registry, crc);
      RegularConcat(left, Blocks(next, here, inputs[1..], registry, crc));
    }
  }

  /** The last frame of the run closed the file. */
  predicate LastRotates(w: Writing, inputs: seq<Input>, registry: Registry, crc: Checksum)
    requires Accepts(w, inputs, registry, crc)
    decreases |inputs|
  {
    inputs != [] &&
    if |inputs| == 1 then Rotates(w, inputs[0])
    else LastRotates(Append(w, inputs[0], crc), inputs[1..], registry, crc)
  }

  lemma {:induction false} UnfiledIff(w: Writing, inputs: seq<Input>, registry: Registry, crc: Checksum)
    requires Accepts(w, inputs, registry, crc) && inputs != []
    ensures Unfiled(RunAll(w, inputs, registry, crc)) <==> LastRotates(w, inputs, registry, crc)
    decreases |inputs|
  {
    var next := Append(w, inputs[0], crc);
    if |inputs| == 1 {
      assert inputs[1..] == [];
    } else {
      UnfiledIff(next, inputs[1..], registry, crc);
    }
  }

  ghost predicate FlushesApart(flushes: seq<Flush>, blockSize: nat) {
    forall k :: 0 <= k < |flushes| ==> flushes[k].Apart(blockSize)
  }

  ghost predicate FlushesSized(flushes: seq<Flush>) {
    forall k :: 0 <= k < |flushes| ==> flushes[k].Sized()
  }

  lemma {:induction false} FlushesTell(segments: seq<Segment>, blockSize: nat)
    ensures AllApart(segments, blockSize) <==> FlushesApart(FlushesIn(segments), blockSize)
    ensures AllSized(segments) <==> FlushesSized(FlushesIn(segments))
  {
    if segments != [] {
      var n := |segments| - 1;
      FlushesTell(segments[..n], blockSize);
      LastFlush(FlushesIn(segments[..n]), FlushIn(segments[n]), blockSize);
    }
  }

  lemma LastFlush(front: seq<Flush>, f: Flush, blockSize: nat)
    ensures FlushesApart(front + [f], blockSize) <==> FlushesApart(front, blockSize) && f.Apart(blockSize)
    ensures FlushesSized(front + [f]) <==> FlushesSized(front) && f.Sized()
  {
    var all, n := front + [f], |front|;
    assert all[n] == f && forall k :: 0 <= k < n ==> all[k] == front[k];
  }

  lemma EndsUnfiled(w: Writing, inputs: seq<Input>, registry: Registry, crc: Checksum)
    requires Tracks(w, []) && Accepts(w, inputs, registry, crc)
    ensures Unfiled(RunAll(w, inputs, registry, crc)) <==> LastRotates(w, inputs, registry, crc)
  {
    if inputs != [] {
      UnfiledIff(w, inputs, registry, crc);
    }
  }

  lemma FiledBlocks(w: Writing, inputs: seq<Input>, registry: Registry, crc: Checksum) returns (segments: seq<Segment>)
    requires Recorded(w, [], [], crc) && Tracks(w, []) && Accepts(w, inputs, registry, crc)
    ensures AllReadable(segments, Finish(RunAll(w, inputs, registry, crc), registry, crc).Journal(), |w.block|, crc)
    ensures FlushesIn(segments) == Flushes(w, inputs, registry, crc)
    ensures FramesOf(segments) == Filed(FramesIn(inputs), LastRotates(w, inputs, registry, crc))
    ensures !LastRotates(w, inputs, registry, crc) ==> (AllRegular(segments) <==> StepsExact(w, inputs, registry, crc))
  {
    segments := FiledFlushes(w, inputs, registry, crc);
    FiledFrames(w, inputs, registry, crc);
    FiledRegular(w, inputs, registry, crc);
  }

  lemma FiledFrames(w: Writing, inputs: seq<Input>, registry: Registry, crc: Checksum)
    requires Tracks(w, []) && Accepts(w, inputs, registry, crc)
    ensures FramesOf(Blocks(w, [], inputs, registry, crc)) ==
            Filed(FramesIn(inputs), LastRotates(w, inputs, registry, crc))
  {
    EndsUnfiled(w, inputs, registry, crc);
    BlocksFrames(w, [], inputs, registry, crc);
    NothingBefore(FramesIn(inputs));
  }

  lemma FiledRegular(w: Writing, inputs: seq<Input>, registry: Registry, crc: Checksum)
    requires Tracks(w, []) && Accepts(w, inputs, registry, crc)
    ensures LastRotates(w, inputs, registry, crc) ||
            (AllRegular(Blocks(w, [], inputs, registry, crc)) <==> StepsExact(w, inputs, registry, crc))
  {
    EndsUnfiled(w, inputs, registry, crc);
    if !LastRotates(w, inputs, registry, crc) {
      BlocksRegular(w, [], inputs, registry, crc);
    }
  }

  lemma FiledFlushes(w: Writing, inputs: seq<Input>, registry: Registry, crc: Checksum) returns (segments: seq<Segment>)
    requires Recorded(w, [], [], crc) && Accepts(w, inputs, registry, crc)
    ensures segments == Blocks(w, [], inputs, registry, crc)
    ensures AllReadable(segments, Finish(RunAll(w, inputs, registry, crc), registry, crc).Journal(), |w.block|, crc)
    ensures FlushesIn(segments) == Flushes(w, inputs, registry, crc)
  {
    segments := Blocks(w, [], inputs, registry, crc);
    BlocksReadable(w, [], [], inputs, registry, crc);
    assert [] + segments == segments;
    BlocksFlushed(w, [], [], inputs, registry, crc);
  }

  lemma NothingBefore(fs: seq<RxFrame>)
    ensures [] + fs == fs
  {
  }
}
