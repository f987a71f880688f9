/** What the journal writer's fit check protects: when the device table of a block keeps clear of
    its frames. */
module JournalRoom {
  import opened Bytes
  import opened CanId
  import opened JournalFormat
  import opened JournalBlock
  import opened JournalWriting
  import opened JournalRuns
  import opened JournalRoundTrip

  /** Bytes of the table entry an address claim adds. */
  function ClaimBytes(f: RxFrame, registry: Registry): nat {
    if IsClaim(f) then EntrySize(ChangeEntry(ClaimChange(f, 0), registry)) else 0
  }

  lemma EntriesAfter(w: Writing, f: RxFrame, bytes: seq<byte>, registry: Registry)
    requires w.dataOffset <= |w.block|
    ensures TableBytes(Put(w, f, bytes).Entries(registry)) == TableBytes(w.Entries(registry)) + ClaimBytes(f, registry)
  {
    if IsClaim(f) {
      var c := ClaimChange(f, w.frameCount);
      assert ChangeEntries(w.changes + [c], registry) ==
             ChangeEntries(w.changes, registry) + [ChangeEntry(c, registry)];
      assert Put(w, f, bytes).Entries(registry) == w.Entries(registry) + [ChangeEntry(c, registry)];
      SizeSnoc(w.Entries(registry), ChangeEntry(c, registry));
    } else {
      assert Put(w, f, bytes).changes == w.changes;
    }
  }

  /** After an append, frames and table are apart if and only if the table as it would now be
      written, with the entry the frame adds if it is a claim, has room behind the frame. The fit
      check looks at neither the claim itself nor the start table of a new block. */
  lemma ApartAfter(w: Writing, i: Input, registry: Registry, crc: Checksum)
    requires CanAppend(w, i)
    ensures FlushOf(Append(w, i, crc), registry).Apart(|w.block|) <==>
            (if w.Continues(i.f)
             then w.dataOffset + |EncodeFrame(w.NextDelta(i.f), Stored(i.f))| + TableBytes(w.Entries(registry))
             else DATA_OFFSET + |EncodeFrame(0, Stored(i.f))| + TableBytes(StartEntries(i.snapshot)))
            + ClaimBytes(i.f, registry) + TRAILER_LEN <= |w.block|
  {
    if w.Continues(i.f) {
      EntriesAfter(w.(open := true), i.f, EncodeFrame(w.NextDelta(i.f), Stored(i.f)), registry);
    } else {
      var r := Fresh(Turned(w, i, crc), i.f, i.snapshot);
      EntriesAfter(r, i.f, EncodeFrame(0, Stored(i.f)), registry);
      assert r.Entries(registry) == StartEntries(i.snapshot);
    }
  }

  /** In a block that goes on, table and trailer keep their reserved room unless the frame is itself
      a claim that leaves less than one more entry's worth; a new block has it exactly if its first
      frame and start table fit. */
  lemma RoomAfter(w: Writing, i: Input, crc: Checksum)
    requires CanAppend(w, i)
    ensures Append(w, i, crc).Roomy() <==> KeepsRoom(w, i)
  {
  }

  predicate KeepsRoom(w: Writing, i: Input) {
    var extra := if IsClaim(i.f) then DEVICE_ENTRY_MAX else 0;
    if w.Continues(i.f) then
      IsClaim(i.f) ==>
        w.dataOffset + |EncodeFrame(w.NextDelta(i.f), Stored(i.f))| + w.Reserve() + extra + TRAILER_LEN <= |w.block|
    else
      DATA_OFFSET + |EncodeFrame(0, Stored(i.f))| + TableBytes(StartEntries(i.snapshot)) + extra + TRAILER_LEN
      <= |w.block|
  }

  ghost predicate RegistryFits(registry: Registry) {
    forall k :: k in registry ==> ProductFits(registry[k])
  }

  ghost predicate ChangesFit(changes: seq<Change>) {
    forall i :: 0 <= i < |changes| ==> changes[i].name < 0x1_0000_0000_0000_0000 && changes[i].frameIdx < 0x1_0000_0000
  }

  /** With the reserve kept, the table written at the flush is clear of the frames. */
  lemma RoomyIsApart(w: Writing, registry: Registry)
    requires w.Roomy() && w.startTableSize == EntriesSize(w.startEntries)
    requires ChangesFit(w.changes) && RegistryFits(registry)
    ensures FlushOf(w, registry).Apart(|w.block|) && FlushOf(w, registry).tableBytes <= w.Reserve()
  {
    var es := ChangeEntries(w.changes, registry);
    forall i | 0 <= i < |es| ensures EntryFits(es[i]) {
      assert ProductFits(NO_PRODUCT);
    }
    EntriesLength(es);
    EntriesSizeConcat(w.startEntries, es);
  }

  /** What keeps a run out of trouble: products that fit their fields, room kept for the table, and
      a table that stays under 64 KiB. */
  ghost predicate Calm(w: Writing, i: Input) {
    && MIN_BLOCK <= |w.block| && Acceptable(i.f) && RegistryFits(i.registry) && KeepsRoom(w, i)
    && (if w.Continues(i.f) then w.Reserve() else TableBytes(StartEntries(i.snapshot))) + DEVICE_ENTRY_MAX < 0x1_0000
  }

  ghost predicate AllCalm(w: Writing, inputs: seq<Input>, crc: Checksum)
    decreases |inputs|
  {
    inputs == [] ||
    (Calm(w, inputs[0]) && (CanAppend(w, inputs[0]) ==> AllCalm(Append(w, inputs[0], crc), inputs[1..], crc)))
  }

  /** The current block, if any, can be flushed with frames and table apart. */
  predicate Kept(w: Writing) {
    w.frameCount > 0 ==> w.Roomy() && w.Reserve() < 0x1_0000
  }

  lemma {:induction false} ClaimsFit(fs: seq<RxFrame>)
    ensures forall i :: 0 <= i < |Claims(fs)| ==>
              Claims(fs)[i].name < 0x1_0000_0000_0000_0000 && Claims(fs)[i].frameIdx < |fs|
  {
    Pow256Constants();
    if fs != [] {
      ClaimsFit(fs[..|fs| - 1]);
    }
  }

  lemma KeptFlushes(w: Writing, frames: seq<RxFrame>, segments: seq<Segment>, registry: Registry, crc: Checksum)
    requires Recorded(w, frames, segments, crc) && Kept(w) && RegistryFits(registry)
    ensures w.Flushable(registry)
    ensures w.frameCount > 0 ==> FlushOf(w, registry).Apart(|w.block|) && FlushOf(w, registry).Sized()
  {
    if frames != [] {
      ClaimsFit(frames);
      Pow256Constants();
      RoomyIsApart(w, registry);
    }
  }

  lemma CalmStep(w: Writing, i: Input, crc: Checksum)
    requires Kept(w) && Calm(w, i) && CanAppend(w, i)
    ensures Kept(Append(w, i, crc))
  {
    RoomAfter(w, i, crc);
  }

  ghost predicate AllGood(flushes: seq<Flush>, blockSize: nat) {
    FlushesApart(flushes, blockSize) && FlushesSized(flushes)
  }

  lemma GoodConcat(a: seq<Flush>, b: seq<Flush>, blockSize: nat)
    requires AllGood(a, blockSize) && AllGood(b, blockSize)
    ensures AllGood(a + b, blockSize)
  {
  }

  /** A calm run never panics, and every table it writes is clear of the frames. */
  lemma {:induction false} CalmRun(w: Writing, frames: seq<RxFrame>, segments: seq<Segment>, inputs: seq<Input>,
                                   registry: Registry, crc: Checksum)
    requires Recorded(w, frames, segments, crc) && Kept(w) && RegistryFits(registry) && AllCalm(w, inputs, crc)
    ensures Accepts(w, inputs, registry, crc) && AllGood(Flushes(w, inputs, registry, crc), |w.block|)
    decreases |inputs|
  {
    if inputs == [] {
      KeptFlushes(w, frames, segments, registry, crc);
    } else {
      var next, here, left, flushed := CalmFirst(w, frames, segments, inputs, crc);
      CalmRun(next, here, left, inputs[1..], registry, crc);
      GoodConcat(flushed, Flushes(next, inputs[1..], registry, crc), |w.block|);
      FlushesFirst(w, inputs, next, flushed, registry, crc);
    }
  }

  lemma CalmFirst(w: Writing, frames: seq<RxFrame>, segments: seq<Segment>, inputs: seq<Input>, crc: Checksum)
    returns (next: Writing, here: seq<RxFrame>, left: seq<Segment>, flushed: seq<Flush>)
    requires inputs != [] && Recorded(w, frames, segments, crc) && Kept(w) && AllCalm(w, inputs, crc)
    ensures Follows(w, inputs[0], next, crc) && flushed == LeftBy(w, inputs[0]) && AllGood(flushed, |w.block|)
    ensures Recorded(next, here, left, crc) && Kept(next) && AllCalm(next, inputs[1..], crc)
    ensures |next.block| == |w.block|
  {
    var i := inputs[0];
    flushed := CalmLeft(w, frames, segments, i, crc);
    next := CalmNext(w, frames, segments, i, crc);
    here, left := Here(w, frames, i), segments + Left(w, frames, i);
  }

  lemma CalmLeft(w: Writing, frames: seq<RxFrame>, segments: seq<Segment>, i: Input, crc: Checksum)
    returns (flushed: seq<Flush>)
    requires Recorded(w, frames, segments, crc) && Kept(w) && Calm(w, i)
    ensures CanAppend(w, i) && flushed == LeftBy(w, i) && AllGood(flushed, |w.block|)
  {
    KeptFlushes(w, frames, segments, i.registry, crc);
    flushed := LeftBy(w, i);
  }

  lemma CalmNext(w: Writing, frames: seq<RxFrame>, segments: seq<Segment>, i: Input, crc: Checksum)
    returns (next: Writing)
    requires Recorded(w, frames, segments, crc) && Kept(w) && Calm(w, i) && CanAppend(w, i)
    ensures Follows(w, i, next, crc) && Kept(next) && |next.block| == |w.block|
    ensures Recorded(next, Here(w, frames, i), segments + Left(w, frames, i), crc)
  {
    CalmStep(w, i, crc);
    StepRecorded(w, frames, segments, i, crc);
    next := Append(w, i, crc);
  }

  ghost predicate Follows(w: Writing, i: Input, next: Writing, crc: Checksum) {
    CanAppend(w, i) && next == Append(w, i, crc)
  }

  lemma FlushesFirst(w: Writing, inputs: seq<Input>, next: Writing, flushed: seq<Flush>, registry: Registry,
                     crc: Checksum)
    requires inputs != [] && Follows(w, inputs[0], next, crc) && flushed == LeftBy(w, inputs[0])
    requires Accepts(next, inputs[1..], registry, crc)
    ensures Accepts(w, inputs, registry, crc)
    ensures Flushes(w, inputs, registry, crc) == flushed + Flushes(next, inputs[1..], registry, crc)
  {
  }

  lemma {:induction false} RegularParts(segments: seq<Segment>)
    requires Regular(FramesOf(segments))
    ensures AllRegular(segments)
  {
    if segments != [] {
      var n := |segments| - 1;
      RegularHalves(FramesOf(segments[..n]), segments[n].frames);
      RegularParts(segments[..n]);
    }
  }

  lemma RegularHalves(a: seq<RxFrame>, b: seq<RxFrame>)
    requires Regular(a + b)
    ensures Regular(a) && Regular(b)
  {
    var c := a + b;
    forall i | 0 <= i < |a| ensures a[i] == c[i] && a[i].seqNo == a[0].seqNo + i && ValidHeader(a[i].header) {
      assert c[0] == a[0];
    }
    forall i | 0 <= i < |b| ensures b[i] == c[|a| + i] && b[i].seqNo == b[0].seqNo + i && ValidHeader(b[i].header) {
      assert c[|a|] == b[0];
    }
    assert forall i :: 1 <= i < |a| ==> c[i - 1].time <= c[i].time;
    forall i | 1 <= i < |b| ensures b[i - 1].time <= b[i].time {
      assert b[i - 1] == c[|a| + i - 1] && b[i] == c[|a| + i];
    }
  }

  /** A calm run over consecutive numbers, times that never go back and valid headers, whose last
      frame does not close the file, leaves files that read back as exactly the frames appended. */
  lemma FileRoundTrip(blockSize: nat, inputs: seq<Input>, registry: Registry, crc: Checksum)
    requires MIN_BLOCK <= blockSize < 0x1_0000_0000 && RegistryFits(registry)
    requires AllCalm(NewWriting(blockSize), inputs, crc) && Regular(FramesIn(inputs))
    requires inputs != [] ==> !inputs[|inputs| - 1].rotate
    ensures Accepts(NewWriting(blockSize), inputs, registry, crc)
    ensures AllSame(ReadBlocks(Ended(blockSize, inputs, registry, crc).Journal(), crc), FramesIn(inputs))
  {
    var w := NewWriting(blockSize);
    NewRecorded(blockSize, crc);
    CalmRun(w, [], [], inputs, registry, crc);
    StaysFiled(w, inputs, registry, crc);
    var segments, _, _ := RunBlocks(blockSize, inputs, registry, crc);
    RegularParts(segments);
    JournalExactIff(blockSize, inputs, registry, crc);
  }

  /** The conditions are not idle: a single frame of up to 2000 bytes that is no claim is calm in any
      new file, whatever its header and time. */
  lemma SingleFrameCalm(blockSize: nat, f: RxFrame, crc: Checksum)
    requires MIN_BLOCK <= blockSize && Acceptable(f) && |f.data| <= 2000 && !IsClaim(f)
    ensures AllCalm(NewWriting(blockSize), [Input(f, [], map[], false, false)], crc)
  {
    FirstSize(f);
    assert [Input(f, [], map[], false, false)][1..] == [];
  }

  lemma FirstSize(f: RxFrame)
    requires |f.data| < 0x1_0000_0000_0000_0000
    ensures |EncodeFrame(0, Stored(f))| <= 24 + |f.data|
  {
    RoomStart();
    Pow256Constants();
    UvarintShort(|f.data|, 0);
  }

  lemma {:induction false} UvarintShort(v: nat, i: nat)
    requires i <= 9 && v < Room(i)
    ensures |PutUvarint(v)| <= 10 - i
    decreases v
  {
    if v >= 128 {
      UvarintShort(v / 128, i + 1);
    }
  }
}
