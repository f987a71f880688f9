/** The device tables of a run: which devices each block's table names, and whom a reader takes for
    the device at an address. */
module JournalDevices {
  import opened Bytes
  import opened CanId
  import opened JournalFormat
  import opened JournalBlock
  import opened JournalWriting
  import opened JournalRuns
  import opened JournalRoundTrip

  // ---- What a table lists ----

  ghost predicate Rising(idx: seq<nat>) {
    forall i, j :: 0 <= i < j < |idx| ==> idx[i] < idx[j]
  }

  /** The places of the named devices in a snapshot. */
  ghost predicate NamedAt(idx: seq<nat>, snapshot: seq<Device>) {
    Rising(idx) && forall k: nat :: k in idx <==> k < |snapshot| && snapshot[k].name != 0
  }

  /** The indices of the address claims among these frames. */
  ghost predicate ClaimsAt(idx: seq<nat>, frames: seq<RxFrame>) {
    Rising(idx) && forall n: nat :: n in idx <==> n < |frames| && frames[n].header.pgn == 60928 && |frames[n].data| >= 8
  }

  ghost predicate StartsAs(e: DeviceEntry, d: Device) {
    e.source == d.source && e.name == d.name && e.activeFrom == 0 && e.product == d.product
  }

  /** The entry is the `n`-th frame's claim, with what the registry knows of the claimed address. */
  ghost predicate ClaimedBy(e: DeviceEntry, f: RxFrame, n: nat, registry: Registry) {
    && e.source == f.header.source && e.activeFrom == n
    && |f.data| >= 8 && e.name == GetLE(f.data[..8])
    && e.product == (if (f.bus, f.header.source) in registry then registry[(f.bus, f.header.source)]
                     else Product(0, [], [], [], []))
  }

  /** The entries are one for each named device of the snapshot, active from the beginning, and then
      one for each claim, active from its frame on. */
  ghost predicate Listed(es: seq<DeviceEntry>, starts: seq<nat>, claims: seq<nat>,
                         snapshot: seq<Device>, frames: seq<RxFrame>, registry: Registry)
  {
    && NamedAt(starts, snapshot) && ClaimsAt(claims, frames) && |es| == |starts| + |claims|
    && (forall i :: 0 <= i < |starts| ==> starts[i] < |snapshot| && StartsAs(es[i], snapshot[starts[i]]))
    && (forall j :: 0 <= j < |claims| ==>
          claims[j] < |frames| && ClaimedBy(es[|starts| + j], frames[claims[j]], claims[j], registry))
  }

  lemma RisingSnoc(idx: seq<nat>, n: nat)
    requires Rising(idx) && forall k :: k in idx ==> k < n
    ensures Rising(idx + [n])
  {
    var longer := idx + [n];
    forall i, j | 0 <= i < j < |longer| ensures longer[i] < longer[j] {
      assert idx[i] in idx;
    }
  }

  lemma {:induction false} StartsListed(snapshot: seq<Device>) returns (starts: seq<nat>)
    ensures NamedAt(starts, snapshot) && |StartEntries(snapshot)| == |starts|
    ensures forall i :: 0 <= i < |starts| ==>
              starts[i] < |snapshot| && StartsAs(StartEntries(snapshot)[i], snapshot[starts[i]])
  {
    starts := [];
    if snapshot != [] {
      var n := |snapshot| - 1;
      var front := StartsListed(snapshot[..n]);
      starts := front;
      if snapshot[n].name != 0 {
        RisingSnoc(front, n);
        starts := front + [n];
        assert forall k :: k in starts <==> k in front || k == n;
      }
    }
  }

  /** The `j`-th change noted is the claim of frame `n`. */
  ghost predicate Notes(c: Change, f: RxFrame, n: nat) {
    && |f.data| >= 8
    && c.bus == f.bus && c.source == f.header.source && c.name == GetLE(f.data[..8]) && c.frameIdx == n
  }

  lemma {:induction false} ClaimsListed(frames: seq<RxFrame>) returns (claims: seq<nat>)
    ensures ClaimsAt(claims, frames) && |Claims(frames)| == |claims|
    ensures forall j :: 0 <= j < |claims| ==>
              claims[j] < |frames| && Notes(Claims(frames)[j], frames[claims[j]], claims[j])
  {
    claims := [];
    if frames != [] {
      var n := |frames| - 1;
      var front := ClaimsListed(frames[..n]);
      claims := front;
      if IsClaim(frames[n]) {
        RisingSnoc(front, n);
        claims := front + [n];
        assert forall k :: k in claims <==> k in front || k == n;
      }
    }
  }

  /** Whatever the writer notes and looks up, its table lists exactly these devices. */
  lemma TableLists(es: seq<DeviceEntry>, snapshot: seq<Device>, frames: seq<RxFrame>, registry: Registry)
    returns (starts: seq<nat>, claims: seq<nat>)
    requires es == StartEntries(snapshot) + ChangeEntries(Claims(frames), registry)
    ensures Listed(es, starts, claims, snapshot, frames, registry)
  {
    starts := StartsListed(snapshot);
    claims := ClaimsListed(frames);
    forall j | 0 <= j < |claims| ensures ClaimedBy(es[|starts| + j], frames[claims[j]], claims[j], registry) {
      assert Notes(Claims(frames)[j], frames[claims[j]], claims[j]);
      assert es[|starts| + j] == ChangeEntries(Claims(frames), registry)[j];
    }
  }

  // ---- The tables of a run ----

  /** The block was begun with this snapshot of the registry. */
  predicate Started(w: Writing, snapshot: seq<Device>) {
    w.startEntries == StartEntries(snapshot)
  }

  /** What a block's table is made from besides its frames: the registry's devices when it was begun and
      what the registry said of the claimed addresses when it was flushed. */
  datatype Source = Source(snapshot: seq<Device>, registry: Registry)

  /** For each block of a run, in order. */
  function Sources(w: Writing, snapshot: seq<Device>, inputs: seq<Input>, registry: Registry,
                   crc: Checksum): seq<Source>
    requires Accepts(w, inputs, registry, crc)
    decreases |inputs|
  {
    if inputs == [] then
      if w.frameCount > 0 && w.open then [Source(snapshot, registry)] else []
    else
      var i := inputs[0];
      (if w.frameCount > 0 && !w.Continues(i.f) then [Source(snapshot, i.registry)] else []) +
      Sources(Append(w, i, crc), if w.Continues(i.f) then snapshot else i.snapshot, inputs[1..], registry, crc)
  }

  ghost predicate Tells(s: Segment, src: Source) {
    s.entries == StartEntries(src.snapshot) + ChangeEntries(Claims(s.frames), src.registry)
  }

  ghost predicate AllTell(segments: seq<Segment>, sources: seq<Source>) {
    |segments| == |sources| && forall k :: 0 <= k < |segments| ==> Tells(segments[k], sources[k])
  }

  lemma TellConcat(a: seq<Segment>, b: seq<Source>, c: seq<Segment>, d: seq<Source>)
    requires AllTell(a, b) && AllTell(c, d)
    ensures AllTell(a + c, b + d)
  {
    forall k | 0 <= k < |a + c| ensures Tells((a + c)[k], (b + d)[k]) {
      if k < |a| {
        assert Tells(a[k], b[k]);
      } else {
        assert Tells(c[k - |a|], d[k - |a|]);
      }
    }
  }

  lemma ClosedTells(w: Writing, frames: seq<RxFrame>, snapshot: seq<Device>, registry: Registry)
    requires Started(w, snapshot) && w.frameCount == |frames| && (frames != [] ==> w.changes == Claims(frames))
    ensures AllTell(Closed(w, frames, registry), if w.frameCount > 0 then [Source(snapshot, registry)] else [])
  {
  }

  lemma {:induction false} StepTells(w: Writing, frames: seq<RxFrame>, snapshot: seq<Device>, inputs: seq<Input>,
                                     registry: Registry, crc: Checksum)
    returns (next: Writing, now: seq<Device>, made: seq<Source>)
    requires inputs != [] && Accepts(w, inputs, registry, crc) && Started(w, snapshot)
    requires w.frameCount == |frames| && (frames != [] ==> w.changes == Claims(frames))
    ensures next == Append(w, inputs[0], crc) && Started(next, now)
    ensures Sources(w, snapshot, inputs, registry, crc) == made + Sources(next, now, inputs[1..], registry, crc)
    ensures AllTell(Left(w, frames, inputs[0]), made)
  {
    var i := inputs[0];
    next, now := Append(w, i, crc), if w.Continues(i.f) then snapshot else i.snapshot;
    made := if w.frameCount > 0 && !w.Continues(i.f) then [Source(snapshot, i.registry)] else [];
    ClosedTells(w, frames, snapshot, i.registry);
  }

  lemma {:induction false} BlocksTell(w: Writing, frames: seq<RxFrame>, segments: seq<Segment>, snapshot: seq<Device>,
                                      inputs: seq<Input>, registry: Registry, crc: Checksum)
    requires Recorded(w, frames, segments, crc) && Accepts(w, inputs, registry, crc) && Started(w, snapshot)
    ensures AllTell(Blocks(w, frames, inputs, registry, crc), Sources(w, snapshot, inputs, registry, crc))
    decreases |inputs|
  {
    if inputs == [] {
      ClosedTells(w, frames, snapshot, registry);
    } else {
      var next, now, made := StepTells(w, frames, snapshot, inputs, registry, crc);
      StepBlocks(w, frames, inputs, registry, crc);
      StepRecorded(w, frames, segments, inputs[0], crc);
      var here, left := Here(w, frames, inputs[0]), Left(w, frames, inputs[0]);
      BlocksTell(next, here, segments + left, now, inputs[1..], registry, crc);
      TellConcat(left, made, Blocks(next, here, inputs[1..], registry, crc),
                 Sources(next, now, inputs[1..], registry, crc));
    }
  }

  /** What a flush would write now lists the devices of the block's snapshot and the claims among its frames. */
  lemma {:induction false} FlushLists(w: Writing, frames: seq<RxFrame>, segments: seq<Segment>, src: Source,
                                      crc: Checksum)
    returns (starts: seq<nat>, claims: seq<nat>)
    requires Recorded(w, frames, segments, crc) && frames != [] && Started(w, src.snapshot)
    ensures Listed(w.Entries(src.registry), starts, claims, src.snapshot, frames, src.registry)
  {
    starts, claims := TableLists(w.Entries(src.registry), src.snapshot, frames, src.registry);
  }

  predicate DevicesFit(snapshot: seq<Device>) {
    forall k :: 0 <= k < |snapshot| ==> snapshot[k].name < 0x1_0000_0000_0000_0000 && ProductFits(snapshot[k].product)
  }

  ghost predicate ProductsFit(registry: Registry) {
    forall k :: k in registry ==> ProductFits(registry[k])
  }

  /** Devices and products that fit their fields make entries that do. */
  lemma ListedFits(es: seq<DeviceEntry>, starts: seq<nat>, claims: seq<nat>, src: Source, frames: seq<RxFrame>)
    requires Listed(es, starts, claims, src.snapshot, frames, src.registry)
    requires DevicesFit(src.snapshot) && ProductsFit(src.registry) && |frames| < Pow256(4)
    ensures AllFit(es)
  {
    Pow256Constants();
    forall i | 0 <= i < |es| ensures EntryFits(es[i]) {
      if i < |starts| {
        assert StartsAs(es[i], src.snapshot[starts[i]]);
      } else {
        var n := claims[i - |starts|];
        assert ClaimedBy(es[|starts| + (i - |starts|)], frames[n], n, src.registry);
      }
    }
  }

  /** A block of a file, read back: its device table lists exactly the devices of its snapshot and the
      claims among its frames, whether or not the table ran into the frames. */
  lemma {:induction false} TableRead(s: Segment, src: Source, block: seq<byte>, blockSize: nat, crc: Checksum)
    returns (c: Cursor, starts: seq<nat>, claims: seq<nat>)
    requires Readable(s, block, blockSize, crc) && Tells(s, src) && SizedIn(s)
    requires DevicesFit(src.snapshot) && ProductsFit(src.registry)
    ensures LoadBlock(block, crc) == Loaded(c) && TableAt(block, c.limit) == GotTable(s.entries)
    ensures Listed(s.entries, starts, claims, src.snapshot, s.frames, src.registry)
  {
    starts, claims := TableLists(s.entries, src.snapshot, s.frames, src.registry);
    ListedFits(s.entries, starts, claims, src, s.frames);
    c := RoundTrip(block, StoredAll(s.frames), s.baseSeq, s.entries, crc);
  }

  /** Every block of every run has such a table. */
  lemma {:induction false} RunTables(blockSize: nat, inputs: seq<Input>, registry: Registry, crc: Checksum)
    returns (segments: seq<Segment>, sources: seq<Source>)
    requires MIN_BLOCK <= blockSize < 0x1_0000_0000 && Accepts(NewWriting(blockSize), inputs, registry, crc)
    ensures AllReadable(segments, Ended(blockSize, inputs, registry, crc).Journal(), blockSize, crc)
    ensures FramesOf(segments) == Filed(FramesIn(inputs), LastRotates(NewWriting(blockSize), inputs, registry, crc))
    ensures sources == Sources(NewWriting(blockSize), [], inputs, registry, crc) && AllTell(segments, sources)
  {
    var w := NewWriting(blockSize);
    NewRecorded(blockSize, crc);
    segments := FiledFlushes(w, inputs, registry, crc);
    FiledFrames(w, inputs, registry, crc);
    BlocksTell(w, [], [], [], inputs, registry, crc);
    sources := Sources(w, [], inputs, registry, crc);
  }

  // ---- Whom a reader takes for the device at an address ----

  predicate Candidate(es: seq<DeviceEntry>, i: int, source: byte, frameIdx: int) {
    0 <= i < |es| && es[i].source == source && es[i].activeFrom <= frameIdx
  }

  /** The entry for an address that became active last, and the first of several that did so at once. */
  ghost predicate IsBest(es: seq<DeviceEntry>, i: int, source: byte, frameIdx: int) {
    && Candidate(es, i, source, frameIdx)
    && forall j :: Candidate(es, j, source, frameIdx) ==>
         es[j].activeFrom <= es[i].activeFrom && (es[j].activeFrom == es[i].activeFrom ==> i <= j)
  }

  ghost predicate BestFor(best: map<byte, DeviceEntry>, es: seq<DeviceEntry>, s: byte, frameIdx: int) {
    if s in best then exists i :: IsBest(es, i, s, frameIdx) && best[s] == es[i]
    else forall i :: !Candidate(es, i, s, frameIdx)
  }

  ghost predicate BestOf(best: map<byte, DeviceEntry>, es: seq<DeviceEntry>, frameIdx: int) {
    forall s: byte :: BestFor(best, es, s, frameIdx)
  }

  /** The entry takes its address over. */
  predicate Better(best: map<byte, DeviceEntry>, e: DeviceEntry, frameIdx: int) {
    e.activeFrom <= frameIdx && (e.source in best ==> e.activeFrom > best[e.source].activeFrom)
  }

  lemma BestSnoc(best: map<byte, DeviceEntry>, es: seq<DeviceEntry>, e: DeviceEntry, frameIdx: int)
    requires BestOf(best, es, frameIdx)
    ensures BestOf(if Better(best, e, frameIdx) then best[e.source := e] else best, es + [e], frameIdx)
  {
    var now := if Better(best, e, frameIdx) then best[e.source := e] else best;
    forall s: byte ensures BestFor(now, es + [e], s, frameIdx) {
      assert BestFor(best, es, s, frameIdx);
      if s == e.source {
        BestHere(best, es, e, frameIdx);
      } else {
        BestElsewhere(best, es, e, s, frameIdx);
        assert s in now <==> s in best;
      }
    }
  }

  lemma BestElsewhere(best: map<byte, DeviceEntry>, es: seq<DeviceEntry>, e: DeviceEntry, s: byte, frameIdx: int)
    requires BestFor(best, es, s, frameIdx) && s != e.source
    ensures BestFor(best, es + [e], s, frameIdx)
  {
    CandidatesSnoc(es, e, s, frameIdx);
    if s in best {
      var i :| IsBest(es, i, s, frameIdx) && best[s] == es[i];
      assert IsBest(es + [e], i, s, frameIdx);
    }
  }

  lemma BestHere(best: map<byte, DeviceEntry>, es: seq<DeviceEntry>, e: DeviceEntry, frameIdx: int)
    requires BestFor(best, es, e.source, frameIdx)
    ensures BestFor(if Better(best, e, frameIdx) then best[e.source := e] else best, es + [e], e.source, frameIdx)
  {
    CandidatesSnoc(es, e, e.source, frameIdx);
    if Better(best, e, frameIdx) {
      assert IsBest(es + [e], |es|, e.source, frameIdx);
    } else if e.source in best {
      var i :| IsBest(es, i, e.source, frameIdx) && best[e.source] == es[i];
      assert IsBest(es + [e], i, e.source, frameIdx);
    }
  }

  lemma CandidatesSnoc(es: seq<DeviceEntry>, e: DeviceEntry, s: byte, frameIdx: int)
    ensures forall j :: Candidate(es + [e], j, s, frameIdx) <==>
              Candidate(es, j, s, frameIdx) || (j == |es| && e.source == s && e.activeFrom <= frameIdx)
  {
  }

  /** The reader's device table at a frame. */
  method BlockDevicesAt(es: seq<DeviceEntry>, frameIdx: int) returns (best: map<byte, DeviceEntry>)
    ensures BestOf(best, es, frameIdx)
  {
    best := map[];
    for k := 0 to |es|
      invariant BestOf(best, es[..k], frameIdx)
    {
      var e := es[k];
      BestSnoc(best, es[..k], e, frameIdx);
      assert es[..k + 1] == es[..k] + [e];
      if e.activeFrom <= frameIdx {
        if e.source !in best || e.activeFrom > best[e.source].activeFrom {
          best := best[e.source := e];
        }
      }
    }
    assert es[..|es|] == es;
  }

  ghost predicate ClaimOf(frames: seq<RxFrame>, m: int, source: byte) {
    0 <= m < |frames| && frames[m].header.pgn == 60928 && |frames[m].data| >= 8 && frames[m].header.source == source
  }

  /** What an entry of the table is: a device of the snapshot, or a claim. */
  lemma {:induction false} EntryIs(es: seq<DeviceEntry>, starts: seq<nat>, claims: seq<nat>, src: Source,
                                   frames: seq<RxFrame>, i: nat)
    returns (place: nat)
    requires Listed(es, starts, claims, src.snapshot, frames, src.registry) && i < |es|
    ensures i < |starts| ==>
              place < |src.snapshot| && src.snapshot[place].name != 0 && StartsAs(es[i], src.snapshot[place]) &&
                starts[i] == place
    ensures i >= |starts| ==>
              ClaimOf(frames, place, es[i].source) && ClaimedBy(es[i], frames[place], place, src.registry)
  {
    if i < |starts| {
      place := starts[i];
      assert place in starts;
    } else {
      place := claims[i - |starts|];
      assert place in claims;
      assert ClaimedBy(es[|starts| + (i - |starts|)], frames[place], place, src.registry);
    }
  }

  lemma {:induction false} EntryOfClaim(es: seq<DeviceEntry>, starts: seq<nat>, claims: seq<nat>, src: Source,
                                        frames: seq<RxFrame>, m: nat)
    returns (i: nat)
    requires Listed(es, starts, claims, src.snapshot, frames, src.registry)
    requires m < |frames| && frames[m].header.pgn == 60928 && |frames[m].data| >= 8
    ensures |starts| <= i < |es| && ClaimedBy(es[i], frames[m], m, src.registry)
  {
    assert m in claims;
    var j :| 0 <= j < |claims| && claims[j] == m;
    i := |starts| + j;
  }

  /** From a claim on, and until the next one for the same address, the claimant is the device there. */
  lemma ClaimTakesOver(es: seq<DeviceEntry>, starts: seq<nat>, claims: seq<nat>, src: Source, frames: seq<RxFrame>,
                       i: nat, source: byte, m: nat, frameIdx: int)
    requires Listed(es, starts, claims, src.snapshot, frames, src.registry) && IsBest(es, i, source, frameIdx)
    requires 1 <= m <= frameIdx && ClaimOf(frames, m, source)
    requires forall k :: m < k <= frameIdx ==> !ClaimOf(frames, k, source)
    ensures ClaimedBy(es[i], frames[m], m, src.registry)
  {
    var j := EntryOfClaim(es, starts, claims, src, frames, m);
    assert Candidate(es, j, source, frameIdx);
    var place := EntryIs(es, starts, claims, src, frames, i);
  }

  /** Until then, it is the first device the snapshot has at the address; a claim that is the first
      frame of the block does not take it over. */
  lemma SnapshotStays(es: seq<DeviceEntry>, starts: seq<nat>, claims: seq<nat>, src: Source, frames: seq<RxFrame>,
                      i: nat, source: byte, k: nat, frameIdx: int)
    requires Listed(es, starts, claims, src.snapshot, frames, src.registry) && IsBest(es, i, source, frameIdx)
    requires k < |src.snapshot| && src.snapshot[k].name != 0 && src.snapshot[k].source == source && frameIdx >= 0
    requires forall h :: 0 <= h < k ==> src.snapshot[h].name == 0 || src.snapshot[h].source != source
    requires forall m :: 1 <= m <= frameIdx ==> !ClaimOf(frames, m, source)
    ensures StartsAs(es[i], src.snapshot[k])
  {
    assert k in starts;
    var j :| 0 <= j < |starts| && starts[j] == k;
    assert StartsAs(es[j], src.snapshot[starts[j]]);
    assert Candidate(es, j, source, frameIdx);
    var place := EntryIs(es, starts, claims, src, frames, i);
  }

  /** An address the snapshot does not have belongs to nobody until it is claimed. */
  lemma NobodyBefore(es: seq<DeviceEntry>, starts: seq<nat>, claims: seq<nat>, src: Source, frames: seq<RxFrame>,
                     source: byte, frameIdx: int)
    requires Listed(es, starts, claims, src.snapshot, frames, src.registry)
    requires forall k :: 0 <= k < |src.snapshot| ==> src.snapshot[k].name == 0 || src.snapshot[k].source != source
    ensures (exists i :: Candidate(es, i, source, frameIdx)) <==>
            exists m :: m <= frameIdx && ClaimOf(frames, m, source)
  {
    if i :| Candidate(es, i, source, frameIdx) {
      var place := EntryIs(es, starts, claims, src, frames, i);
    }
    if m :| m <= frameIdx && ClaimOf(frames, m, source) {
      var i := EntryOfClaim(es, starts, claims, src, frames, m);
      assert Candidate(es, i, source, frameIdx);
    }
  }
}
