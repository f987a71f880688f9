/** The journal reader over the blocks of a file: seeking by number, reading frame after frame,
    and prefetching the next block into a second buffer that is swapped with the first. What a
    block's bytes decode to is `JournalBlock`'s business; here the decoder is any function. */
module JournalReading {
  import opened Bytes
  import opened JournalFormat
  import opened JournalBlock

  type Decoder = seq<byte> -> Loaded

  /** A file as loading sees it: the bytes that reading (and decompressing) each block gives,
      which are not a whole block if that fails. */
  datatype Medium = Medium(disk: nat -> seq<byte>, count: nat, blockSize: nat, decode: Decoder, parse: Parser)
  {
    ghost predicate Valid() {
      forall s :: decode(s).Loaded? ==> decode(s).c.block == s && decode(s).c.limit <= |s|
    }

    function Bytes(b: nat): seq<byte> {
      disk(b)
    }

    function Decode(s: seq<byte>): Loaded {
      decode(s)
    }

    predicate Reads(b: nat) {
      |disk(b)| == blockSize
    }

    function Load(b: nat): Loaded {
      if Reads(b) then decode(disk(b)) else Corrupt
    }
  }

  /** The decoder of the journal format is one. */
  function BlockDecoder(crc: Checksum): Decoder {
    s => if |s| < DATA_OFFSET + TRAILER_LEN then Corrupt else LoadBlock(s, crc)
  }

  lemma BlockDecoderValid(disk: nat -> seq<byte>, count: nat, blockSize: nat, crc: Checksum)
    ensures Medium(disk, count, blockSize, BlockDecoder(crc), ParseFrame).Valid()
  {
  }

  /** Everything a reader yields, and whether an error ends it. */
  datatype Outcome = Outcome(frames: seq<Entry>, failed: bool)

  function Prepend(frames: seq<Entry>, o: Outcome): Outcome {
    Outcome(frames + o.frames, o.failed)
  }

  /** A linear read from block `b` on. */
  ghost function AllFrom(m: Medium, b: nat): Outcome
    requires m.Valid()
    decreases m.count - b
  {
    if b >= m.count then Outcome([], false)
    else match m.Load(b)
      case Corrupt => Outcome([], true)
      case Loaded(c) => Prepend(ReadRest(m.parse, c), AllFrom(m, b + 1))
  }

  ghost function From(all: nat -> Outcome, b: nat): Outcome {
    all(b)
  }

  /** `all(b)` is what block `b` contributes, then `all(b + 1)`. */
  ghost predicate StepAt(m: Medium, all: nat -> Outcome, b: nat)
    requires m.Valid()
  {
    From(all, b) == match m.Load(b)
      case Corrupt => Outcome([], true)
      case Loaded(c) => Prepend(ReadRest(m.parse, c), From(all, b + 1))
  }

  /** `all` gives the linear read from every block on. */
  ghost predicate Linear(m: Medium, all: nat -> Outcome) {
    && m.Valid()
    && (forall b | m.count <= b :: From(all, b) == Outcome([], false))
    && (forall b | 0 <= b < m.count :: StepAt(m, all, b))
  }

  lemma {:induction false} LinearUnique(m: Medium, all: nat -> Outcome, b: nat)
    requires Linear(m, all)
    ensures From(all, b) == AllFrom(m, b)
    decreases m.count - b
  {
    if b < m.count {
      LinearUnique(m, all, b + 1);
      assert StepAt(m, all, b);
    }
  }

  ghost function LinearRead(m: Medium): (all: nat -> Outcome)
    requires m.Valid()
    ensures Linear(m, all)
  {
    (b: nat) => AllFrom(m, b)
  }

  class Reader {
    const m: Medium
    const compressed: bool
    const baseSeqs: seq<nat> // base numbers in memory, for compressed files
    const prefetching: bool
    const prefetchable: nat -> bool // whether reading ahead gets as far as starting
    ghost const bufs: set<array<byte>>
    ghost const all: nat -> Outcome // the linear read from each block on

    var blockBuf: array<byte>
    var blockData: array?<byte> // the buffer frames are read from
    var currentBlock: int
    var pos: Cursor // the position in it; its copy of the bytes is not used
    var pfBlock: int
    var pfBuf: array<byte>
    var pfDone: bool // a prefetch is under way or ready
    var pfErr: bool
    ghost var rest: seq<Entry> // what the loaded block still yields
    ghost var later: Outcome // what the blocks behind it yield

    /** The buffers are two; a ready prefetch holds its block; and while frames are left to read,
        they are read from the buffer that no prefetch writes to. */
    ghost predicate Buffers()
      reads this, bufs
    {
      && m.Valid() && bufs == {blockBuf, pfBuf} && blockBuf != pfBuf
      && blockBuf.Length == pfBuf.Length == m.blockSize
      && -1 <= currentBlock
      && (blockData != null ==>
          blockData in bufs && pos.limit <= m.blockSize && (pos.idx < pos.count ==> blockData == blockBuf))
      && (pfDone ==> prefetching && pfBlock == currentBlock + 1)
      && (pfDone && !pfErr ==> m.Reads(pfBlock) && pfBuf[..] == m.Bytes(pfBlock))
    }

    ghost predicate Valid()
      reads this, bufs
    {
      Buffers() && rest == Left() && Linear(m, all) && later == From(all, currentBlock + 1)
    }

    ghost function Left(): seq<Entry>
      reads this, bufs
      requires Buffers()
    {
      if blockData != null then ReadRest(m.parse, View()) else []
    }

    ghost function View(): (c: Cursor)
      reads this, bufs
      requires Buffers() && blockData != null
      ensures c.limit <= |c.block|
    {
      pos.(block := blockData[..])
    }

    /** What is still to come. */
    ghost function Pending(): Outcome
      reads this
    {
      Prepend(rest, later)
    }

    constructor (m: Medium, compressed: bool, baseSeqs: seq<nat>, prefetching: bool, prefetchable: nat -> bool)
      requires m.Valid()
      ensures Valid() && fresh(bufs) && this.m == m && this.compressed == compressed && this.baseSeqs == baseSeqs
      ensures Pending() == From(all, 0)
    {
      this.m, this.compressed, this.baseSeqs := m, compressed, baseSeqs;
      this.prefetching, this.prefetchable := prefetching, prefetchable;
      var buf := new byte[m.blockSize](_ => 0);
      var spare := new byte[m.blockSize](_ => 0);
      blockBuf, pfBuf, bufs := buf, spare, {buf, spare};
      blockData, currentBlock, pos := null, -1, Cursor([], 0, 0, 0, 0, 0, 0, 0);
      pfBlock, pfDone, pfErr := -1, false, false;
      all := LinearRead(m);
      rest, later := [], From(LinearRead(m), 0);
    }

    /** Puts what the file gives for block `n` into `buf`, which a failure leaves half written. */
    method Fetch(buf: array<byte>, n: nat) returns (ok: bool)
      requires buf.Length == m.blockSize
      modifies buf
      ensures ok == m.Reads(n)
      ensures ok ==> buf[..] == m.Bytes(n)
    {
      var bytes := m.Bytes(n);
      var k := 0;
      while k < |bytes| && k < buf.Length
        invariant 0 <= k <= |bytes| && k <= buf.Length
        invariant forall j :: 0 <= j < k ==> buf[j] == bytes[j]
      {
        buf[k] := bytes[k];
        k := k + 1;
      }
      return |bytes| == m.blockSize;
    }

    method ParseLoadedBlock(n: nat) returns (ok: bool)
      requires Buffers() && !pfDone && m.Reads(n) && blockBuf[..] == m.Bytes(n)
      modifies this`blockData, this`currentBlock, this`pos
      ensures Buffers() && ok == m.Load(n).Loaded?
      ensures ok ==> blockData == blockBuf && currentBlock == n && m.Load(n) == Loaded(View())
      ensures !ok ==> blockData == old(blockData) && currentBlock == old(currentBlock)
    {
      match m.Decode(blockBuf[..])
      case Corrupt => ok := false;
      case Loaded(c) => currentBlock, blockData, pos, ok := n, blockBuf, c, true;
    }

    method CancelPrefetch()
      requires Buffers()
      modifies this`pfBlock, this`pfDone
      ensures Buffers() && !pfDone
    {
      if !prefetching || !pfDone {
        return;
      }
      pfBlock, pfDone := -1, false;
    }

    /** Reads block `n` ahead, into the buffer nobody reads from. */
    method StartPrefetch(n: nat)
      requires Buffers() && blockData == blockBuf && !pfDone && n == currentBlock + 1
      modifies this`pfBlock, this`pfDone, this`pfErr, pfBuf
      ensures Buffers() && blockBuf[..] == old(blockBuf[..])
    {
      if !prefetching || n >= m.count {
        return;
      }
      var ok := Fetch(pfBuf, n);
      if prefetchable(n) {
        pfBlock, pfDone, pfErr := n, true, !ok;
      }
    }

    /** Loads block `n`, from the prefetch buffer when it is there. */
    method LoadBlock(n: nat) returns (ok: bool)
      requires Buffers() && n < m.count && (pfDone ==> pfBlock == n && (blockData == null || pos.idx >= pos.count))
      modifies this, bufs
      ensures Buffers() && ok == m.Load(n).Loaded?
      ensures ok ==> blockData != null && currentBlock == n && m.Load(n) == Loaded(View())
    {
      if pfDone {
        pfDone := false;
        if !pfErr {
          blockBuf, pfBuf := pfBuf, blockBuf;
          pfBlock := -1;
          ok := ParseLoadedBlock(n);
          if ok {
            StartPrefetch(n + 1);
          }
          return;
        }
        pfBlock := -1;
      }
      ok := Fetch(blockBuf, n);
      if ok {
        ok := ParseLoadedBlock(n);
      }
      if ok {
        StartPrefetch(n + 1);
      }
    }

    /** The next frame of the loaded block; a broken one ends the block. */
    method ParseNextFrame() returns (ok: bool, e: Entry)
      requires Valid() && blockData != null && pos.idx < pos.count
      modifies this`pos, this`blockData, this`rest
      ensures Valid()
      ensures ok ==> old(rest) == [e] + rest
      ensures !ok ==> old(rest) == rest && blockData == null
    {
      Unrolled(m.parse, View());
      match NextFrame(m.parse, pos.(block := blockData[..]))
      case Yield(found, next) =>
        pos, ok, e := next, true, found;
        rest := rest[1..];
      case Broken =>
        blockData, ok, e := null, false, Entry(0, 0, 0, []);
    }

    /** After loading a block, all that a linear read from it yields is to come. */
    method Enter(n: nat) returns (ok: bool)
      requires Valid() && n < m.count && (pfDone ==> pfBlock == n && (blockData == null || pos.idx >= pos.count))
      modifies this, bufs
      ensures Valid() && ok == m.Load(n).Loaded?
      ensures ok ==> currentBlock == n && Pending() == From(all, n)
      ensures !ok ==> From(all, n) == Outcome([], true)
    {
      ok := LoadBlock(n);
      assert StepAt(m, all, n);
      rest, later := Left(), From(all, currentBlock + 1);
    }

    method NextBlock() returns (loaded: bool, failed: bool)
      requires Valid() && (blockData == null || pos.idx >= pos.count)
      modifies this, bufs
      ensures Valid()
      ensures loaded ==> Pending() == old(Pending()) && currentBlock == old(currentBlock) + 1 <= m.count
      ensures !loaded ==> old(Pending()) == Outcome([], failed)
    {
      var next := currentBlock + 1;
      if next >= m.count {
        return false, false;
      }
      loaded := Enter(next);
      failed := !loaded;
    }

    /** One more frame, from this block or the next that has one. A block that does not load ends
        the reading. */
    method Next() returns (ok: bool, e: Entry, failed: bool)
      requires Valid()
      modifies this, bufs
      ensures Valid()
      ensures ok ==> old(Pending()) == Prepend([e], Pending())
      ensures !ok ==> old(Pending()) == Outcome([], failed)
    {
      ghost var all := Pending();
      while true
        invariant Valid() && Pending() == all
        decreases m.count - currentBlock, if blockData != null then 1 else 0
      {
        if blockData != null && pos.idx < pos.count {
          ok, e := ParseNextFrame();
          if ok {
            Regroup(e, rest, later);
            return ok, e, false;
          }
        } else {
          var loaded;
          loaded, failed := NextBlock();
          if !loaded {
            return false, Entry(0, 0, 0, []), failed;
          }
        }
      }
    }

    /** Reading to the end. */
    method ReadAll() returns (out: Outcome)
      requires Valid()
      modifies this, bufs
      ensures Valid() && out == old(Pending())
    {
      out := Outcome([], false);
      var more := true;
      while more
        invariant Valid() && old(Pending()) == (if more then Prepend(out.frames, Pending()) else out)
        decreases more, |Pending().frames|
      {
        var ok, e, failed := Next();
        if ok {
          Collected(out.frames, e, Pending());
          out := Outcome(out.frames + [e], false);
        } else {
          out := Outcome(out.frames, failed);
          more := false;
        }
      }
    }

    /** The base number the seek compares with. */
    function BaseOf(b: nat): nat
      requires b < m.count
    {
      if compressed then if b < |baseSeqs| then baseSeqs[b] else 0
      else if |m.Bytes(b)| >= 16 then GetLE(m.Bytes(b)[8..16]) else 0
    }

    ghost predicate Sorted()
    {
      forall i, j :: 0 <= i <= j < m.count ==> BaseOf(i) <= BaseOf(j)
    }

    /** The last block that begins at or before `target`, or else the first. */
    ghost predicate IsStart(k: nat, target: nat)
    {
      && k < m.count
      && (k == 0 || BaseOf(k) <= target)
      && forall i :: k < i < m.count ==> BaseOf(i) > target
    }

    /** Where the binary search ends up; it is the block to start from if the numbers are sorted. */
    ghost predicate Lands(k: nat, target: nat)
    {
      k < m.count && (k == 0 || BaseOf(k) <= target) && (Sorted() ==> IsStart(k, target))
    }

    /** The base number of every block can be read, whatever else of it. */
    ghost predicate BasesKnown()
    {
      compressed || forall b :: 0 <= b < m.count ==> |m.Bytes(b)| >= 16
    }

    /** Go's `sort.Search` over the table in memory. */
    method SearchTable(target: nat) returns (k: nat)
      requires compressed && m.count == |baseSeqs| > 0
      ensures Lands(k, target)
    {
      var i, j := 0, m.count;
      while i < j
        invariant 0 <= i <= j <= m.count
        invariant i > 0 ==> BaseOf(i - 1) <= target
        invariant j < m.count ==> BaseOf(j) > target
      {
        var h := (i + j) / 2;
        if baseSeqs[h] > target {
          j := h;
        } else {
          i := h + 1;
        }
      }
      k := if i > 0 then i - 1 else 0;
      if Sorted() {
        Above(i, target);
      }
    }

    lemma Above(j: nat, target: nat)
      requires Sorted() && j <= m.count && (j < m.count ==> BaseOf(j) > target)
      ensures forall i :: j <= i < m.count ==> BaseOf(i) > target
    {
      forall i | j <= i < m.count ensures BaseOf(i) > target {
        assert BaseOf(j) <= BaseOf(i);
      }
    }

    /** Binary search that reads base numbers from the file. */
    method SearchDisk(target: nat) returns (ok: bool, k: nat)
      requires !compressed && m.count > 0
      ensures ok ==> Lands(k, target)
      ensures !ok ==> !BasesKnown()
    {
      var lo, hi: int := 0, m.count - 1;
      k := 0;
      while lo <= hi
        invariant 0 <= lo <= hi + 1 <= m.count
        invariant k == if lo > 0 then lo - 1 else 0
        invariant lo > 0 ==> BaseOf(lo - 1) <= target
        invariant hi + 1 < m.count ==> BaseOf(hi + 1) > target
      {
        var mid := lo + (hi - lo) / 2;
        if |m.Bytes(mid)| < 16 {
          return false, 0;
        }
        if GetLE(m.Bytes(mid)[8..16]) <= target {
          k := mid;
          lo := mid + 1;
        } else {
          hi := mid - 1;
        }
      }
      if Sorted() {
        Above(lo, target);
      }
      return true, k;
    }

    method Search(target: nat) returns (found: bool, k: nat)
      requires m.count > 0 && (compressed ==> |baseSeqs| == m.count)
      ensures found ==> Lands(k, target)
      ensures !found ==> !BasesKnown()
    {
      if compressed {
        k := SearchTable(target);
        found := true;
      } else {
        found, k := SearchDisk(target);
      }
    }

    /** Positions the reader at the start of the block that can hold `target`. */
    method SeekToSeq(target: nat) returns (ok: bool, ghost k: nat)
      requires Valid() && (compressed ==> |baseSeqs| == m.count)
      modifies this, bufs
      ensures Valid() && (ok ==> Lands(k, target) && Pending() == From(all, k))
      ensures m.count == 0 ==> !ok
      ensures m.count > 0 && BasesKnown() ==> Lands(k, target) && (ok <==> m.Load(k).Loaded?)
    {
      CancelPrefetch();
      k := 0;
      if m.count == 0 {
        return false, 0;
      }
      var found, start := Search(target);
      if !found {
        return false, 0;
      }
      k := start;
      ok := Enter(start);
    }
  }

  lemma Collected(frames: seq<Entry>, e: Entry, o: Outcome)
    ensures Prepend(frames, Prepend([e], o)) == Prepend(frames + [e], o)
  {
    assert frames + ([e] + o.frames) == frames + [e] + o.frames;
  }

  lemma Regroup(e: Entry, rest: seq<Entry>, o: Outcome)
    ensures Prepend([e] + rest, o) == Prepend([e], Prepend(rest, o))
  {
    assert [e] + rest + o.frames == [e] + (rest + o.frames);
  }

  // ---- Seeking loses nothing ----

  /** The frames numbered at or above `target`, in order. */
  function AtLeast(s: seq<Entry>, target: nat): seq<Entry> {
    if s == [] then []
    else AtLeast(s[..|s| - 1], target) + if s[|s| - 1].seqNo >= target then [s[|s| - 1]] else []
  }

  lemma {:induction false} AtLeastConcat(a: seq<Entry>, b: seq<Entry>, target: nat)
    ensures AtLeast(a + b, target) == AtLeast(a, target) + AtLeast(b, target)
    decreases |b|
  {
    if b == [] {
      assert a + b == a;
    } else {
      AtLeastConcat(a, b[..|b| - 1], target);
      LastMoved(a, b);
      Grouped(AtLeast(a, target), AtLeast(b[..|b| - 1], target),
              if b[|b| - 1].seqNo >= target then [b[|b| - 1]] else []);
    }
  }

  lemma LastMoved(a: seq<Entry>, b: seq<Entry>)
    requires b != []
    ensures (a + b)[..|a + b| - 1] == a + b[..|b| - 1] && (a + b)[|a + b| - 1] == b[|b| - 1]
  {
  }

  lemma Grouped(a: seq<Entry>, b: seq<Entry>, c: seq<Entry>)
    ensures a + (b + c) == a + b + c
  {
  }

  lemma Skipped(a: seq<Entry>, o: Outcome, target: nat)
    requires AtLeast(a, target) == []
    ensures AtLeast(Prepend(a, o).frames, target) == AtLeast(o.frames, target)
  {
    AtLeastConcat(a, o.frames, target);
  }

  lemma {:induction false} AtLeastNone(s: seq<Entry>, target: nat)
    requires forall i :: 0 <= i < |s| ==> s[i].seqNo < target
    ensures AtLeast(s, target) == []
  {
    if s != [] {
      AtLeastNone(s[..|s| - 1], target);
    }
  }

  /** A block's frames are numbered from its base, fewer than its count. */
  lemma {:induction false} RestNumbers(parse: Parser, c: Cursor)
    requires c.limit <= |c.block|
    ensures Numbered(ReadRest(parse, c), c.baseSeq + c.idx, c.baseSeq + c.count)
    decreases c.count - c.idx
  {
    if c.idx < c.count {
      Unrolled(parse, c);
      match NextFrame(parse, c)
      case Broken =>
      case Yield(e, next) =>
        RestNumbers(parse, next);
        Shifted(e, ReadRest(parse, next), c.baseSeq + c.idx, c.baseSeq + c.count);
    }
  }

  ghost predicate Numbered(s: seq<Entry>, first: nat, end: nat) {
    forall i :: 0 <= i < |s| ==> s[i].seqNo == first + i && first + i < end
  }

  lemma Shifted(e: Entry, rest: seq<Entry>, first: nat, end: nat)
    requires e.seqNo == first < end && Numbered(rest, first + 1, end)
    ensures Numbered([e] + rest, first, end)
  {
  }

  /** The blocks before `k` load, and each ends before the number at which the next begins. */
  ghost predicate Increasing(m: Medium, base: nat -> nat, k: nat) {
    forall b :: 0 <= b < k ==> Precedes(m, base, b)
  }

  ghost predicate Precedes(m: Medium, base: nat -> nat, b: nat) {
    m.Load(b).Loaded? && m.Load(b).c.baseSeq == base(b) && m.Load(b).c.idx == 0 && Ends(m, b) <= base(b + 1)
  }

  /** The number behind the last one block `b` can hold. */
  ghost function Ends(m: Medium, b: nat): nat {
    match m.Load(b) case Corrupt => 0 case Loaded(c) => c.baseSeq + c.count
  }

  lemma {:induction false} BasesRise(m: Medium, base: nat -> nat, i: nat, j: nat)
    requires Increasing(m, base, j) && i <= j
    ensures base(i) <= base(j)
    decreases j - i
  {
    if i < j {
      BasesRise(m, base, i, j - 1);
      assert Precedes(m, base, j - 1);
    }
  }

  lemma BlockBelow(m: Medium, base: nat -> nat, b: nat, k: nat, target: nat)
    requires m.Valid() && Increasing(m, base, k) && b < k && base(k) <= target
    ensures m.Load(b).Loaded? && AtLeast(ReadRest(m.parse, m.Load(b).c), target) == []
  {
    assert Precedes(m, base, b);
    BasesRise(m, base, b + 1, k);
    RestNumbers(m.parse, m.Load(b).c);
    AtLeastNone(ReadRest(m.parse, m.Load(b).c), target);
  }

  /** What each block contributes to a read, and nothing of it at or above the target before `k`. */
  ghost predicate SkipsTo(all: nat -> Outcome, blocks: nat -> seq<Entry>, k: nat, target: nat) {
    forall j :: 0 <= j < k ==> all(j) == Prepend(blocks(j), all(j + 1)) && AtLeast(blocks(j), target) == []
  }

  lemma {:induction false} SkipAll(all: nat -> Outcome, blocks: nat -> seq<Entry>, j: nat, k: nat, target: nat)
    requires j <= k && SkipsTo(all, blocks, k, target)
    ensures AtLeast(all(j).frames, target) == AtLeast(all(k).frames, target) && all(j).failed == all(k).failed
    decreases k - j
  {
    if j < k {
      SkipAll(all, blocks, j + 1, k, target);
      Skipped(blocks(j), all(j + 1), target);
    }
  }

  /** Reading from the block found by the seek yields the same frames at or above the target as a
      linear read, whatever the blocks from there on are like. */
  lemma SeekLosesNothing(m: Medium, all: nat -> Outcome, base: nat -> nat, k: nat, target: nat)
    requires Linear(m, all) && Increasing(m, base, k) && k < m.count && (k == 0 || base(k) <= target)
    ensures AtLeast(From(all, 0).frames, target) == AtLeast(From(all, k).frames, target)
    ensures From(all, 0).failed == From(all, k).failed
  {
    var blocks := (b: nat) => if m.Load(b).Loaded? then ReadRest(m.parse, m.Load(b).c) else [];
    forall j | 0 <= j < k ensures all(j) == Prepend(blocks(j), all(j + 1)) && AtLeast(blocks(j), target) == [] {
      assert StepAt(m, all, j);
      BlockBelow(m, base, j, k, target);
    }
    SkipAll(all, blocks, 0, k, target);
  }

  /** A reader that seeks, compressed or not and with prefetch on or off, and then reads to the end,
      gets the frames at or above the target that a linear read from block 0 gets. The seek fails only
      if the block found does not load; then a linear read gets no such frame either, and fails too.
      Nothing is asked of the blocks behind the one found. */
  method SeekAndRead(r: Reader, target: nat) returns (ok: bool, out: Outcome)
    requires r.Valid() && r.m.count > 0 && (r.compressed ==> |r.baseSeqs| == r.m.count) && r.BasesKnown() && r.Sorted()
    requires forall k: nat :: r.IsStart(k, target) ==> Increasing(r.m, BaseFn(r), k)
    modifies r, r.bufs
    ensures AtLeast(AllFrom(r.m, 0).frames, target) == if ok then AtLeast(out.frames, target) else []
    ensures AllFrom(r.m, 0).failed == if ok then out.failed else true
  {
    ghost var k;
    ok, k := r.SeekToSeq(target);
    SeekLosesNothing(r.m, r.all, BaseFn(r), k, target);
    LinearUnique(r.m, r.all, 0);
    if ok {
      out := r.ReadAll();
    } else {
      out := Outcome([], true);
      assert StepAt(r.m, r.all, k);
    }
  }

  ghost function BaseFn(r: Reader): nat -> nat {
    (b: nat) => if b < r.m.count then r.BaseOf(b) else 0
  }
}
