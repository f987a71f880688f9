/** NMEA 2000 fast-packet transfer: a payload in up to 32 frames of eight bytes, and its reassembly
    while other transfers and purges interleave. */
module FastPacket {
  import opened Options
  import opened Bytes

  /** A transfer in progress is told apart by PGN and source address. */
  datatype Key = Key(pgn: nat, source: byte)

  datatype State = State(seqId: nat, total: nat, data: seq<byte>, next: nat, startedAt: int)

  type Table = map<Key, State>

  /** What a frame does to the table, and what it completes. */
  datatype Outcome = Outcome(table: Table, out: Option<seq<byte>>)

  function Cut(s: seq<byte>, n: nat): seq<byte> {
    if |s| > n then s[..n] else s
  }

  function First(t: Table, key: Key, data: seq<byte>, now: int): Outcome
    requires |data| >= 2
  {
    var total := data[1];
    var got := Cut(data[2..], total);
    if total == 0 then Outcome(t, None)
    else if |got| >= total then Outcome(t - {key}, Some(got))
    else Outcome(t[key := State(data[0] / 32, total, got, 1, now)], None)
  }

  function Later(t: Table, key: Key, data: seq<byte>, now: int, timeout: int): Outcome
    requires |data| >= 2
  {
    if key !in t then Outcome(t, None)
    else
      var st := t[key];
      if st.seqId != data[0] / 32 || data[0] % 32 != st.next || now - st.startedAt > timeout then
        Outcome(t - {key}, None)
      else
        var got := st.data + Cut(data[1..], if st.total >= |st.data| then st.total - |st.data| else 0);
        if |got| >= st.total then Outcome(t - {key}, Some(got))
        else Outcome(t[key := st.(data := got, next := st.next + 1)], None)
  }

  function Processed(t: Table, key: Key, data: seq<byte>, now: int, timeout: int): Outcome {
    if |data| < 2 then Outcome(t, None)
    else if data[0] % 32 == 0 then First(t, key, data, now)
    else Later(t, key, data, now, timeout)
  }

  function Purged(t: Table, now: int, timeout: int): Table {
    map k | k in t && now - t[k].startedAt <= timeout :: t[k]
  }

  class FastPacketAssembler {
    var inProgress: Table
    const timeout: int

    constructor (timeout: int)
      ensures inProgress == map[] && this.timeout == timeout
    {
      inProgress, this.timeout := map[], timeout;
    }

    method Process(pgn: nat, source: byte, data: seq<byte>, now: int) returns (out: Option<seq<byte>>)
      modifies this
      ensures Outcome(inProgress, out) == Processed(old(inProgress), Key(pgn, source), data, now, timeout)
    {
      if |data| < 2 {
        return None;
      }
      var key, seqId, frameNum := Key(pgn, source), data[0] / 32, data[0] % 32;
      if frameNum == 0 {
        var total := data[1];
        if total == 0 {
          return None;
        }
        var payload := data[2..];
        if |payload| > total {
          payload := payload[..total];
        }
        if |payload| >= total {
          inProgress := inProgress - {key};
          return Some(payload);
        }
        inProgress := inProgress[key := State(seqId, total, payload, 1, now)];
        return None;
      }
      if key !in inProgress {
        return None;
      }
      var st := inProgress[key];
      if st.seqId != seqId || frameNum != st.next {
        inProgress := inProgress - {key};
        return None;
      }
      if now - st.startedAt > timeout {
        inProgress := inProgress - {key};
        return None;
      }
      var payload, remaining := data[1..], if st.total >= |st.data| then st.total - |st.data| else 0;
      if |payload| > remaining {
        payload := payload[..remaining];
      }
      st := st.(data := st.data + payload, next := st.next + 1);
      if |st.data| >= st.total {
        inProgress := inProgress - {key};
        return Some(st.data);
      }
      inProgress := inProgress[key := st];
      return None;
    }

    /** Walks over the transfers in any order and drops the stale ones. */
    method PurgeStale(now: int)
      modifies this
      ensures inProgress == Purged(old(inProgress), now, timeout)
      ensures forall k :: k in inProgress <==> k in old(inProgress) && now - old(inProgress)[k].startedAt <= timeout
      ensures forall k :: k in inProgress ==> inProgress[k] == old(inProgress)[k]
    {
      var todo := inProgress.Keys;
      while todo != {}
        invariant todo <= old(inProgress).Keys && inProgress.Keys <= old(inProgress).Keys
        invariant forall k :: k in inProgress ==> inProgress[k] == old(inProgress)[k]
        invariant forall k :: k in old(inProgress) ==>
                    (k in inProgress <==> k in todo || now - old(inProgress)[k].startedAt <= timeout)
        decreases |todo|
      {
        var key :| key in todo;
        if now - inProgress[key].startedAt > timeout {
          inProgress := inProgress - {key};
        }
        todo := todo - {key};
      }
    }
  }

  // ---- Fragmentation ----

  function Offset(i: nat): nat {
    if i == 0 then 0 else 7 * i - 1
  }

  /** Frames needed for a payload. */
  function FrameCount(len: nat): (n: nat)
    ensures n >= 1 && Offset(n) >= len && (n > 1 ==> Offset(n - 1) < len)
  {
    if len <= 6 then 1 else (len + 7) / 7
  }

  function Chunk(data: seq<byte>, i: nat): (c: seq<byte>)
    ensures |c| <= Offset(i + 1) - Offset(i)
  {
    if Offset(i) >= |data| then [] else Cut(data[Offset(i)..], Offset(i + 1) - Offset(i))
  }

  function Fill(n: nat, b: byte): seq<byte> {
    seq(n, _ => b)
  }

  /** Frame `i`: sequence counter and frame number, the length in the first frame, a chunk. */
  function FrameOf(data: seq<byte>, counter: byte, i: nat): (f: seq<byte>)
    ensures |f| == 8
  {
    var c := Chunk(data, i);
    if i == 0 then [counter % 8 * 32, |data| % 256] + c + Fill(6 - |c|, 0)
    else [counter % 8 * 32 + i % 32] + c + Fill(7 - |c|, 0xFF)
  }

  function Fragments(data: seq<byte>, counter: byte): (fs: seq<seq<byte>>)
    ensures |fs| == FrameCount(|data|)
  {
    seq(FrameCount(|data|), i requires 0 <= i < FrameCount(|data|) => FrameOf(data, counter, i))
  }

  method FragmentFastPacket(data: seq<byte>, counter: byte) returns (frames: seq<seq<byte>>)
    ensures frames == Fragments(data, counter)
  {
    var seqBits := counter % 8 * 32;
    var chunk := Cut(data, 6);
    frames := [[seqBits, |data| % 256] + chunk + Fill(6 - |chunk|, 0)];
    var offset, frameNum: byte := |chunk|, 1;
    FirstFrame(data, counter);
    ghost var all := Fragments(data, counter);
    while offset < |data|
      invariant Prefix(frames, all) && offset == Reached(|data|, |frames|) && frameNum == Wrapped(|frames|)
      decreases |data| - offset
    {
      var copied := Cut(data[offset..], 7);
      NextFrame(data, counter, |frames|, offset, copied, frameNum);
      ghost var was := frames;
      frames := frames + [[seqBits + frameNum % 32] + copied + Fill(7 - |copied|, 0xFF)];
      PrefixSnoc(was, all, frames[|was|]);
      offset := offset + |copied|;
      frameNum := (frameNum + 1) % 256;
    }
    AllFrames(|data|, |frames|);
  }

  ghost predicate Prefix(frames: seq<seq<byte>>, all: seq<seq<byte>>) {
    1 <= |frames| && frames <= all
  }

  lemma PrefixSnoc(frames: seq<seq<byte>>, all: seq<seq<byte>>, f: seq<byte>)
    requires Prefix(frames, all) && |frames| < |all| && all[|frames|] == f
    ensures Prefix(frames + [f], all)
  {
  }

  function Wrapped(i: nat): byte {
    i % 256
  }

  lemma WrappedBits(i: nat)
    ensures Wrapped(i) % 32 == i % 32 && (Wrapped(i) + 1) % 256 == Wrapped(i + 1)
  {
  }

  /** How much of a payload the first `i` frames carry. */
  function Reached(len: nat, i: nat): nat {
    if Offset(i) < len then Offset(i) else len
  }

  lemma AllFrames(len: nat, n: nat)
    requires 1 <= n <= FrameCount(len) && Reached(len, n) == len
    ensures n == FrameCount(len)
  {
    assert Offset(n) >= len;
  }

  lemma FirstFrame(data: seq<byte>, counter: byte)
    ensures var chunk := Cut(data, 6);
            && |chunk| == Reached(|data|, 1)
            && [counter % 8 * 32, |data| % 256] + chunk + Fill(6 - |chunk|, 0) == Fragments(data, counter)[0]
  {
    assert data[0..] == data;
    assert Cut(data, 6) == Chunk(data, 0);
  }

  lemma ChunkAt(data: seq<byte>, i: nat)
    requires 1 <= i && Reached(|data|, i) < |data|
    ensures Cut(data[Reached(|data|, i)..], 7) == Chunk(data, i) && |Chunk(data, i)| <= 7
    ensures Reached(|data|, i) + |Chunk(data, i)| == Reached(|data|, i + 1)
  {
  }

  lemma NextFrame(data: seq<byte>, counter: byte, i: nat, offset: nat, copied: seq<byte>, frameNum: byte)
    requires 1 <= i <= FrameCount(|data|) && offset == Reached(|data|, i) < |data| && copied == Cut(data[offset..], 7)
    requires frameNum == Wrapped(i)
    ensures |copied| <= 7 && offset + |copied| == Reached(|data|, i + 1) && i < FrameCount(|data|)
    ensures [counter % 8 * 32 + frameNum % 32] + copied + Fill(7 - |copied|, 0xFF) == Fragments(data, counter)[i]
    ensures (frameNum + 1) % 256 == Wrapped(i + 1)
  {
    ChunkAt(data, i);
    WrappedBits(i);
  }

  // ---- One transfer ----

  /** The state after the first `k` frames of a transfer. */
  function Partial(p: seq<byte>, c: byte, k: nat, start: int): State {
    State(c % 8, |p|, p[..Reached(|p|, k)], k, start)
  }

  lemma Grows(p: seq<byte>, k: nat)
    ensures p[..Reached(|p|, k)] + Chunk(p, k) == p[..Reached(|p|, k + 1)]
    ensures Cut(Chunk(p, k), |p| - Reached(|p|, k)) == Chunk(p, k)
  {
  }

  /** A frame's fields as the assembler reads them. */
  lemma FirstFields(p: seq<byte>, c: byte)
    requires |p| <= 255
    ensures var f := FrameOf(p, c, 0);
            f[0] / 32 == c % 8 && f[0] % 32 == 0 && f[1] == |p| && Cut(f[2..], |p|) == Chunk(p, 0)
  {
    var f, chunk := FrameOf(p, c, 0), Chunk(p, 0);
    assert f[2..] == chunk + Fill(6 - |chunk|, 0);
    assert Cut(f[2..], |p|) == chunk;
  }

  lemma LaterFields(p: seq<byte>, c: byte, k: nat)
    requires 1 <= k <= 31 && Reached(|p|, k) < |p|
    ensures var f := FrameOf(p, c, k);
            f[0] / 32 == c % 8 && f[0] % 32 == k && Cut(f[1..], |p| - Reached(|p|, k)) == Chunk(p, k)
  {
    var f, chunk := FrameOf(p, c, k), Chunk(p, k);
    assert f[1..] == chunk + Fill(7 - |chunk|, 0xFF);
    ChunkAt(p, k);
    assert Cut(f[1..], |p| - Reached(|p|, k)) == chunk;
  }

  /** Feeding the first frame, whatever was in progress. */
  lemma FeedFirst(t: Table, key: Key, p: seq<byte>, c: byte, now: int, timeout: int)
    requires 1 <= |p| <= 255
    ensures Processed(t, key, FrameOf(p, c, 0), now, timeout) ==
            if FrameCount(|p|) == 1 then Outcome(t - {key}, Some(p)) else Outcome(t[key := Partial(p, c, 1, now)], None)
  {
    FirstFields(p, c);
    Grows(p, 0);
    assert p[..0] + Chunk(p, 0) == Chunk(p, 0);
    assert FrameCount(|p|) == 1 ==> p[..Reached(|p|, 1)] == p;
  }

  /** Feeding a later one in time. */
  lemma FeedLater(t: Table, key: Key, p: seq<byte>, c: byte, k: nat, start: int, now: int, timeout: int)
    requires 1 <= k <= 31 && k < FrameCount(|p|) && key in t && t[key] == Partial(p, c, k, start)
    requires now - start <= timeout
    ensures Processed(t, key, FrameOf(p, c, k), now, timeout) ==
            if FrameCount(|p|) == k + 1 then Outcome(t - {key}, Some(p))
            else Outcome(t[key := Partial(p, c, k + 1, start)], None)
  {
    LaterFields(p, c, k);
    Grows(p, k);
    assert FrameCount(|p|) == k + 1 ==> p[..Reached(|p|, k + 1)] == p;
  }

  // ---- Among everything else on the bus ----

  datatype Event = Frame(key: Key, data: seq<byte>, now: int) | Purge(now: int)

  function Apply(t: Table, e: Event, timeout: int): Outcome {
    match e
    case Frame(key, data, now) => Processed(t, key, data, now, timeout)
    case Purge(now) => Outcome(Purged(t, now, timeout), None)
  }

  function Run(t: Table, es: seq<Event>, timeout: int): Table {
    if es == [] then t else Apply(Run(t, es[..|es| - 1], timeout), es[|es| - 1], timeout).table
  }

  predicate Mine(e: Event, key: Key) {
    e.Frame? && e.key == key
  }

  /** The frames of one key, in order. */
  function Own(es: seq<Event>, key: Key): seq<seq<byte>> {
    if es == [] then []
    else Own(es[..|es| - 1], key) + if Mine(es[|es| - 1], key) then [es[|es| - 1].data] else []
  }

  /** What they completed. */
  function OwnOuts(t: Table, es: seq<Event>, key: Key, timeout: int): seq<Option<seq<byte>>> {
    if es == [] then []
    else
      var front := es[..|es| - 1];
      OwnOuts(t, front, key, timeout) +
      if Mine(es[|es| - 1], key) then [Apply(Run(t, front, timeout), es[|es| - 1], timeout).out] else []
  }

  /** Once the transfer has begun at `start` and until it is complete, its frames and all purges come in time. */
  ghost predicate Timely(es: seq<Event>, key: Key, n: nat, start: int, timeout: int) {
    es == [] ||
    (var front, e, k := es[..|es| - 1], es[|es| - 1], |Own(es[..|es| - 1], key)|;
     && Timely(front, key, n, start, timeout)
     && (Mine(e, key) && k == 0 ==> e.now == start)
     && ((Mine(e, key) || e.Purge?) && 0 < k < n ==> e.now - start <= timeout))
  }

  /** Nothing until the last frame, then the payload. */
  function Expected(p: seq<byte>, k: nat): seq<Option<seq<byte>>> {
    seq(k, i => if i + 1 == FrameCount(|p|) then Some(p) else None)
  }

  /** Frames of other keys do not touch a transfer, and a purge in time does not either. */
  lemma Undisturbed(t: Table, e: Event, key: Key, timeout: int)
    requires !Mine(e, key) && key in t && (e.Purge? ==> e.now - t[key].startedAt <= timeout)
    ensures key in Apply(t, e, timeout).table && Apply(t, e, timeout).table[key] == t[key]
  {
  }

  lemma {:induction false} Progress(t: Table, es: seq<Event>, key: Key, p: seq<byte>, c: byte, start: int, timeout: int)
    requires 1 <= |p| <= 223 && Own(es, key) <= Fragments(p, c) && Timely(es, key, FrameCount(|p|), start, timeout)
    ensures OwnOuts(t, es, key, timeout) == Expected(p, |Own(es, key)|)
    ensures 0 < |Own(es, key)| < FrameCount(|p|) ==>
              key in Run(t, es, timeout) && Run(t, es, timeout)[key] == Partial(p, c, |Own(es, key)|, start)
    decreases |es|
  {
    if es != [] {
      var front, e := es[..|es| - 1], es[|es| - 1];
      var k, before := |Own(front, key)|, Run(t, front, timeout);
      assert Own(front, key) <= Own(es, key);
      assert Own(front, key) <= Fragments(p, c);
      Progress(t, front, key, p, c, start, timeout);
      if Mine(e, key) {
        assert e.data == Own(es, key)[k] == Fragments(p, c)[k] == FrameOf(p, c, k);
        if k == 0 {
          FeedFirst(before, key, p, c, e.now, timeout);
        } else {
          FeedLater(before, key, p, c, k, start, e.now, timeout);
        }
        assert Expected(p, k + 1) == Expected(p, k) + [if k + 1 == FrameCount(|p|) then Some(p) else None];
      } else if 0 < k < FrameCount(|p|) {
        Undisturbed(before, e, key, timeout);
      }
    }
  }

  /** Every payload of 1 to 223 bytes, sent in order and in time among arbitrary other frames and
      purges, from any assembler state, is returned exactly once, unchanged, on its last frame. */
  lemma Delivered(t: Table, es: seq<Event>, key: Key, p: seq<byte>, c: byte, start: int, timeout: int)
    requires 1 <= |p| <= 223 && Own(es, key) == Fragments(p, c) && Timely(es, key, FrameCount(|p|), start, timeout)
    ensures OwnOuts(t, es, key, timeout) == seq(FrameCount(|p|) - 1, _ => None) + [Some(p)]
  {
    Progress(t, es, key, p, c, start, timeout);
  }

  // ---- Nothing but whole transfers ----

  datatype Arrival = Arrival(data: seq<byte>, now: int)

  /** Too short frames and first frames announcing nothing are passed over. */
  predicate Counts(data: seq<byte>) {
    |data| >= 2 && (data[0] % 32 == 0 ==> data[1] > 0)
  }

  /** The other frames of one key, in order. */
  function Arrivals(es: seq<Event>, key: Key): seq<Arrival> {
    if es == [] then []
    else
      var e := es[|es| - 1];
      Arrivals(es[..|es| - 1], key) + if Mine(e, key) && Counts(e.data) then [Arrival(e.data, e.now)] else []
  }

  /** The frames have one counter and are numbered from 0; the later ones come in time. */
  ghost predicate OneTransfer(fs: seq<Arrival>, timeout: int) {
    && fs != [] && |fs[0].data| >= 2 && fs[0].data[0] % 32 == 0
    && forall i :: 0 <= i < |fs| ==> Belongs(fs[i], i, fs[0].data[0] / 32, fs[0].now, timeout)
  }

  predicate Belongs(f: Arrival, i: int, counter: nat, start: int, timeout: int) {
    |f.data| >= 2 && f.data[0] % 32 == i && f.data[0] / 32 == counter && (i > 0 ==> f.now - start <= timeout)
  }

  /** Their payload bytes, one frame's behind the other's. */
  function Body(fs: seq<Arrival>): seq<byte> {
    if fs == [] then []
    else
      var d := fs[|fs| - 1].data;
      Body(fs[..|fs| - 1]) + if |d| < 2 then [] else if |fs| == 1 then d[2..] else d[1..]
  }

  ghost predicate Gathered(st: State, fs: seq<Arrival>, timeout: int) {
    && OneTransfer(fs, timeout) && |Body(fs)| < fs[0].data[1]
    && st == State(fs[0].data[0] / 32, fs[0].data[1], Body(fs), |fs|, fs[0].now)
  }

  /** The transfer in progress consists of the frames that arrived last. */
  ghost predicate InProgress(t: Table, key: Key, fs: seq<Arrival>, timeout: int) {
    key in t ==> t[key].next <= |fs| && Gathered(t[key], fs[|fs| - t[key].next..], timeout)
  }

  lemma BodyOne(f: Arrival)
    requires |f.data| >= 2
    ensures Body([f]) == f.data[2..]
  {
    assert [f][..0] == [];
  }

  lemma BodySnoc(fs: seq<Arrival>, f: Arrival)
    requires fs != [] && |f.data| >= 2
    ensures Body(fs + [f]) == Body(fs) + f.data[1..]
  {
    assert (fs + [f])[..|fs|] == fs;
  }

  lemma TransferSnoc(fs: seq<Arrival>, f: Arrival, timeout: int)
    requires OneTransfer(fs, timeout) && Belongs(f, |fs|, fs[0].data[0] / 32, fs[0].now, timeout)
    ensures OneTransfer(fs + [f], timeout)
  {
    forall i | 0 <= i < |fs + [f]| ensures Belongs((fs + [f])[i], i, fs[0].data[0] / 32, fs[0].now, timeout) {
      assert i < |fs| ==> Belongs(fs[i], i, fs[0].data[0] / 32, fs[0].now, timeout);
    }
  }

  /** `p` is the payload that these frames announce and carry. */
  ghost predicate Carries(fs: seq<Arrival>, p: seq<byte>, timeout: int) {
    OneTransfer(fs, timeout) && fs[0].data[1] <= |Body(fs)| && p == Body(fs)[..fs[0].data[1]]
  }

  lemma FirstGathers(t: Table, key: Key, fs: seq<Arrival>, f: Arrival, timeout: int)
    requires Counts(f.data) && f.data[0] % 32 == 0
    ensures var o := First(t, key, f.data, f.now);
            && InProgress(o.table, key, fs + [f], timeout)
            && (o.out.Some? ==> Carries([f], o.out.value, timeout))
  {
    BodyOne(f);
    assert (fs + [f])[|fs|..] == [f];
    assert OneTransfer([f], timeout);
  }

  /** The frame a transfer has been waiting for. */
  lemma NextGathers(st: State, mine: seq<Arrival>, f: Arrival, timeout: int)
    requires Gathered(st, mine, timeout) && Belongs(f, st.next, st.seqId, st.startedAt, timeout)
    ensures var got := st.data + Cut(f.data[1..], st.total - |st.data|);
            if |got| >= st.total then Carries(mine + [f], got, timeout)
            else Gathered(st.(data := got, next := st.next + 1), mine + [f], timeout)
  {
    BodySnoc(mine, f);
    TransferSnoc(mine, f, timeout);
    CutBehind(Body(mine), f.data[1..], st.total);
  }

  lemma LaterGathers(t: Table, key: Key, fs: seq<Arrival>, f: Arrival, timeout: int)
    requires Counts(f.data) && f.data[0] % 32 != 0 && InProgress(t, key, fs, timeout)
    ensures var o := Later(t, key, f.data, f.now, timeout);
            && InProgress(o.table, key, fs + [f], timeout)
            && (o.out.Some? ==>
                key in t && t[key].next <= |fs| && Carries(fs[|fs| - t[key].next..] + [f], o.out.value, timeout))
  {
    if key in t && Belongs(f, t[key].next, t[key].seqId, t[key].startedAt, timeout) {
      var mine := fs[|fs| - t[key].next..];
      assert (fs + [f])[|fs| - t[key].next..] == mine + [f];
      NextGathers(t[key], mine, f, timeout);
    }
  }

  lemma CutBehind(a: seq<byte>, b: seq<byte>, n: nat)
    requires |a| < n
    ensures a + Cut(b, n - |a|) == Cut(a + b, n)
  {
  }

  lemma OthersGather(t: Table, e: Event, key: Key, fs: seq<Arrival>, timeout: int)
    requires InProgress(t, key, fs, timeout) && !(Mine(e, key) && Counts(e.data))
    ensures InProgress(Apply(t, e, timeout).table, key, fs, timeout)
    ensures Mine(e, key) ==> Apply(t, e, timeout).out == None
  {
  }

  lemma {:induction false} AlwaysGathered(es: seq<Event>, key: Key, timeout: int)
    ensures InProgress(Run(map[], es, timeout), key, Arrivals(es, key), timeout)
  {
    if es != [] {
      var front, e := es[..|es| - 1], es[|es| - 1];
      AlwaysGathered(front, key, timeout);
      var t, fs := Run(map[], front, timeout), Arrivals(front, key);
      if !(Mine(e, key) && Counts(e.data)) {
        OthersGather(t, e, key, fs, timeout);
        assert fs + [] == fs;
      } else if e.data[0] % 32 == 0 {
        FirstGathers(t, key, fs, Arrival(e.data, e.now), timeout);
      } else {
        LaterGathers(t, key, fs, Arrival(e.data, e.now), timeout);
      }
    }
  }

  /** Whatever happens on the bus, a payload that is returned is what some frames of its key announce and
      carry that arrived one after the other, all with the same counter, numbered from 0 and in time: parts
      of different transfers are never spliced. */
  lemma {:induction false} OnlyTransfers(es: seq<Event>, e: Event, key: Key, timeout: int) returns (n: nat)
    requires Mine(e, key) && Apply(Run(map[], es, timeout), e, timeout).out.Some?
    ensures var fs := Arrivals(es + [e], key);
            && n <= |fs|
            && Carries(fs[|fs| - n..], Apply(Run(map[], es, timeout), e, timeout).out.value, timeout)
  {
    AlwaysGathered(es, key, timeout);
    var t, fs, f := Run(map[], es, timeout), Arrivals(es, key), Arrival(e.data, e.now);
    assert (es + [e])[..|es|] == es;
    if !Counts(e.data) {
      OthersGather(t, e, key, fs, timeout);
    }
    if e.data[0] % 32 == 0 {
      FirstGathers(t, key, fs, f, timeout);
      n := 1;
      assert (fs + [f])[|fs|..] == [f];
    } else {
      LaterGathers(t, key, fs, f, timeout);
      n := t[key].next + 1;
      assert (fs + [f])[|fs| + 1 - n..] == fs[|fs| - t[key].next..] + [f];
    }
  }

  // ---- Longer payloads ----

  type Step = (Table, seq<byte>) -> Outcome

  /** Feeding the first `j` frames of a transfer at once. */
  function Fed(step: Step, t: Table, p: seq<byte>, c: byte, j: nat): Outcome {
    if j == 0 then Outcome(t, None) else step(Fed(step, t, p, c, j - 1).table, FrameOf(p, c, j - 1))
  }

  function Assembler(key: Key, now: int, timeout: int): Step {
    (t: Table, f: seq<byte>) => Processed(t, key, f, now, timeout)
  }

  ghost predicate StepIs(step: Step, t: Table, f: seq<byte>, key: Key, now: int, timeout: int) {
    step(t, f) == Processed(t, key, f, now, timeout)
  }

  /** `step` is the assembler's step for this key. */
  ghost predicate Assembles(step: Step, key: Key, now: int, timeout: int) {
    forall t, f {:trigger StepIs(step, t, f, key, now, timeout)} :: StepIs(step, t, f, key, now, timeout)
  }

  lemma AssemblerAssembles(key: Key, now: int, timeout: int)
    ensures Assembles(Assembler(key, now, timeout), key, now, timeout)
  {
  }

  /** What holds of every table an assembler builds up: the length comes from one byte. */
  ghost predicate Bounded(t: Table) {
    forall k :: k in t ==> t[k].total <= 255 && |t[k].data| <= t[k].total
  }

  lemma StepBounded(step: Step, t: Table, key: Key, f: seq<byte>, now: int, timeout: int) returns (r: Outcome)
    requires Bounded(t) && Assembles(step, key, now, timeout)
    ensures r == step(t, f) && Bounded(r.table) && (r.out.Some? ==> |r.out.value| <= 255)
  {
    r := step(t, f);
    assert StepIs(step, t, f, key, now, timeout);
  }

  lemma {:induction false} BoundedFed(step: Step, t: Table, key: Key, p: seq<byte>, c: byte, now: int, timeout: int,
                                      j: nat)
    returns (r: Outcome)
    requires Bounded(t) && Assembles(step, key, now, timeout)
    ensures r == Fed(step, t, p, c, j) && Bounded(r.table) && (r.out.Some? ==> |r.out.value| <= 255)
  {
    if j == 0 {
      r := Outcome(t, None);
    } else {
      r := BoundedFed(step, t, key, p, c, now, timeout, j - 1);
      r := StepBounded(step, r.table, key, FrameOf(p, c, j - 1), now, timeout);
    }
  }

  lemma {:induction false} FedPartial(step: Step, t: Table, key: Key, p: seq<byte>, c: byte, now: int, timeout: int,
                                      j: nat)
    returns (r: Outcome)
    requires 1 <= |p| <= 255 && timeout >= 0 && 1 <= j <= 32 && j <= FrameCount(|p|)
    requires Assembles(step, key, now, timeout)
    ensures r == Fed(step, t, p, c, j) && HasPartial(r, key, p, c, j, now)
  {
    r := Fed(step, t, p, c, j);
    if j == 1 {
      StepFirst(step, t, key, p, c, now, timeout);
    } else {
      var prev := FedPartial(step, t, key, p, c, now, timeout, j - 1);
      StepLater(step, prev.table, key, p, c, j - 1, now, timeout);
    }
  }

  ghost predicate HasPartial(r: Outcome, key: Key, p: seq<byte>, c: byte, k: nat, now: int) {
    if k == FrameCount(|p|) then r.out == Some(p) else key in r.table && r.table[key] == Partial(p, c, k, now)
  }

  lemma StepFirst(step: Step, t: Table, key: Key, p: seq<byte>, c: byte, now: int, timeout: int)
    requires 1 <= |p| <= 255 && Assembles(step, key, now, timeout)
    ensures HasPartial(step(t, FrameOf(p, c, 0)), key, p, c, 1, now)
  {
    assert StepIs(step, t, FrameOf(p, c, 0), key, now, timeout);
    FeedFirst(t, key, p, c, now, timeout);
  }

  lemma StepLater(step: Step, t: Table, key: Key, p: seq<byte>, c: byte, k: nat, now: int, timeout: int)
    requires 1 <= k <= 31 && k < FrameCount(|p|) && key in t && t[key] == Partial(p, c, k, now) && timeout >= 0
    requires Assembles(step, key, now, timeout)
    ensures HasPartial(step(t, FrameOf(p, c, k)), key, p, c, k + 1, now)
  {
    assert StepIs(step, t, FrameOf(p, c, k), key, now, timeout);
    FeedLater(t, key, p, c, k, now, now, timeout);
  }

  /** At most `d` bytes are there, or a transfer that waits for a frame number that never comes. */
  ghost predicate Short(r: Outcome, key: Key, d: nat) {
    && (key in r.table ==> r.table[key].next == 32 || |r.table[key].data| <= d)
    && (r.out.Some? ==> |r.out.value| <= d)
  }

  /** A first frame starts over with at most six bytes, or, if it announces none, leaves things as they are. */
  lemma StepRestart(step: Step, t: Table, key: Key, f: seq<byte>, now: int, timeout: int)
    requires Assembles(step, key, now, timeout) && |f| == 8 && f[0] % 32 == 0 && (key in t ==> t[key].next == 32)
    ensures Short(step(t, f), key, 7)
  {
    assert StepIs(step, t, f, key, now, timeout);
  }

  /** A later frame adds at most seven. */
  lemma StepAdds(step: Step, t: Table, key: Key, f: seq<byte>, now: int, timeout: int, d: nat)
    requires Assembles(step, key, now, timeout) && |f| == 8 && 1 <= f[0] % 32
    requires key in t ==> t[key].next == 32 || |t[key].data| <= d
    ensures Short(step(t, f), key, d + 7)
  {
    assert StepIs(step, t, f, key, now, timeout);
  }

  lemma WrapStart(step: Step, t: Table, key: Key, p: seq<byte>, c: byte, now: int, timeout: int, j: nat)
    returns (r: Outcome)
    requires 224 <= |p| <= 255 && timeout >= 0 && j == 33 && Assembles(step, key, now, timeout)
    ensures r == Fed(step, t, p, c, j) && Short(r, key, 7)
  {
    r := Fed(step, t, p, c, j);
    WrappedField(p, c, j - 1);
    var prev := FedPartial(step, t, key, p, c, now, timeout, j - 1);
    StepRestart(step, prev.table, key, FrameOf(p, c, j - 1), now, timeout);
  }

  /** After the frame number has wrapped, too little is left to come. */
  lemma {:induction false} FedWrapped(step: Step, t: Table, key: Key, p: seq<byte>, c: byte, now: int, timeout: int,
                                      j: nat)
    returns (r: Outcome)
    requires 224 <= |p| <= 255 && timeout >= 0 && 33 <= j <= FrameCount(|p|) && Assembles(step, key, now, timeout)
    ensures r == Fed(step, t, p, c, j) && Short(r, key, 7 * (j - 32))
  {
    if j == 33 {
      r := WrapStart(step, t, key, p, c, now, timeout, j);
    } else {
      r := Fed(step, t, p, c, j);
      WrappedField(p, c, j - 1);
      var prev := FedWrapped(step, t, key, p, c, now, timeout, j - 1);
      StepAdds(step, prev.table, key, FrameOf(p, c, j - 1), now, timeout, 7 * (j - 33));
    }
  }

  lemma WrappedField(p: seq<byte>, c: byte, i: nat)
    requires 32 <= i < 64
    ensures FrameOf(p, c, i)[0] % 32 == i - 32
  {
  }

  /** From any table, the last frame returns the payload if and only if it has 1 to 223 bytes: a
      longer one makes the frame number or the length byte wrap, an empty one is never reported. */
  lemma LengthIff(t: Table, key: Key, p: seq<byte>, c: byte, now: int, timeout: int)
    requires Bounded(t) && timeout >= 0
    ensures Fed(Assembler(key, now, timeout), t, p, c, FrameCount(|p|)).out == Some(p) <==> 1 <= |p| <= 223
  {
    AssemblerAssembles(key, now, timeout);
    LengthDecides(Assembler(key, now, timeout), t, key, p, c, now, timeout);
  }

  lemma LengthDecides(step: Step, t: Table, key: Key, p: seq<byte>, c: byte, now: int, timeout: int)
    requires Bounded(t) && timeout >= 0 && Assembles(step, key, now, timeout)
    ensures Fed(step, t, p, c, FrameCount(|p|)).out == Some(p) <==> 1 <= |p| <= 223
  {
    var n := FrameCount(|p|);
    if 1 <= |p| <= 223 {
      var r := FedPartial(step, t, key, p, c, now, timeout, n);
    } else if |p| == 0 {
      FirstFields(p, c);
      assert StepIs(step, Fed(step, t, p, c, 0).table, FrameOf(p, c, 0), key, now, timeout);
    } else if |p| <= 255 {
      var r := FedWrapped(step, t, key, p, c, now, timeout, n);
    } else {
      var r := BoundedFed(step, t, key, p, c, now, timeout, n);
    }
  }
}
