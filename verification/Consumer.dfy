/** The pull consumer of the tiered log: journal first, then ring, then waiting, while the
    broker keeps appending. */
module PullConsumer {
  import Bytes
  import opened Options
  import opened CanId
  import opened Ring

  // ---- Filters ----

  /** A pre-resolved filter; `None` means "any". */
  datatype ResolvedFilter = ResolvedFilter(
    buses: Option<set<string>>, pgns: Option<set<nat>>, excludePgns: Option<set<nat>>,
    sources: Option<set<nat>>, excludeSources: Option<set<nat>>)

  predicate Matches(filter: Option<ResolvedFilter>, bus: string, header: CANHeader) {
    filter.None? ||
    (var f := filter.value;
     && (f.buses.Some? ==> bus in f.buses.value)
     && (f.pgns.Some? ==> header.pgn in f.pgns.value)
     && (f.excludePgns.Some? ==> header.pgn !in f.excludePgns.value)
     && (f.excludeSources.Some? ==> header.source !in f.excludeSources.value)
     && (f.sources.Some? ==> header.source in f.sources.value))
  }

  /** A criterion of the filter is against the frame: its bus, PGN or source is not among those wanted, or
      its PGN or source is among those excluded. */
  ghost predicate Against(f: ResolvedFilter, bus: string, header: CANHeader) {
    || (f.buses.Some? && bus !in f.buses.value)
    || (f.pgns.Some? && header.pgn !in f.pgns.value)
    || (f.sources.Some? && header.source !in f.sources.value)
    || (f.excludePgns.Some? && header.pgn in f.excludePgns.value)
    || (f.excludeSources.Some? && header.source in f.excludeSources.value)
  }

  /** A frame passes unless there is a filter with a criterion against it. */
  lemma MatchesIff(filter: Option<ResolvedFilter>, bus: string, header: CANHeader)
    ensures Matches(filter, bus, header) <==> !(filter.Some? && Against(filter.value, bus, header))
  {
  }

  predicate NamesNoBus(filter: Option<ResolvedFilter>) {
    filter.Some? ==> filter.value.buses.None?
  }

  /** The filter decides alike whether or not it sees the bus a frame came from. */
  ghost predicate BusIsNoMatter(filter: Option<ResolvedFilter>) {
    forall bus, header :: Matches(filter, "", header) == Matches(filter, bus, header)
  }

  ghost predicate RejectsAll(filter: Option<ResolvedFilter>) {
    forall bus, header :: !Matches(filter, bus, header)
  }

  /** Journal frames carry no bus name. That makes no difference to a filter if and only if it names
      no bus, or lets nothing through anyway. */
  lemma BusIsNoMatterIff(filter: Option<ResolvedFilter>)
    ensures BusIsNoMatter(filter) <==> NamesNoBus(filter) || RejectsAll(filter)
  {
    if BusIsNoMatter(filter) && !NamesNoBus(filter) {
      var elsewhere := NewBus(filter.value.buses.value);
      forall bus, header ensures !Matches(filter, bus, header) {
        assert Matches(filter, "", header) == Matches(filter, elsewhere, header) == Matches(filter, bus, header);
      }
    }
  }

  /** A name outside a set of names: one longer than all of them. */
  lemma NewBus(buses: set<string>) returns (bus: string)
    ensures bus !in buses
  {
    var n := Longest(buses);
    bus := seq(n + 1, _ => 'a');
  }

  lemma {:induction false} Longest(buses: set<string>) returns (n: nat)
    ensures forall b :: b in buses ==> |b| <= n
  {
    n := 0;
    if buses != {} {
      var bus :| bus in buses;
      var rest := buses - {bus};
      n := Longest(rest);
      n := if |bus| > n then |bus| else n;
      assert forall b :: b in buses ==> b == bus || b in rest;
    }
  }

  // ---- The log and what a consumer should see of it ----

  /** The log, indexed by sequence number. */
  type Log = seq<BusFrame>

  /** The filter's decision on a frame; of frames in `blind` it does not see the bus. */
  predicate Passes(log: Log, filter: Option<ResolvedFilter>, blind: set<nat>, n: nat)
    requires n < |log|
  {
    Matches(filter, if n in blind then "" else log[n].bus, log[n].header)
  }

  /** The numbers in [lo, hi) whose frames pass the filter, in order. */
  ghost function Passing(log: Log, filter: Option<ResolvedFilter>, blind: set<nat>, lo: nat, hi: nat): seq<nat>
    requires lo < hi ==> hi <= |log|
    decreases hi
  {
    if lo >= hi then []
    else Passing(log, filter, blind, lo, hi - 1) + if Passes(log, filter, blind, hi - 1) then [hi - 1] else []
  }

  lemma {:induction false} PassingSplit(log: Log, filter: Option<ResolvedFilter>, blind: set<nat>, lo: nat, mid: nat,
                                        hi: nat)
    requires lo <= mid <= hi && (lo < hi ==> hi <= |log|)
    ensures Passing(log, filter, blind, lo, hi) ==
            Passing(log, filter, blind, lo, mid) + Passing(log, filter, blind, mid, hi)
    decreases hi
  {
    if mid < hi {
      PassingSplit(log, filter, blind, lo, mid, hi - 1);
    }
  }

  /** What a range passes depends on nothing behind it. */
  lemma {:induction false} PassingGrows(log: Log, log': Log, filter: Option<ResolvedFilter>, blind: set<nat>,
                                        blind': set<nat>, lo: nat, hi: nat)
    requires log <= log' && (lo < hi ==> hi <= |log|)
    requires forall n :: lo <= n < hi ==> (n in blind <==> n in blind')
    ensures Passing(log', filter, blind', lo, hi) == Passing(log, filter, blind, lo, hi)
    decreases hi
  {
    if lo < hi {
      PassingGrows(log, log', filter, blind, blind', lo, hi - 1);
    }
  }

  /** A filter to which the bus is no matter passes the same frames wherever they were read. */
  lemma {:induction false} PassingAnyway(log: Log, filter: Option<ResolvedFilter>, blind: set<nat>, lo: nat, hi: nat)
    requires BusIsNoMatter(filter) && (lo < hi ==> hi <= |log|)
    ensures Passing(log, filter, blind, lo, hi) == Passing(log, filter, {}, lo, hi)
    decreases hi
  {
    if lo < hi {
      PassingAnyway(log, filter, blind, lo, hi - 1);
    }
  }

  // ---- The surroundings of a consumer ----

  /** What the journal side answers when the consumer turns to it. */
  datatype JournalAnswer =
    | Entry(seqNo: nat, header: CANHeader, data: seq<Bytes.byte>, timestamp: int) // number 0: an old-format file
    | ReadError
    | NextFile
    | OpenFailed
    | NoMoreFiles

  /** What happens between two of the consumer's accesses to shared state: the broker appends
      some frames, and the journal readies an answer. */
  datatype Move = Move(appended: seq<BusFrame>, answer: JournalAnswer)

  /** The journal holds the log's frames under their own numbers. */
  predicate Honest(log: Log, a: JournalAnswer) {
    a.Entry? && a.seqNo > 0 ==>
      && a.seqNo < |log| && a.header == log[a.seqNo].header
      && a.data == log[a.seqNo].data && a.timestamp == log[a.seqNo].timestamp
  }

  predicate HonestScript(log: Log, script: seq<Move>)
    decreases |script|
  {
    script == [] ||
    (Honest(log + script[0].appended, script[0].answer) && HonestScript(log + script[0].appended, script[1..]))
  }

  /** What a consumer shares with the broker, in one arbitrary interleaving: the log so far, the
      ring over its recent end, and the moves still to come. When the moves run out, the
      caller's context is cancelled. */
  datatype Shared = Shared(log: Log, first: nat, ringSize: nat, hasJournal: bool, script: seq<Move>) {

    ghost predicate Valid() {
      ringSize > 0 && 1 <= first <= |log| && HonestScript(log, script)
    }

    function Head(): nat {
      |log|
    }

    function Tail(): nat {
      TailOf(first, Head(), ringSize)
    }

    /** The broker's `ReadEntry` outside replica mode, as `Ring.Broker.ReadEntry` promises it. */
    function ReadEntry(n: nat): Option<RingEntry> {
      if Tail() <= n < Head() then Some(RingEntry(n, log[n])) else None
    }

    /** The next move happens. */
    function Play(): (s: Shared)
      requires Valid() && script != []
      ensures s.Valid() && log <= s.log && |s.script| == |script| - 1
      ensures Honest(s.log, script[0].answer)
    {
      this.(log := log + script[0].appended, script := script[1..])
    }
  }

  /** The shared states one move after another. */
  ghost predicate Chain(trail: seq<Shared>) {
    forall k :: 0 <= k < |trail| - 1 ==> Follows(trail[k], trail[k + 1])
  }

  ghost predicate Follows(s: Shared, next: Shared) {
    s.Valid() && s.script != [] && next == s.Play()
  }

  lemma ChainOn(trail: seq<Shared>, s: Shared)
    requires Chain(trail) && trail != [] && Follows(trail[|trail| - 1], s)
    ensures Chain(trail + [s])
  {
    var longer := trail + [s];
    forall k | 0 <= k < |longer| - 1 ensures Follows(longer[k], longer[k + 1]) {
      assert k < |trail| - 1 ==> Follows(trail[k], trail[k + 1]);
    }
  }

  // ---- When a consumer may give up ----

  /** An answer that leaves the journal of no use for the number at the cursor. */
  predicate Hopeless(a: JournalAnswer, cursor: nat) {
    match a
    case Entry(n, _, _, _) => n > cursor
    case ReadError => false
    case NextFile => false
    case OpenFailed => true
    case NoMoreFiles => true
  }

  /** At the `k`-th move the journal was of no use for the number at the cursor, and neither was the ring. */
  ghost predicate Useless(trail: seq<Shared>, k: nat, cursor: nat)
    requires k + 1 < |trail|
  {
    trail[k].script != [] && Hopeless(trail[k].script[0].answer, cursor) && cursor < trail[k + 1].Tail()
  }

  /** The consumer is behind the ring, and since the `from`-th state there was nothing it could do: there is
      no journal; or journal and ring were of no use at some move; or the ring still had the number before
      the last move, which overwrote it. */
  ghost predicate Behind(trail: seq<Shared>, from: nat, cursor: nat)
    requires from < |trail|
  {
    var last := |trail| - 1;
    && cursor < trail[last].Tail()
    && (|| !trail[last].hasJournal
        || (exists k :: from <= k < last && Useless(trail, k, cursor))
        || (from < last && trail[last - 1].Tail() <= cursor))
  }

  /** The next call gets a frame: after the first move the journal is to be asked, and with the second it
      answers with the frame at the cursor; or the ring has that frame, and still has it after the second. */
  ghost predicate Served(s: Shared, cursor: nat, filter: Option<ResolvedFilter>) {
    && s.Valid() && |s.script| >= 2 && cursor > 0
    && if cursor < s.Play().Tail() then s.hasJournal && Answers(s.Play(), cursor, filter)
       else InRing(s.Play(), cursor, filter)
  }

  /** The next answer of the journal is the frame at the cursor, and it matches. */
  ghost predicate Answers(s: Shared, cursor: nat, filter: Option<ResolvedFilter>) {
    s.script != [] &&
    var a := s.script[0].answer;
    a.Entry? && a.seqNo == cursor && Matches(filter, "", a.header)
  }

  /** The frame is in the ring and stays there for the next move, and it matches. */
  ghost predicate InRing(s: Shared, cursor: nat, filter: Option<ResolvedFilter>) {
    && s.Valid() && s.script != []
    && s.Play().Tail() <= cursor < s.Head() && Matches(filter, s.log[cursor].bus, s.log[cursor].header)
  }

  /** So do the next `n` calls. */
  ghost predicate AllServed(s: Shared, cursor: nat, filter: Option<ResolvedFilter>, n: nat)
    decreases n
  {
    n == 0 || (Served(s, cursor, filter) && AllServed(s.Play().Play(), cursor + 1, filter, n - 1))
  }

  lemma ServedOn(s: Shared, cursor: nat, filter: Option<ResolvedFilter>, n: nat, got: bool, s': Shared, cursor': nat)
    requires n > 0 && (Served(s, cursor, filter) ==> got && cursor' == cursor + 1 && s' == s.Play().Play())
    ensures AllServed(s, cursor, filter, n) ==> got && cursor' == cursor + 1 && AllServed(s', cursor', filter, n - 1)
  {
  }

  /** While the broker rests, the frame `k` numbers on is served: by the journal's answer in the `k`-th
      call if the ring does not have it. */
  ghost predicate Fetched(s: Shared, cursor: nat, filter: Option<ResolvedFilter>, k: nat)
    requires 2 * k + 1 < |s.script| && cursor + k < |s.log|
  {
    var n, a := cursor + k, s.script[2 * k + 1].answer;
    if n < s.Tail() then s.hasJournal && a.Entry? && a.seqNo == n && Matches(filter, "", a.header)
    else Matches(filter, s.log[n].bus, s.log[n].header)
  }

  ghost predicate Resting(s: Shared) {
    forall k :: 0 <= k < |s.script| ==> s.script[k].appended == []
  }

  lemma RestingPlay(s: Shared)
    requires s.Valid() && Resting(s) && s.script != []
    ensures s.Play() == s.(script := s.script[1..]) && Resting(s.Play())
  {
    assert s.script[0].appended == [] && s.log + [] == s.log;
  }

  lemma FetchedLater(s: Shared, next: Shared, cursor: nat, filter: Option<ResolvedFilter>, k: nat)
    requires 2 * k + 3 < |s.script| && cursor + k + 1 < |s.log| && next == s.(script := s.script[2..])
    ensures Fetched(s, cursor, filter, k + 1) ==> Fetched(next, cursor + 1, filter, k)
  {
    assert next.script[2 * k + 1] == s.script[2 * (k + 1) + 1];
  }

  /** A consumer that starts anywhere in a resting log is served frame after frame, from the journal and
      then from the ring, as long as frames match and the journal answers with the number asked for. */
  lemma {:induction false} RestingServes(s: Shared, cursor: nat, filter: Option<ResolvedFilter>, n: nat)
    requires s.Valid() && Resting(s) && 0 < cursor && cursor + n <= |s.log| && 2 * n <= |s.script|
    requires forall k :: 0 <= k < n ==> Fetched(s, cursor, filter, k)
    ensures AllServed(s, cursor, filter, n)
    decreases n
  {
    if n > 0 {
      RestingPlay(s);
      RestingPlay(s.Play());
      var next, c := s.Play().Play(), cursor + 1;
      assert Fetched(s, cursor, filter, 0);
      forall k | 0 <= k < n - 1 ensures Fetched(next, c, filter, k) {
        FetchedLater(s, next, cursor, filter, k);
      }
      RestingServes(next, c, filter, n - 1);
    }
  }

  lemma TailRises(s: Shared)
    requires s.Valid() && s.script != []
    ensures s.Tail() <= s.Play().Tail() && s.Play().hasJournal == s.hasJournal
  {
  }

  // ---- The consumer ----

  datatype Delivered = Delivered(seqNo: nat, header: CANHeader, data: seq<Bytes.byte>, timestamp: int)

  datatype Result = Got(frame: Delivered) | FallenBehind | Cancelled

  /** What a journal read ends with; `CaughtUp` sends the caller back to the ring. */
  datatype JournalResult = Done(r: Result) | CaughtUp

  /** The frame is the log's frame of that number. */
  ghost predicate IsLogFrame(log: Log, f: Delivered) {
    && f.seqNo < |log|
    && f.header == log[f.seqNo].header && f.data == log[f.seqNo].data && f.timestamp == log[f.seqNo].timestamp
  }

  /** From `start` the consumer has taken every number up to `cursor`, those in `blind` from the
      journal, and of all of them exactly the one delivered, if any, passes the filter. */
  ghost predicate Took(log: Log, filter: Option<ResolvedFilter>, blind: set<nat>, start: nat, cursor: nat, r: Result) {
    && start <= cursor
    && (start < cursor ==> cursor <= |log|)
    && (forall n :: n in blind ==> n < cursor)
    && match r
       case Got(f) =>
         IsLogFrame(log, f) && f.seqNo + 1 == cursor && Passing(log, filter, blind, start, cursor) == [f.seqNo]
       case _ => Passing(log, filter, blind, start, cursor) == []
  }

  /** Nothing passing so far, and the log has only grown since. */
  lemma TookNothing(log: Log, log': Log, filter: Option<ResolvedFilter>, blind: set<nat>, start: nat, cursor: nat)
    requires log <= log' && Took(log, filter, blind, start, cursor, Cancelled)
    ensures Took(log', filter, blind, start, cursor, Cancelled)
  {
    PassingGrows(log, log', filter, blind, blind, start, cursor);
  }

  /** Nothing passing so far, and now the frame at the cursor is taken, from the journal or the ring. */
  lemma TookOne(log: Log, filter: Option<ResolvedFilter>, blind: set<nat>, blind': set<nat>, start: nat, cursor: nat,
                f: Delivered)
    requires Took(log, filter, blind, start, cursor, Cancelled) && IsLogFrame(log, f) && f.seqNo == cursor
    requires blind' == blind || blind' == blind + {cursor}
    ensures Took(log, filter, blind', start, cursor + 1,
                 if Passes(log, filter, blind', cursor) then Got(f) else Cancelled)
  {
    PassingGrows(log, log, filter, blind, blind', start, cursor);
  }

  /** A reason to give up since some state is one since any earlier state. */
  lemma BehindEarlier(trail: seq<Shared>, from: nat, mid: nat, cursor: nat)
    requires from <= mid < |trail|
    ensures Behind(trail, mid, cursor) ==> Behind(trail, from, cursor)
  {
    var last := |trail| - 1;
    if Behind(trail, mid, cursor) && exists k :: mid <= k < last && Useless(trail, k, cursor) {
      var k :| mid <= k < last && Useless(trail, k, cursor);
      assert from <= k < last && Useless(trail, k, cursor);
    }
  }

  /** What had been collected up to `mid`, and the outcome from there, make what is collected now. */
  lemma Longer(log: Log, log': Log, filter: Option<ResolvedFilter>, blind: set<nat>, blind': set<nat>,
               start: nat, mid: nat, cursor: nat, out: seq<Delivered>, r: Result)
    requires log <= log' && start <= mid && (start < mid ==> mid <= |log|) && Took(log', filter, blind', mid, cursor, r)
    requires forall n :: start <= n < mid ==> (n in blind <==> n in blind')
    requires Numbers(out) == Passing(log, filter, blind, start, mid)
    requires forall i :: 0 <= i < |out| ==> IsLogFrame(log, out[i])
    ensures var more := if r.Got? then out + [r.frame] else out;
            && Numbers(more) == Passing(log', filter, blind', start, cursor)
            && forall i :: 0 <= i < |more| ==> IsLogFrame(log', more[i])
  {
    PassingGrows(log, log', filter, blind, blind', start, mid);
    PassingSplit(log', filter, blind', start, mid, cursor);
    if r.Got? {
      NumbersSnoc(out, r.frame);
    }
  }

  class Consumer {
    const filter: Option<ResolvedFilter>
    var cursor: nat
    var shared: Shared
    ghost var blind: set<nat> // numbers taken from the journal
    ghost var trail: seq<Shared> // the shared states so far, the current one last

    constructor (shared: Shared, filter: Option<ResolvedFilter>, cursor: nat)
      ensures this.shared == shared && this.filter == filter && this.cursor == cursor && blind == {} && Tracked()
    {
      this.shared, this.filter, this.cursor, this.blind := shared, filter, cursor, {};
      trail := [shared];
    }

    /** The trail leads to the current state, move by move. */
    ghost predicate Tracked()
      reads this
    {
      trail != [] && trail[|trail| - 1] == shared && Chain(trail)
    }

    /** Some moves have happened since the trail was this. */
    ghost predicate On(before: seq<Shared>)
      reads this
    {
      Tracked() && before <= trail
    }

    /** The shared state is in order, and only numbers already taken came from the journal. */
    ghost predicate Valid()
      reads this
    {
      shared.Valid() && Tracked() && forall n :: n in blind ==> n < cursor
    }

    /** Since `was`, the log has only grown and fewer moves are left; since `start`, every number
        below the cursor has been taken with outcome `r`. */
    ghost predicate Since(was: Shared, start: nat, r: Result)
      reads this
    {
      && shared.Valid() && Tracked() && was.log <= shared.log && |shared.script| <= |was.script|
      && Took(shared.log, filter, blind, start, cursor, r)
    }

    /** The broker and the journal move on. */
    method Interleave(ghost was: Shared, ghost start: nat) returns (answer: JournalAnswer)
      requires Since(was, start, Cancelled) && shared.script != []
      modifies this`shared, this`trail
      ensures Since(was, start, Cancelled) && shared == old(shared).Play() && trail == old(trail) + [shared]
      ensures Honest(shared.log, answer) && answer == old(shared).script[0].answer
    {
      TookNothing(shared.log, shared.Play().log, filter, blind, start, cursor);
      answer := shared.script[0].answer;
      ChainOn(trail, shared.Play());
      shared := shared.Play();
      trail := trail + [shared];
    }

    /** Re-reads the ring bounds after the broker may have moved on. */
    method Recheck(ghost was: Shared, ghost start: nat) returns (out: JournalResult)
      requires Since(was, start, Cancelled)
      modifies this`shared, this`trail
      ensures Since(was, start, Cancelled) && |shared.script| <= |old(shared).script| && On(old(trail))
      ensures out == if cursor >= shared.Tail() then CaughtUp else Done(FallenBehind)
    {
      if shared.script != [] {
        var _ := Interleave(was, start);
      }
      out := if cursor >= shared.Tail() then CaughtUp else Done(FallenBehind);
    }

    /** One answer of the journal: skip a frame before the cursor, take the one at it, fail on a
        gap unless the ring covers the cursor by now. `None` means: ask again. */
    method Consider(ghost was: Shared, ghost start: nat, answer: JournalAnswer) returns (out: Option<JournalResult>)
      requires Since(was, start, Cancelled) && Honest(shared.log, answer)
      modifies this
      ensures |shared.script| <= |old(shared).script| && old(cursor) <= cursor && On(old(trail))
      ensures old(blind) <= blind <= old(blind) + {old(cursor)}
      ensures Since(was, start, if out.Some? && out.value.Done? then out.value.r else Cancelled)
      ensures out == Some(CaughtUp) ==> cursor >= shared.Tail()
      ensures out == Some(Done(FallenBehind)) ==>
                Hopeless(answer, cursor) && cursor == old(cursor) && (shared == old(shared) || cursor < shared.Tail())
      ensures out != Some(Done(Cancelled)) && (out.None? ==> shared == old(shared))
      ensures answer.Entry? && answer.seqNo == old(cursor) > 0 ==>
                && cursor == old(cursor) + 1 && shared == old(shared)
                && (out.None? <==> !Matches(filter, "", answer.header))
                && (out.Some? ==> out.value.Done? && out.value.r.Got?)
    {
      out := None;
      match answer
      case Entry(n, header, data, timestamp) =>
        if n > cursor {
          var again := Recheck(was, start);
          out := Some(again);
        } else if n != 0 && n == cursor {
          var f := Delivered(n, header, data, timestamp);
          TookOne(shared.log, filter, blind, blind + {cursor}, start, cursor, f);
          blind := blind + {cursor};
          cursor := cursor + 1;
          if Matches(filter, "", header) {
            out := Some(Done(Got(f)));
          }
        }
      case OpenFailed =>
        out := Some(Done(FallenBehind));
      case NoMoreFiles =>
        var again := Recheck(was, start);
        out := Some(again);
      case _ =>
    }

    /** The journal loop. */
    method ReadFromJournal(ghost was: Shared, ghost start: nat) returns (out: JournalResult)
      requires Since(was, start, Cancelled) && cursor < shared.Tail()
      modifies this
      ensures Since(was, start, if out.Done? then out.r else Cancelled) && |shared.script| <= |old(shared).script|
      ensures On(old(trail)) && BlindSince(old(blind), old(cursor))
      ensures out.CaughtUp? ==> cursor >= shared.Tail()
      ensures out == Done(Cancelled) ==> shared.script == []
      ensures out == Done(FallenBehind) ==> Behind(trail, |old(trail)| - 1, cursor)
      ensures old(shared).hasJournal && Answers(old(shared), old(cursor), filter) && old(cursor) > 0 ==>
                out.Done? && out.r.Got? && cursor == old(cursor) + 1 && shared == old(shared).Play()
    {
      if !shared.hasJournal {
        return Done(FallenBehind);
      }
      while shared.script != []
        invariant Since(was, start, Cancelled) && |shared.script| <= |old(shared).script|
        invariant On(old(trail)) && BlindSince(old(blind), old(cursor))
        invariant Answers(old(shared), old(cursor), filter) && old(cursor) > 0 ==>
                    shared == old(shared) && cursor == old(cursor)
        decreases |shared.script|
      {
        ghost var mid := |trail| - 1;
        var done := Ask(was, start);
        if done.Some? {
          BehindEarlier(trail, |old(trail)| - 1, mid, cursor);
          return done.value;
        }
      }
      return Done(Cancelled);
    }

    /** One look at the ring and one answer of the journal. */
    method Ask(ghost was: Shared, ghost start: nat) returns (out: Option<JournalResult>)
      requires Since(was, start, Cancelled) && shared.script != []
      modifies this
      ensures Since(was, start, if out.Some? && out.value.Done? then out.value.r else Cancelled)
      ensures On(old(trail)) && BlindSince(old(blind), old(cursor)) && |shared.script| < |old(shared).script|
      ensures out == Some(CaughtUp) ==> cursor >= shared.Tail()
      ensures out != Some(Done(Cancelled))
      ensures out == Some(Done(FallenBehind)) ==> Behind(trail, |old(trail)| - 1, cursor)
      ensures old(cursor) < old(shared).Tail() && Answers(old(shared), old(cursor), filter) && old(cursor) > 0 ==>
                && out.Some? && out.value.Done? && out.value.r.Got?
                && cursor == old(cursor) + 1 && shared == old(shared).Play()
    {
      TailRises(shared);
      ghost var k := |trail| - 1;
      var answer := Interleave(was, start);
      if cursor >= shared.Tail() {
        return Some(CaughtUp);
      }
      out := Consider(was, start, answer);
      if out == Some(Done(FallenBehind)) {
        assert Useless(trail, k, cursor);
      }
    }

    /** Only numbers from `from` on were taken from the journal since. */
    ghost predicate BlindSince(before: set<nat>, from: nat)
      reads this
    {
      before <= blind && from <= cursor && forall n :: n in blind && n < from ==> n in before
    }

    /** The ring read, after the broker may have moved on; `None` means: the frame did not match. */
    method ReadFromRing(ghost was: Shared, ghost start: nat) returns (out: Option<Result>)
      requires Since(was, start, Cancelled) && shared.Tail() <= cursor < shared.Head()
      modifies this`shared, this`cursor, this`trail
      ensures |shared.script| <= |old(shared).script| && old(cursor) <= cursor && On(old(trail))
      ensures out == Some(FallenBehind) ==> Behind(trail, |old(trail)| - 1, cursor)
      ensures out != Some(Cancelled)
      ensures InRing(old(shared), old(cursor), filter) ==>
                out.Some? && out.value.Got? && cursor == old(cursor) + 1 && shared == old(shared).Play()
      ensures Since(was, start, if out.Some? then out.value else Cancelled)
    {
      if shared.script != [] {
        var _ := Interleave(was, start);
      }
      var entry := shared.ReadEntry(cursor);
      if entry.None? {
        return Some(FallenBehind);
      }
      var frame := entry.value.frame;
      var f := Delivered(entry.value.seqNo, frame.header, frame.data, frame.timestamp);
      TookOne(shared.log, filter, blind, blind, start, cursor, f);
      cursor := cursor + 1;
      return if Matches(filter, frame.bus, frame.header) then Some(Got(f)) else None;
    }

    /** The next matching frame. Between any two accesses to the broker it may have moved on. The call
        is cancelled only when the moves run out, and gives up only with a reason; it gets the frame at
        the cursor whenever that is served. */
    method Next() returns (r: Result)
      requires Valid()
      modifies this
      ensures Valid() && Since(old(shared), old(cursor), r) && BlindSince(old(blind), old(cursor))
      ensures On(old(trail))
      ensures r == Cancelled ==> shared.script == []
      ensures r == FallenBehind ==> Behind(trail, |old(trail)| - 1, cursor)
      ensures Served(old(shared), old(cursor), filter) ==>
                r.Got? && cursor == old(cursor) + 1 && shared == old(shared).Play().Play()
    {
      while shared.script != []
        invariant Since(old(shared), old(cursor), Cancelled) && BlindSince(old(blind), old(cursor)) && On(old(trail))
        invariant Served(old(shared), old(cursor), filter) ==> shared == old(shared) && cursor == old(cursor)
        decreases |shared.script|
      {
        ghost var mid := |trail| - 1;
        var out := Look(old(shared), old(cursor));
        if out.Some? {
          BehindEarlier(trail, |old(trail)| - 1, mid, cursor);
          return out.value;
        }
      }
      return Cancelled;
    }

    /** One round: the journal if the cursor is behind the ring, the ring if it has the number, and
        otherwise, at the head, waiting for a notification before looking again. */
    method Look(ghost was: Shared, ghost start: nat) returns (out: Option<Result>)
      requires Since(was, start, Cancelled) && shared.script != []
      modifies this
      ensures Since(was, start, if out.Some? then out.value else Cancelled) && |shared.script| < |old(shared).script|
      ensures On(old(trail)) && BlindSince(old(blind), old(cursor))
      ensures out == Some(Cancelled) ==> shared.script == []
      ensures out == Some(FallenBehind) ==> Behind(trail, |old(trail)| - 1, cursor)
      ensures Served(old(shared), old(cursor), filter) ==>
                && out.Some? && out.value.Got?
                && cursor == old(cursor) + 1 && shared == old(shared).Play().Play()
    {
      TailRises(shared);
      var _ := Interleave(was, start);
      var tail, head := shared.Tail(), shared.Head();
      ghost var mid := |trail| - 1;
      out := None;
      if cursor < tail {
        var j := ReadFromJournal(was, start);
        out := if j.Done? then Some(j.r) else None;
      } else if cursor < head {
        out := ReadFromRing(was, start);
      }
      if out == Some(FallenBehind) {
        BehindEarlier(trail, mid - 1, mid, cursor);
      }
    }

    /** Calling `Next` until it fails or `limit` frames have come: what was delivered is exactly
        the part of the log from the starting cursor to the cursor that passes the filter, which
        does not see the bus of frames taken from the journal. If the bus is no matter to the
        filter, that is simply the part of the log that passes. */
    method Collect(limit: nat) returns (out: seq<Delivered>, last: Result)
      requires Valid()
      modifies this
      ensures Valid() && old(shared).log <= shared.log && BlindSince(old(blind), old(cursor))
      ensures old(cursor) < cursor ==> cursor <= |shared.log|
      ensures forall i :: 0 <= i < |out| ==> IsLogFrame(shared.log, out[i])
      ensures Numbers(out) == Passing(shared.log, filter, blind, old(cursor), cursor)
      ensures BusIsNoMatter(filter) ==> Numbers(out) == Passing(shared.log, filter, {}, old(cursor), cursor)
      ensures On(old(trail)) && (last.Got? ==> |out| == limit)
      ensures |out| < limit ==>
                || (last == Cancelled && shared.script == [])
                || (last == FallenBehind && Behind(trail, |old(trail)| - 1, cursor))
      ensures AllServed(old(shared), old(cursor), filter, limit) ==> |out| == limit && cursor == old(cursor) + limit
    {
      ghost var served, left := AllServed(shared, cursor, filter, limit), limit;
      out := [];
      last := Got(Delivered(0, CANHeader(0, 0, 0, 0), [], 0));
      while |out| < limit && last.Got?
        invariant |out| <= limit && Collected(old(shared), old(trail), old(cursor), old(blind), out)
        invariant last == Cancelled ==> shared.script == []
        invariant last == FallenBehind ==> Behind(trail, |old(trail)| - 1, cursor)
        invariant |out| + left >= limit
        invariant served ==>
                    && last.Got? && |out| + left == limit && cursor == old(cursor) + |out|
                    && AllServed(shared, cursor, filter, left)
        decreases limit - |out|, last.Got?
      {
        last, out := CollectOne(old(shared), old(trail), old(cursor), old(blind), out, left);
        left := if last.Got? then left - 1 else left;
      }
      if BusIsNoMatter(filter) {
        PassingAnyway(shared.log, filter, blind, old(cursor), cursor);
      }
    }

    /** Since the start, `out` is what passes, in order. */
    ghost predicate Collected(was: Shared, before: seq<Shared>, start: nat, known: set<nat>, out: seq<Delivered>)
      reads this
    {
      && Valid() && was.log <= shared.log && BlindSince(known, start) && On(before)
      && (start < cursor ==> cursor <= |shared.log|)
      && (forall i :: 0 <= i < |out| ==> IsLogFrame(shared.log, out[i]))
      && Numbers(out) == Passing(shared.log, filter, blind, start, cursor)
    }

    method CollectOne(ghost was: Shared, ghost before: seq<Shared>, ghost start: nat, ghost known: set<nat>,
                      out: seq<Delivered>, ghost n: nat)
      returns (last: Result, more: seq<Delivered>)
      requires Collected(was, before, start, known, out) && n > 0 && before != []
      modifies this
      ensures Collected(was, before, start, known, more)
      ensures |more| == if last.Got? then |out| + 1 else |out|
      ensures last == Cancelled ==> shared.script == []
      ensures last == FallenBehind ==> Behind(trail, |before| - 1, cursor)
      ensures AllServed(old(shared), old(cursor), filter, n) ==>
                last.Got? && cursor == old(cursor) + 1 && AllServed(shared, cursor, filter, n - 1)
    {
      last := Next();
      ServedOn(old(shared), old(cursor), filter, n, last.Got?, shared, cursor);
      BehindEarlier(trail, |before| - 1, |old(trail)| - 1, cursor);
      more := if last.Got? then out + [last.frame] else out;
      Longer(old(shared).log, shared.log, filter, old(blind), blind, start, old(cursor), cursor, out, last);
    }
  }

  /** What a filter loses to which the bus does matter: a frame that passes on its bus, but not without
      one, is taken from the journal and not delivered. */
  method JournalSkips(c: Consumer, answer: JournalAnswer) returns (out: Option<JournalResult>)
    requires c.Valid() && Honest(c.shared.log, answer) && answer.Entry? && answer.seqNo == c.cursor > 0
    requires !Matches(c.filter, "", answer.header) && Matches(c.filter, c.shared.log[c.cursor].bus, answer.header)
    modifies c
    ensures out == None && c.cursor == old(c.cursor) + 1 && c.shared == old(c.shared)
    ensures Passing(c.shared.log, c.filter, {}, old(c.cursor), c.cursor) == [old(c.cursor)]
    ensures Passing(c.shared.log, c.filter, c.blind, old(c.cursor), c.cursor) == []
  {
    ghost var n := c.cursor;
    out := c.Consider(c.shared, c.cursor, answer);
    assert Passing(c.shared.log, c.filter, {}, n, n) == [];
  }

  // ---- The ring ----

  /** `s` describes a broker outside replica mode: same ring, same log. */
  ghost predicate Describes(s: Shared, b: Broker)
    reads b, b.ring
  {
    && b.Valid() && !b.replicaMode && s.first == b.first && s.ringSize == b.ring.Length && |s.log| == b.head
    && forall n :: b.first <= n < b.head ==> b.history[n - b.first] == RingEntry(n, s.log[n])
  }

  /** Then reading the ring's bounds and entries means the same in both. */
  method ReadAlike(s: Shared, b: Broker, n: nat) returns (tail: nat, head: nat, entry: Option<RingEntry>)
    requires Describes(s, b)
    ensures tail == s.Tail() && head == s.Head() && entry == s.ReadEntry(n)
  {
    tail, head := b.RingRange();
    entry := b.ReadEntry(n);
  }

  /** And the broker's append is the log's. */
  method AppendAlike(s: Shared, b: Broker, frame: BusFrame) returns (number: nat)
    requires Describes(s, b)
    modifies b, b.ring
    ensures Describes(s.(log := s.log + [frame]), b) && number == old(b.head)
  {
    number := b.Append(frame, 0);
  }

  ghost function Numbers(fs: seq<Delivered>): seq<nat> {
    seq(|fs|, i requires 0 <= i < |fs| => fs[i].seqNo)
  }

  lemma NumbersSnoc(fs: seq<Delivered>, f: Delivered)
    ensures Numbers(fs + [f]) == Numbers(fs) + [f.seqNo]
  {
  }

  // ---- Choosing the journal file to start from ----

  /** A readable file with a positive first number. */
  predicate Candidate(firstSeqs: seq<Option<nat>>, i: int) {
    0 <= i < |firstSeqs| && firstSeqs[i].Some? && firstSeqs[i].value > 0
  }

  /** Later files hold later frames. */
  ghost predicate Chronological(firstSeqs: seq<Option<nat>>) {
    forall i, j :: i < j && Candidate(firstSeqs, i) && Candidate(firstSeqs, j) ==>
      firstSeqs[i].value < firstSeqs[j].value
  }

  /** Indices of the readable files, in order. */
  method Readable(firstSeqs: seq<Option<nat>>) returns (candidates: seq<nat>)
    ensures forall a :: 0 <= a < |candidates| ==> Candidate(firstSeqs, candidates[a])
    ensures forall j :: Candidate(firstSeqs, j) ==> exists a :: 0 <= a < |candidates| && candidates[a] == j
    ensures forall a, b :: 0 <= a < b < |candidates| ==> candidates[a] < candidates[b]
  {
    candidates := [];
    for i := 0 to |firstSeqs|
      invariant forall a :: 0 <= a < |candidates| ==> candidates[a] < i && Candidate(firstSeqs, candidates[a])
      invariant forall j :: 0 <= j < i && Candidate(firstSeqs, j) ==>
                exists a :: 0 <= a < |candidates| && candidates[a] == j
      invariant forall a, b :: 0 <= a < b < |candidates| ==> candidates[a] < candidates[b]
    {
      if firstSeqs[i].Some? && firstSeqs[i].value > 0 {
        ghost var before := candidates;
        candidates := candidates + [i];
        assert forall a :: 0 <= a < |before| ==> candidates[a] == before[a];
        assert i == candidates[|candidates| - 1];
      }
    }
  }

  /** The last file starting at or before `n`, or the first readable one if none does. */
  method FindJournalFile(firstSeqs: seq<Option<nat>>, n: nat) returns (r: Option<nat>)
    ensures r.None? <==> forall i :: !Candidate(firstSeqs, i)
    ensures r.Some? ==> Candidate(firstSeqs, r.value)
    ensures Chronological(firstSeqs) && r.Some? && firstSeqs[r.value].value <= n ==>
              forall j :: Candidate(firstSeqs, j) && firstSeqs[j].value <= n ==> j <= r.value
    ensures Chronological(firstSeqs) && r.Some? && firstSeqs[r.value].value > n ==>
              forall j :: Candidate(firstSeqs, j) ==> r.value <= j && firstSeqs[j].value > n
  {
    var candidates := Readable(firstSeqs);
    if |candidates| == 0 {
      return None;
    }
    var result := candidates[0];
    var k := 0;
    while k < |candidates| && firstSeqs[candidates[k]].value <= n
      invariant 0 <= k <= |candidates|
      invariant forall a :: 0 <= a < k ==> firstSeqs[candidates[a]].value <= n
      invariant result == candidates[if k == 0 then 0 else k - 1]
    {
      result := candidates[k];
      k := k + 1;
    }
    assert Candidate(firstSeqs, result);
    forall j | Chronological(firstSeqs) && Candidate(firstSeqs, j)
      ensures firstSeqs[result].value <= n && firstSeqs[j].value <= n ==> j <= result
      ensures firstSeqs[result].value > n ==> result <= j && firstSeqs[j].value > n
    {
      var a :| 0 <= a < |candidates| && candidates[a] == j;
      assert a >= k && k < |candidates| ==> firstSeqs[candidates[k]].value <= firstSeqs[candidates[a]].value;
    }
    return Some(result);
  }
}
