/** The cloud side of boat-to-cloud replication: what handshakes, live frames, status
    reports, backfilled blocks and restarts do to the cursor and to the set of known gaps. */
module Replication {
  import opened HoleTracking

  /** The replicated part of an instance's state. */
  datatype Cloud = Cloud(cursor: nat, holes: set<nat>, boatHead: nat)

  // ---- The protocol steps, on values ----

  ghost function HandshakeStep(c: Cloud, head: nat): Cloud {
    Cloud(c.cursor,
          if c.cursor > 0 && head > c.cursor + 1 then c.holes + Interval(c.cursor + 1, head) else c.holes,
          head)
  }

  /** Where the handshake tells the boat to start its live stream. */
  function Grant(cursor: nat, head: nat): nat {
    if cursor == 0 then 1 else head
  }

  ghost function FrameStep(c: Cloud, n: nat): Cloud {
    if n == c.cursor + 1 then c.(cursor := n) else c
  }

  ghost function StatusStep(c: Cloud, head: nat): Cloud {
    c.(boatHead := head)
  }

  ghost function BlockStep(c: Cloud, base: nat, count: nat): Cloud {
    var holes := c.holes - Interval(base, base + count);
    var continuous := Through(holes, 0);
    var cursor :=
      if continuous != MAX_SEQ && continuous > c.cursor then continuous
      else if continuous == MAX_SEQ && c.boatHead > 0 then c.boatHead
      else c.cursor;
    Cloud(cursor, holes, c.boatHead)
  }

  /** The cursor, or the number before a gap if that is further. */
  function Further(cursor: nat, gap: nat): (r: nat)
    ensures r >= cursor && r + 1 >= gap && (r == cursor || r + 1 == gap)
  {
    if gap > cursor + 1 then gap - 1 else cursor
  }

  // ---- The handlers ----

  /** What is written to the state file. */
  datatype Persisted = Persisted(cursor: nat, holes: seq<SeqRange>, boatHead: nat)

  class InstanceState {
    var cursor: nat
    var boatHead: nat
    const tracker: HoleTracker

    ghost predicate Valid()
      reads this, tracker
    {
      tracker.Valid()
    }

    ghost function View(): Cloud
      reads this, tracker
    {
      Cloud(cursor, tracker.Set(), boatHead)
    }

    constructor ()
      ensures Valid() && fresh(tracker) && View() == Cloud(0, {}, 0)
    {
      cursor, boatHead := 0, 0;
      tracker := new HoleTracker();
    }

    /** Start-up from a state file: the saved ranges are added back one by one. A file written
        by `Snapshot` is restored exactly, range list included. */
    constructor Reload(p: Persisted)
      requires forall i :: 0 <= i < |p.holes| ==> p.holes[i].end <= MAX_SEQ
      ensures Valid() && fresh(tracker)
      ensures View() == Cloud(p.cursor, Missing(p.holes), p.boatHead)
      ensures Canonical(p.holes) ==> tracker.holes == p.holes
    {
      cursor, boatHead := p.cursor, p.boatHead;
      tracker := new HoleTracker();
      new;
      AddAll(tracker, p.holes);
      if Canonical(p.holes) {
        CanonicalUnique(tracker.holes, p.holes);
      }
    }

    method Handshake(head: nat) returns (liveStartFrom: nat, reported: seq<SeqRange>)
      requires Valid() && head <= MAX_SEQ
      modifies this, tracker
      ensures Valid() && View() == HandshakeStep(old(View()), head)
      ensures liveStartFrom == Grant(cursor, head) && reported == tracker.holes
      ensures forall n :: n in tracker.Set() <==> n in old(tracker.Set()) || (0 < old(cursor) < n < head)
      ensures (cursor == 0 ==> liveStartFrom == 1) && (cursor > 0 ==> liveStartFrom == head)
    {
      boatHead := head;
      if cursor > 0 && head > cursor + 1 {
        tracker.Add(cursor + 1, head);
      }
      reported := tracker.holes;
      liveStartFrom := head;
      if cursor == 0 {
        liveStartFrom := 1;
      }
    }

    method LiveFrame(n: nat) returns (ackedThrough: nat)
      requires Valid()
      modifies this
      ensures Valid() && View() == FrameStep(old(View()), n) && ackedThrough == cursor
    {
      if n == cursor + 1 {
        cursor := n;
      }
      ackedThrough := cursor;
    }

    method LiveStatus(head: nat)
      requires Valid()
      modifies this
      ensures Valid() && View() == StatusStep(old(View()), head)
    {
      boatHead := head;
    }

    /** The block's numbers leave the gaps. While gaps remain, the cursor moves up to the number
        before the first of them; when none does, it moves to the reported head. */
    method BackfillBlock(base: nat, count: nat) returns (continuousThrough: nat, remaining: seq<SeqRange>)
      requires Valid()
      modifies this, tracker
      ensures Valid() && View() == BlockStep(old(View()), base, count)
      ensures continuousThrough == cursor && remaining == tracker.holes
      ensures forall n :: n in tracker.Set() <==> n in old(tracker.Set()) && !(base <= n < base + count)
      ensures tracker.Set() == {} ==> cursor == if boatHead > 0 then boatHead else old(cursor)
      ensures forall f: nat :: IsFirstMissing(tracker.Set(), 0, f) ==> cursor == Further(old(cursor), f)
    {
      ghost var before := View();
      var _ := tracker.Fill(base, base + count);
      var continuous := tracker.ContinuousThrough(0);
      if continuous != MAX_SEQ && continuous > cursor {
        cursor := continuous;
      } else if continuous == MAX_SEQ && boatHead > 0 {
        cursor := boatHead;
      }
      MissingBelow(tracker.holes);
      BlockCursor(before, base, count);
      continuousThrough, remaining := cursor, tracker.holes;
    }

    method Snapshot() returns (p: Persisted)
      requires Valid()
      ensures p == Persisted(cursor, tracker.holes, boatHead)
      ensures Canonical(p.holes) && Cloud(p.cursor, Missing(p.holes), p.boatHead) == View()
    {
      p := Persisted(cursor, tracker.holes, boatHead);
    }
  }

  /** Adds ranges one by one to an empty tracker. */
  method AddAll(tracker: HoleTracker, hs: seq<SeqRange>)
    requires tracker.Valid() && tracker.Set() == {} && forall i :: 0 <= i < |hs| ==> hs[i].end <= MAX_SEQ
    modifies tracker
    ensures tracker.Valid() && tracker.Set() == Missing(hs)
  {
    for i := 0 to |hs|
      invariant tracker.Valid() && tracker.Set() == Missing(hs[..i])
    {
      assert hs[..i + 1] == hs[..i] + [hs[i]];
      MissingAppend(hs[..i], hs[i]);
      EmptyInterval(hs[i]);
      tracker.Add(hs[i].start, hs[i].end);
    }
    assert hs[..|hs|] == hs;
  }

  lemma EmptyInterval(h: SeqRange)
    ensures h.start >= h.end ==> Interval(h.start, h.end) == {}
  {
  }

  // ---- Runs ----

  /** A cloud together with what the proof needs to speak about: the live start last granted, the
      one the cloud's state goes with (a restart takes it back to that of the state file), the
      numbers whose frames were received, the last head the boat reported, and the state file with
      both starts as they were when it was written. */
  datatype World = World(cloud: Cloud, granted: nat, liveStart: nat, received: set<nat>, lastHead: nat,
                         disk: Cloud, diskGranted: nat, diskStart: nat)

  /** A live frame is `accepted` unless the replica broker's channel is full; a handshake is
      `saved` unless writing the state file fails. Frame numbers and blocks are arbitrary. */
  datatype Event =
    | Handshake(head: nat, saved: bool)
    | Frame(n: nat, accepted: bool)
    | Status(head: nat)
    | Block(base: nat, count: nat)
    | Persist
    | Crash

  ghost function Init(): World {
    World(Cloud(0, {}, 0), 1, 1, {}, 0, Cloud(0, {}, 0), 1, 1)
  }

  function Saved(w: World): World {
    w.(disk := w.cloud, diskGranted := w.granted, diskStart := w.liveStart)
  }

  ghost function Step(w: World, e: Event): World {
    match e
    case Handshake(head, saved) =>
      var c := HandshakeStep(w.cloud, head);
      var start := Grant(w.cloud.cursor, head);
      var w' := World(c, start, start, w.received, head, w.disk, w.diskGranted, w.diskStart);
      if saved then Saved(w') else w'
    case Frame(n, accepted) =>
      w.(cloud := FrameStep(w.cloud, n), received := if accepted then w.received + {n} else w.received)
    case Status(head) => w.(cloud := StatusStep(w.cloud, head), lastHead := head)
    case Block(base, count) =>
      w.(cloud := BlockStep(w.cloud, base, count), received := w.received + Interval(base, base + count))
    case Persist => Saved(w)
    case Crash => w.(cloud := w.disk, liveStart := w.diskStart)
  }

  ghost function Run(es: seq<Event>): World {
    if es == [] then Init() else Step(Run(es[..|es| - 1]), es[|es| - 1])
  }

  /** Reported heads fit the counters and never go down. */
  ghost predicate Admissible(w: World, e: Event) {
    match e
    case Handshake(head, _) => w.lastHead <= head <= MAX_SEQ
    case Status(head) => w.lastHead <= head <= MAX_SEQ
    case _ => true
  }

  /** Every report in the run is admissible where it occurs. */
  ghost predicate HeadsRise(es: seq<Event>) {
    es == [] || (HeadsRise(es[..|es| - 1]) && Admissible(Run(es[..|es| - 1]), es[|es| - 1]))
  }

  /** No gap is forgotten: between the cursor and the live start, every number is
      received or known to be missing. */
  ghost predicate NoneForgotten(c: Cloud, liveStart: nat, received: set<nat>) {
    forall n: nat :: c.cursor < n < liveStart ==> n in received || n in c.holes
  }

  /** Everything up to the cursor is received. */
  ghost predicate CursorSound(c: Cloud, received: set<nat>) {
    forall n: nat :: 1 <= n <= c.cursor ==> n in received
  }

  /** Holes lie between 1 and the live start, and the live start is never past the reported head. */
  ghost predicate Shape(c: Cloud, liveStart: nat, lastHead: nat) {
    && (forall n :: n in c.holes ==> 1 <= n < liveStart)
    && (c.cursor == 0 ==> c.holes == {})
    && (liveStart <= c.boatHead || liveStart == 1)
    && c.boatHead <= lastHead <= MAX_SEQ
  }

  /** The invariant of every run with rising heads; it covers the state file too. */
  ghost predicate Safe(w: World) {
    && Shape(w.cloud, w.liveStart, w.lastHead)
    && Shape(w.disk, w.diskStart, w.lastHead)
    && NoneForgotten(w.cloud, w.liveStart, w.received)
    && NoneForgotten(w.disk, w.diskStart, w.received)
  }

  /** Where a backfilled block leaves the cursor: at the reported head when no gap remains, and
      otherwise at the number before the first gap, if that is progress. */
  lemma BlockCursor(c: Cloud, base: nat, count: nat)
    requires forall n :: n in BlockStep(c, base, count).holes ==> n <= MAX_SEQ
    ensures var c' := BlockStep(c, base, count);
            && (c'.holes == {} ==> c'.cursor == if c.boatHead > 0 then c.boatHead else c.cursor)
            && (forall f: nat :: IsFirstMissing(c'.holes, 0, f) ==> c'.cursor == Further(c.cursor, f))
            && (c'.holes != {} ==> exists f: nat :: IsFirstMissing(c'.holes, 0, f))
  {
    var holes := c.holes - Interval(base, base + count);
    assert Above(holes, 0) == holes;
    if holes != {} {
      var f := Least(holes);
      assert IsFirstMissing(holes, 0, f);
    }
  }

  datatype Backfill = Backfill(base: nat, count: nat)

  ghost function Backfilled(c: Cloud, blocks: seq<Backfill>): Cloud {
    if blocks == [] then c
    else
      var last := blocks[|blocks| - 1];
      BlockStep(Backfilled(c, blocks[..|blocks| - 1]), last.base, last.count)
  }

  ghost predicate InBlocks(blocks: seq<Backfill>, n: nat) {
    exists i :: 0 <= i < |blocks| && blocks[i].base <= n < blocks[i].base + blocks[i].count
  }

  lemma {:induction false} GapsLeft(c: Cloud, blocks: seq<Backfill>)
    ensures var c' := Backfilled(c, blocks);
            c'.boatHead == c.boatHead && forall n: nat :: n in c'.holes <==> n in c.holes && !InBlocks(blocks, n)
  {
    if blocks != [] {
      var front, last := blocks[..|blocks| - 1], blocks[|blocks| - 1];
      GapsLeft(c, front);
      forall n: nat ensures InBlocks(blocks, n) <==> InBlocks(front, n) || last.base <= n < last.base + last.count {
        if InBlocks(front, n) {
          var i :| 0 <= i < |front| && front[i].base <= n < front[i].base + front[i].count;
          assert blocks[i] == front[i];
        }
      }
    }
  }

  /** Backfill gets done: once the blocks have covered every gap, in whatever order and however often,
      no gap remains and the cursor is at the reported head. */
  lemma BackfillCompletes(c: Cloud, blocks: seq<Backfill>)
    requires blocks != [] && c.boatHead > 0 && forall n :: n in c.holes ==> n <= MAX_SEQ && InBlocks(blocks, n)
    ensures Backfilled(c, blocks) == Cloud(c.boatHead, {}, c.boatHead)
  {
    var front, last := blocks[..|blocks| - 1], blocks[|blocks| - 1];
    GapsLeft(c, front);
    GapsLeft(c, blocks);
    assert Backfilled(c, blocks).holes == {};
    BlockCursor(Backfilled(c, front), last.base, last.count);
  }

  lemma SafeStep(w: World, e: Event)
    requires Safe(w) && Admissible(w, e)
    ensures Safe(Step(w, e))
  {
    match e
    case Block(base, count) =>
      BlockCursor(w.cloud, base, count);
    case _ =>
  }

  lemma {:induction false} SafeRun(es: seq<Event>)
    requires HeadsRise(es)
    ensures Safe(Run(es))
  {
    if es != [] {
      SafeRun(es[..|es| - 1]);
      SafeStep(Run(es[..|es| - 1]), es[|es| - 1]);
    }
  }

  // ---- When nothing is forgotten ----

  /** The live start the law speaks of: the last one granted, or the one the state goes with. */
  function StartOf(w: World, last: bool): nat {
    if last then w.granted else w.liveStart
  }

  function DiskStartOf(w: World, last: bool): nat {
    if last then w.diskGranted else w.diskStart
  }

  /** What an event needs so that nothing is forgotten. A block that closes the last gap sets the
      cursor to the reported head: whatever lies between that head and the live start must have
      been received, or be in the block. And a restart takes the cloud back to its state file: of
      what was granted beyond the start the file goes with, nothing may be outstanding that the
      file does not know. */
  ghost predicate Remembers(w: World, e: Event, last: bool) {
    match e
    case Block(base, count) =>
      w.cloud.holes <= Interval(base, base + count) && w.cloud.boatHead > 0 ==>
        forall n: nat :: w.cloud.boatHead < n < StartOf(w, last) ==>
          n in w.received || n in Interval(base, base + count)
    case Crash =>
      last ==>
        forall n: nat :: w.diskGranted <= n < w.granted && w.disk.cursor < n ==> n in w.received || n in w.disk.holes
    case _ => true
  }

  ghost predicate AlwaysRemembers(es: seq<Event>, last: bool) {
    es == [] || (AlwaysRemembers(es[..|es| - 1], last) && Remembers(Run(es[..|es| - 1]), es[|es| - 1], last))
  }

  ghost predicate NeverForgets(es: seq<Event>, last: bool) {
    && NoneForgotten(Run(es).cloud, StartOf(Run(es), last), Run(es).received)
    && (es == [] || NeverForgets(es[..|es| - 1], last))
  }

  /** Reported heads fit the counters; they may rise and fall. */
  ghost predicate HeadsFit(es: seq<Event>) {
    forall i :: 0 <= i < |es| ==> HeadFits(es[i])
  }

  predicate HeadFits(e: Event) {
    match e
    case Handshake(head, _) => head <= MAX_SEQ
    case Status(head) => head <= MAX_SEQ
    case _ => true
  }

  /** Gaps are proper numbers, and the state file forgets nothing below its own live start. */
  ghost predicate Sane(w: World, last: bool) {
    && (forall n :: n in w.cloud.holes ==> 1 <= n <= MAX_SEQ)
    && (forall n :: n in w.disk.holes ==> 1 <= n <= MAX_SEQ)
    && NoneForgotten(w.disk, DiskStartOf(w, last), w.received)
  }

  lemma RememberBlock(w: World, base: nat, count: nat, last: bool)
    requires Sane(w, last) && NoneForgotten(w.cloud, StartOf(w, last), w.received)
    ensures var w' := Step(w, Block(base, count));
            NoneForgotten(w'.cloud, StartOf(w', last), w'.received) <==> Remembers(w, Block(base, count), last)
  {
    BlockCursor(w.cloud, base, count);
    var filled := Interval(base, base + count);
    var w' := Step(w, Block(base, count));
    assert w'.cloud.holes == w.cloud.holes - filled && w'.received == w.received + filled;
    assert w.cloud.holes <= filled <==> w'.cloud.holes == {} by {
      if w'.cloud.holes == {} {
        forall n | n in w.cloud.holes ensures n in filled {
          assert n !in w.cloud.holes - filled;
        }
      }
    }
    assert forall n :: n in w'.received <==> n in w.received || n in filled;
    if !(w'.cloud.holes == {} && w.cloud.boatHead > 0) {
      forall n: nat | w'.cloud.cursor < n < StartOf(w, last) ensures n in w'.received || n in w'.cloud.holes {
        assert n in w.received || n in w.cloud.holes;
      }
    }
  }

  lemma RememberStep(w: World, e: Event, last: bool)
    requires Sane(w, last) && HeadFits(e) && NoneForgotten(w.cloud, StartOf(w, last), w.received)
    ensures var w' := Step(w, e);
            && (NoneForgotten(w'.cloud, StartOf(w', last), w'.received) <==> Remembers(w, e, last))
            && (Remembers(w, e, last) ==> Sane(w', last))
  {
    if e.Block? {
      RememberBlock(w, e.base, e.count, last);
    }
  }

  /** Over any run, with heads that rise and fall, nothing between the cursor and the live start is
      ever forgotten if and only if every event met `Remembers` when it happened. */
  lemma {:induction false} NeverForgetsIff(es: seq<Event>, last: bool)
    requires HeadsFit(es)
    ensures NeverForgets(es, last) <==> AlwaysRemembers(es, last)
    ensures NeverForgets(es, last) ==> Sane(Run(es), last)
  {
    if es != [] {
      var front := es[..|es| - 1];
      NeverForgetsIff(front, last);
      if NeverForgets(front, last) {
        assert HeadFits(es[|es| - 1]);
        RememberStep(Run(front), es[|es| - 1], last);
      }
    }
  }

  /** Every handshake starts afresh: whatever was forgotten before it, all it leaves between the
      cursor and the start it grants is a known gap. */
  lemma HandshakeRecovers(w: World, head: nat, saved: bool)
    ensures var w' := Step(w, Handshake(head, saved)); NoneForgotten(w'.cloud, w'.granted, w'.received)
  {
  }

  /** The price of a handshake that was not saved: after a restart the cloud is where it would be
      had the handshake not happened, and what it granted counts for nothing. */
  lemma UnsavedHandshakeLost(w: World, head: nat)
    ensures Step(Step(w, Handshake(head, false)), Crash) ==
            Step(w, Crash).(granted := Grant(w.cloud.cursor, head), lastHead := head)
  {
  }

  ghost predicate AllSaved(es: seq<Event>) {
    forall i :: 0 <= i < |es| && es[i].Handshake? ==> es[i].saved
  }

  lemma {:induction false} RisingRemembers(es: seq<Event>)
    requires HeadsRise(es)
    ensures HeadsFit(es) && AlwaysRemembers(es, false)
  {
    if es != [] {
      var front, e := es[..|es| - 1], es[|es| - 1];
      RisingRemembers(front);
      SafeRun(front);
      assert HeadFits(e);
    }
  }

  lemma {:induction false} SavedStarts(es: seq<Event>)
    requires AllSaved(es)
    ensures Run(es).granted == Run(es).liveStart && Run(es).diskGranted == Run(es).diskStart == Run(es).granted
  {
    if es != [] {
      SavedStarts(es[..|es| - 1]);
    }
  }

  /** Whatever the boat sends and whenever the cloud restarts, as long as reported heads never
      go down, no number between the cursor and the live start its state goes with is ever
      forgotten, all known gaps lie below that start, and if every handshake was saved, that start
      is the last one granted. */
  lemma NothingForgotten(es: seq<Event>)
    requires HeadsRise(es)
    ensures var w := Run(es);
            && NoneForgotten(w.cloud, w.liveStart, w.received)
            && (forall n :: n in w.cloud.holes ==> n < w.liveStart)
            && (AllSaved(es) ==> w.granted == w.liveStart)
  {
    RisingRemembers(es);
    NeverForgetsIff(es, false);
    SafeRun(es);
    if AllSaved(es) {
      SavedStarts(es);
    }
  }

  /** What an event must satisfy for the cursor to stay truthful: a frame that moves the cursor
      is received, and a block that closes the last gap comes only once everything from the live
      start through the reported head is received. */
  ghost predicate Truthful(w: World, e: Event) {
    match e
    case Frame(n, accepted) => n == w.cloud.cursor + 1 ==> accepted || n in w.received
    case Block(base, count) =>
      w.cloud.holes <= Interval(base, base + count) && w.cloud.boatHead > 0 ==>
        forall n: nat :: 1 <= n && w.liveStart <= n <= w.cloud.boatHead ==>
          n in w.received || n in Interval(base, base + count)
    case _ => true
  }

  ghost predicate AlwaysTruthful(es: seq<Event>) {
    es == [] || (AlwaysTruthful(es[..|es| - 1]) && Truthful(Run(es[..|es| - 1]), es[|es| - 1]))
  }

  ghost predicate AlwaysSound(es: seq<Event>) {
    && CursorSound(Run(es).cloud, Run(es).received)
    && (es == [] || AlwaysSound(es[..|es| - 1]))
  }

  lemma SoundBlock(w: World, base: nat, count: nat)
    requires Safe(w) && CursorSound(w.cloud, w.received)
    ensures var w' := Step(w, Block(base, count));
            CursorSound(w'.cloud, w'.received) <==> Truthful(w, Block(base, count))
  {
    BlockCursor(w.cloud, base, count);
    var filled := Interval(base, base + count);
    var w' := Step(w, Block(base, count));
    assert w'.cloud.holes == w.cloud.holes - filled && w'.received == w.received + filled;
    var closing := w.cloud.holes <= filled;
    assert closing <==> w'.cloud.holes == {} by {
      if w'.cloud.holes == {} {
        forall n | n in w.cloud.holes ensures n in filled {
          assert n !in w.cloud.holes - filled;
        }
      }
    }
    if closing && w.cloud.boatHead > 0 {
      forall n: nat | 1 <= n < w.liveStart ensures n in w'.received {
        if n > w.cloud.cursor { assert n in w.received || n in w.cloud.holes; }
      }
      assert forall n :: n in w'.received <==> n in w.received || n in filled;
      assert CursorSound(w'.cloud, w'.received) <==>
             forall n: nat :: 1 <= n && w.liveStart <= n <= w.cloud.boatHead ==> n in w'.received;
      assert Truthful(w, Block(base, count)) <==>
             forall n: nat :: 1 <= n && w.liveStart <= n <= w.cloud.boatHead ==> n in w'.received;
    } else {
      forall n: nat | 1 <= n <= w'.cloud.cursor ensures n in w'.received {
        if n > w.cloud.cursor {
          assert w'.cloud.cursor + 1 < w.liveStart;
          assert n in w.received || n in w.cloud.holes;
          assert n !in w'.cloud.holes;
        }
      }
    }
  }

  lemma SoundStep(w: World, e: Event)
    requires Safe(w) && CursorSound(w.cloud, w.received) && CursorSound(w.disk, w.received)
    ensures var w' := Step(w, e);
            && (CursorSound(w'.cloud, w'.received) <==> Truthful(w, e))
            && (Truthful(w, e) ==> CursorSound(w'.disk, w'.received))
  {
    match e
    case Block(base, count) => SoundBlock(w, base, count);
    case _ =>
  }

  /** Over a run with rising heads, the cursor is truthful in every state if and only if every
      event met `Truthful` when it happened. */
  lemma {:induction false} CursorSoundIff(es: seq<Event>)
    requires HeadsRise(es)
    ensures AlwaysSound(es) <==> AlwaysTruthful(es)
    ensures AlwaysSound(es) ==> CursorSound(Run(es).disk, Run(es).received)
  {
    if es != [] {
      var front := es[..|es| - 1];
      CursorSoundIff(front);
      SafeRun(front);
      if AlwaysSound(front) {
        SoundStep(Run(front), es[|es| - 1]);
      }
    }
  }

  // ---- Runs that show the hypotheses are needed ----

  lemma RunSnoc(es: seq<Event>, e: Event)
    ensures Run(es + [e]) == Step(Run(es), e)
    ensures HeadsRise(es + [e]) <==> HeadsRise(es) && Admissible(Run(es), e)
  {
    assert (es + [e])[..|es|] == es;
  }

  /** The boat reports head 100 and backfills ten frames; no gap is known, so the cursor jumps
      to 100 although frame 50 never arrived. */
  lemma CursorCanOvertake()
    ensures var es := [Handshake(100, true), Block(1, 10)];
            HeadsRise(es) && Run(es).cloud.cursor == 100 && 50 !in Run(es).received
  {
    RunSnoc([], Handshake(100, true));
    assert [] + [Handshake(100, true)] == [Handshake(100, true)];
    RunSnoc([Handshake(100, true)], Block(1, 10));
    assert [Handshake(100, true)] + [Block(1, 10)] == [Handshake(100, true), Block(1, 10)];
    BlockCursor(Run([Handshake(100, true)]).cloud, 1, 10);
  }

  /** A report below an earlier one makes the cloud forget: frame 60 is neither received nor a
      known gap although it lies between the cursor and the live start. */
  lemma FallingHeadForgets()
    ensures var es := [Handshake(100, true), Block(1, 10), Handshake(200, true), Status(50), Block(101, 99)];
            var w := Run(es);
            w.cloud.cursor == 50 && w.granted == w.liveStart == 200 && 60 !in w.received && 60 !in w.cloud.holes
  {
    var e2 := [Handshake(100, true), Block(1, 10)];
    CursorCanOvertake();
    RunSnoc([], Handshake(100, true));
    assert [] + [Handshake(100, true)] == [Handshake(100, true)];
    RunSnoc([Handshake(100, true)], Block(1, 10));
    assert [Handshake(100, true)] + [Block(1, 10)] == e2;
    RunSnoc(e2, Handshake(200, true));
    RunSnoc(e2 + [Handshake(200, true)], Status(50));
    var e4 := e2 + [Handshake(200, true)] + [Status(50)];
    RunSnoc(e4, Block(101, 99));
    assert e4 + [Block(101, 99)] ==
           [Handshake(100, true), Block(1, 10), Handshake(200, true), Status(50), Block(101, 99)];
    BlockCursor(Run([Handshake(100, true)]).cloud, 1, 10);
    BlockCursor(Run(e4).cloud, 101, 99);
  }
}
