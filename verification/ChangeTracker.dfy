/** The change tracker and the replayer that follows it. */
module ChangeTracking {
  import opened Options
  import opened Bytes
  import opened ChangeDiff

  datatype Key = Key(source: byte, pgn: nat, subKey: nat)

  /** How changes are detected. A tolerance method wraps another one: a change is passed on to it
      only if `beyond` says so, that is if a packet does not decode or a field with a tolerance
      differs by more. */
  datatype Method = ByteMask | Tolerance(inner: Method, beyond: (seq<byte>, seq<byte>) -> bool)

  predicate Significant(m: Method, prev: seq<byte>, curr: seq<byte>) {
    match m
    case ByteMask => prev != curr
    case Tolerance(inner, beyond) => prev != curr && beyond(prev, curr) && Significant(inner, prev, curr)
  }

  /** The tolerances wrapped around each other, from the outside in. */
  function Gates(m: Method): seq<(seq<byte>, seq<byte>) -> bool> {
    match m
    case ByteMask => []
    case Tolerance(inner, beyond) => [beyond] + Gates(inner)
  }

  ghost predicate Passes(gates: seq<(seq<byte>, seq<byte>) -> bool>, prev: seq<byte>, curr: seq<byte>, i: nat)
    requires i < |gates|
  {
    gates[i](prev, curr)
  }

  /** A change is significant if and only if there is one and it is beyond every tolerance. */
  lemma {:induction false} SignificantIff(m: Method, prev: seq<byte>, curr: seq<byte>)
    ensures Significant(m, prev, curr) <==>
            prev != curr && forall i :: 0 <= i < |Gates(m)| ==> Passes(Gates(m), prev, curr, i)
  {
    match m
    case ByteMask =>
    case Tolerance(inner, beyond) =>
      SignificantIff(inner, prev, curr);
      assert Passes(Gates(m), prev, curr, 0) == beyond(prev, curr);
      forall i | 0 <= i < |Gates(inner)|
        ensures Passes(Gates(m), prev, curr, i + 1) == Passes(Gates(inner), prev, curr, i) {
      }
      if Significant(m, prev, curr) {
        forall i | 0 <= i < |Gates(m)| ensures Passes(Gates(m), prev, curr, i) {
          assert i > 0 ==> Passes(Gates(inner), prev, curr, i - 1);
        }
      } else if forall i :: 0 <= i < |Gates(m)| ==> Passes(Gates(m), prev, curr, i) {
        forall i | 0 <= i < |Gates(inner)| ensures Passes(Gates(inner), prev, curr, i) {
          assert Passes(Gates(m), prev, curr, i + 1);
        }
      }
  }

  /** The difference by a method, of packets of equal length. */
  method DiffBy(m: Method, prev: seq<byte>, curr: seq<byte>) returns (significant: bool, diff: seq<byte>)
    requires |prev| == |curr|
    ensures significant == Significant(m, prev, curr)
    ensures significant ==> |prev| > 0 && diff == DiffOf(prev, curr)
  {
    match m
    case ByteMask =>
      significant, diff := Diff(prev, curr);
    case Tolerance(inner, beyond) =>
      if prev == curr {
        return false, [];
      }
      if beyond(prev, curr) {
        significant, diff := DiffBy(inner, prev, curr);
      } else {
        return false, [];
      }
  }

  datatype Event =
    | Snapshot(key: Key, data: seq<byte>, seqNo: nat)
    | Delta(key: Key, diff: seq<byte>, seqNo: nat)
    | Idle(key: Key)

  datatype Pair = Pair(lastData: seq<byte>, lastSeen: int, idleEmitted: bool)

  type Pairs = map<Key, Pair>

  datatype Config = Config(methods: map<nat, Method>, defaultMethod: Method, subKeys: map<nat, seq<byte> -> nat>,
                           idle: nat -> int)
  {
    function MethodFor(pgn: nat): Method {
      if pgn in methods then methods[pgn] else defaultMethod
    }

    function KeyFor(source: byte, pgn: nat, data: seq<byte>): Key {
      Key(source, pgn, if pgn in subKeys then subKeys[pgn](data) else 0)
    }
  }

  /** A frame for one key: a first observation or a new length gives a snapshot, a significant
      change a delta; anything else leaves the baseline alone. */
  function Seen(cfg: Config, pairs: Pairs, key: Key, ts: int, data: seq<byte>, seqNo: nat): (Pairs, Option<Event>) {
    var now := Pair(data, ts, false);
    if key !in pairs || |pairs[key].lastData| != |data| then (pairs[key := now], Some(Snapshot(key, data, seqNo)))
    else
      var last := pairs[key].lastData;
      if Significant(cfg.MethodFor(key.pgn), last, data) && |data| > 0 then
        (pairs[key := now], Some(Delta(key, DiffOf(last, data), seqNo)))
      else (pairs[key := now.(lastData := last)], None)
  }

  /** The key or the length of its packet is new. */
  predicate IsFresh(pairs: Pairs, key: Key, data: seq<byte>) {
    key in pairs ==> |pairs[key].lastData| != |data|
  }

  predicate IsNews(cfg: Config, pairs: Pairs, key: Key, data: seq<byte>) {
    IsFresh(pairs, key, data) || Significant(cfg.MethodFor(key.pgn), pairs[key].lastData, data)
  }

  /** There is an event if and only if the key or length is new or the change significant, a whole
      packet exactly in the first case; the baseline moves exactly with an event, and no other key's does. */
  lemma EventIff(cfg: Config, pairs: Pairs, key: Key, ts: int, data: seq<byte>, seqNo: nat)
    ensures var (after, e) := Seen(cfg, pairs, key, ts, data, seqNo);
            && (e.Some? <==> IsNews(cfg, pairs, key, data))
            && (e.Some? && e.value.Snapshot? <==> IsFresh(pairs, key, data))
            && (e.Some? ==> e.value.key == key && !e.value.Idle? && e.value.seqNo == seqNo)
            && after.Keys == pairs.Keys + {key} && after[key].lastSeen == ts && !after[key].idleEmitted
            && after[key].lastData == (if e.Some? then data else pairs[key].lastData)
            && forall k :: k in pairs && k != key ==> after[k] == pairs[k]
  {
    if !IsFresh(pairs, key, data) && Significant(cfg.MethodFor(key.pgn), pairs[key].lastData, data) {
      Differs(cfg.MethodFor(key.pgn), pairs[key].lastData, data);
    }
  }

  class ChangeTracker {
    const cfg: Config
    var pairs: Pairs

    constructor (cfg: Config)
      ensures this.cfg == cfg && pairs == map[]
    {
      this.cfg, pairs := cfg, map[];
    }

    method Process(ts: int, source: byte, pgn: nat, data: seq<byte>, seqNo: nat) returns (e: Option<Event>)
      modifies this
      ensures (pairs, e) == Seen(cfg, old(pairs), cfg.KeyFor(source, pgn, data), ts, data, seqNo)
      ensures e.Some? <==> IsNews(cfg, old(pairs), cfg.KeyFor(source, pgn, data), data)
    {
      var key := cfg.KeyFor(source, pgn, data);
      EventIff(cfg, pairs, key, ts, data, seqNo);
      if key !in pairs {
        pairs := pairs[key := Pair(data, ts, false)];
        return Some(Snapshot(key, data, seqNo));
      }
      var pair := pairs[key].(lastSeen := ts, idleEmitted := false);
      if |pair.lastData| != |data| {
        pairs := pairs[key := pair.(lastData := data)];
        return Some(Snapshot(key, data, seqNo));
      }
      var sig, diff := DiffBy(cfg.MethodFor(pgn), pair.lastData, data);
      if !sig {
        pairs := pairs[key := pair];
        return None;
      }
      pairs := pairs[key := pair.(lastData := data)];
      return Some(Delta(key, diff, seqNo));
    }

    /** Idle events, each at most once until the key is seen again. */
    method Tick(now: int) returns (events: seq<Event>)
      modifies this
      ensures forall k :: Idle(k) in events <==>
                k in old(pairs) && !old(pairs)[k].idleEmitted && now >= old(pairs)[k].lastSeen + cfg.idle(k.pgn)
      ensures pairs == Ticked(cfg, old(pairs), now)
      ensures forall i :: 0 <= i < |events| ==> events[i].Idle?
      ensures EachOnce(events)
    {
      events := [];
      var todo := pairs.Keys;
      while todo != {}
        invariant todo <= old(pairs).Keys == pairs.Keys
        invariant forall k :: k in pairs ==>
                    pairs[k] == old(pairs)[k].(idleEmitted := old(pairs)[k].idleEmitted ||
                                               (k !in todo && Due(cfg, old(pairs), k, now)))
        invariant forall k :: Idle(k) in events <==> k in old(pairs) && k !in todo && Due(cfg, old(pairs), k, now)
        invariant forall i :: 0 <= i < |events| ==> events[i].Idle?
        invariant EachOnce(events)
        decreases |todo|
      {
        var key :| key in todo;
        if !pairs[key].idleEmitted && now - pairs[key].lastSeen >= cfg.idle(key.pgn) {
          pairs := pairs[key := pairs[key].(idleEmitted := true)];
          OneMore(events, Idle(key));
          events := events + [Idle(key)];
        }
        todo := todo - {key};
      }
    }

    method Reset()
      modifies this
      ensures pairs == map[]
    {
      pairs := map[];
    }

    method Remove(key: Key)
      modifies this
      ensures pairs == old(pairs) - {key}
    {
      pairs := pairs - {key};
    }
  }

  ghost predicate EachOnce(events: seq<Event>) {
    forall i, j :: 0 <= i < j < |events| ==> events[i] != events[j]
  }

  lemma OneMore(events: seq<Event>, e: Event)
    requires EachOnce(events) && e !in events
    ensures EachOnce(events + [e])
  {
  }

  predicate Due(cfg: Config, pairs: Pairs, k: Key, now: int)
    requires k in pairs
  {
    !pairs[k].idleEmitted && now - pairs[k].lastSeen >= cfg.idle(k.pgn)
  }

  function Ticked(cfg: Config, pairs: Pairs, now: int): Pairs {
    map k | k in pairs :: pairs[k].(idleEmitted := pairs[k].idleEmitted || Due(cfg, pairs, k, now))
  }

  // ---- The replayer ----

  type Replayed = map<Key, seq<byte>>

  datatype ApplyResult = Failed | Nothing | Rebuilt(data: seq<byte>)

  /** The state after an event, and what is returned for it. Every method applies differences the
      same way, since tolerances only decide which ones are made. */
  function Replay(state: Replayed, e: Event): (Replayed, ApplyResult) {
    match e
    case Snapshot(key, data, _) => (state[key := data], Rebuilt(data))
    case Idle(_) => (state, Nothing)
    case Delta(key, diff, _) =>
      if key !in state then (state, Failed)
      else
        match Apply(state[key], diff)
        case None => (state, Failed)
        case Some(full) => (state[key := full], Rebuilt(full))
  }

  class ChangeReplayer {
    var state: Replayed

    constructor ()
      ensures state == map[]
    {
      state := map[];
    }

    method ApplyEvent(e: Event) returns (r: ApplyResult)
      modifies this
      ensures (state, r) == Replay(old(state), e)
    {
      match e
      case Snapshot(key, data, _) =>
        state := state[key := data];
        return Rebuilt(data);
      case Idle(_) =>
        return Nothing;
      case Delta(key, diff, _) =>
        if key !in state {
          return Failed;
        }
        var full := Patch(state[key], diff);
        if full.None? {
          return Failed;
        }
        state := state[key := full.value];
        return Rebuilt(full.value);
    }
  }

  // ---- Tracker and replayer side by side ----

  datatype Op =
    | Process(ts: int, source: byte, pgn: nat, data: seq<byte>, seqNo: nat)
    | Tick(now: int)
    | Remove(key: Key)
    | Reset

  /** `latest` is the last frame processed for each key. */
  datatype World = World(pairs: Pairs, state: Replayed, latest: Replayed)

  function Step(cfg: Config, w: World, op: Op): World {
    match op
    case Process(ts, source, pgn, data, seqNo) =>
      var key := cfg.KeyFor(source, pgn, data);
      var (pairs, e) := Seen(cfg, w.pairs, key, ts, data, seqNo);
      World(pairs, Followed(w.state, e), w.latest[key := data])
    case Tick(now) => w.(pairs := Ticked(cfg, w.pairs, now))
    case Remove(key) => w.(pairs := w.pairs - {key})
    case Reset => w.(pairs := map[])
  }

  function Run(cfg: Config, ops: seq<Op>): World {
    if ops == [] then World(map[], map[], map[]) else Step(cfg, Run(cfg, ops[..|ops| - 1]), ops[|ops| - 1])
  }

  /** For a tracked key the replayer holds the tracker's baseline, and the latest frame does not
      differ significantly from it. */
  ghost predicate Follows(cfg: Config, w: World, k: Key)
    requires k in w.pairs
  {
    && k in w.state && w.state[k] == w.pairs[k].lastData
    && k in w.latest && |w.latest[k]| == |w.pairs[k].lastData|
    && !Significant(cfg.MethodFor(k.pgn), w.pairs[k].lastData, w.latest[k])
  }

  ghost predicate Inv(cfg: Config, w: World) {
    forall k {:trigger Follows(cfg, w, k)} :: k in w.pairs ==> Follows(cfg, w, k)
  }

  lemma SameInsignificant(m: Method, data: seq<byte>)
    ensures !Significant(m, data, data)
  {
  }

  /** The frame, if it gives a delta, is short enough for one. */
  predicate Carried(cfg: Config, pairs: Pairs, key: Key, data: seq<byte>) {
    key in pairs && |pairs[key].lastData| == |data| && Significant(cfg.MethodFor(key.pgn), pairs[key].lastData, data)
    ==> |data| <= LONGEST
  }

  function Followed(state: Replayed, e: Option<Event>): Replayed {
    if e.Some? then Replay(state, e.value).0 else state
  }

  lemma DeltaFollowed(cfg: Config, w: World, key: Key, data: seq<byte>, seqNo: nat)
    requires key in w.pairs && Follows(cfg, w, key) && |w.pairs[key].lastData| == |data| > 0
    requires Significant(cfg.MethodFor(key.pgn), w.pairs[key].lastData, data)
    ensures var r := Replay(w.state, Delta(key, DiffOf(w.pairs[key].lastData, data), seqNo));
            if |data| <= LONGEST then r == (w.state[key := data], Rebuilt(data)) else r == (w.state, Failed)
  {
    ApplyDiffIff(w.pairs[key].lastData, data);
  }

  /** The replayer follows a frame, and returns for its event exactly the frame it stands for, if
      and only if the frame is carried; otherwise it fails. */
  lemma FrameFollowed(cfg: Config, w: World, key: Key, ts: int, data: seq<byte>, seqNo: nat)
    requires key in w.pairs ==> Follows(cfg, w, key)
    ensures var (pairs, e) := Seen(cfg, w.pairs, key, ts, data, seqNo);
            && (e.Some? ==>
                Replay(w.state, e.value).1 == if Carried(cfg, w.pairs, key, data) then Rebuilt(data) else Failed)
            && key in pairs
            && (Follows(cfg, World(pairs, Followed(w.state, e), w.latest[key := data]), key) <==>
                Carried(cfg, w.pairs, key, data))
  {
    var m := cfg.MethodFor(key.pgn);
    SameInsignificant(m, data);
    if key in w.pairs && |w.pairs[key].lastData| == |data| && Significant(m, w.pairs[key].lastData, data) {
      Differs(m, w.pairs[key].lastData, data);
      DeltaFollowed(cfg, w, key, data, seqNo);
    }
  }

  lemma Differs(m: Method, prev: seq<byte>, curr: seq<byte>)
    requires Significant(m, prev, curr) && |prev| == |curr|
    ensures prev != curr && |curr| > 0
  {
  }

  predicate CarriedIn(cfg: Config, w: World, op: Op) {
    op.Process? ==> Carried(cfg, w.pairs, cfg.KeyFor(op.source, op.pgn, op.data), op.data)
  }

  lemma InvStep(cfg: Config, w: World, op: Op)
    requires Inv(cfg, w)
    ensures Inv(cfg, Step(cfg, w, op)) <==> CarriedIn(cfg, w, op)
  {
    var next := Step(cfg, w, op);
    if op.Process? {
      var key := cfg.KeyFor(op.source, op.pgn, op.data);
      assert key in w.pairs ==> Follows(cfg, w, key);
      FrameFollowed(cfg, w, key, op.ts, op.data, op.seqNo);
      forall k | k in next.pairs && k != key ensures Follows(cfg, next, k) {
        assert Follows(cfg, w, k);
      }
      assert key in next.pairs;
    } else {
      forall k | k in next.pairs ensures Follows(cfg, next, k) {
        assert Follows(cfg, w, k);
      }
    }
  }

  /** The invariant holds in every state of the run. */
  ghost predicate Always(cfg: Config, ops: seq<Op>) {
    Inv(cfg, Run(cfg, ops)) && (ops == [] || Always(cfg, ops[..|ops| - 1]))
  }

  predicate AllCarried(cfg: Config, ops: seq<Op>) {
    ops == [] ||
    (AllCarried(cfg, ops[..|ops| - 1]) && CarriedIn(cfg, Run(cfg, ops[..|ops| - 1]), ops[|ops| - 1]))
  }

  /** In every state of a run, for every tracked key, the replayer's data is the tracker's baseline
      and the latest frame does not differ significantly from it, so that tolerances do not drift:
      if and only if no delta is made of a frame longer than a mask can describe. */
  lemma {:induction false} NeverDrifts(cfg: Config, ops: seq<Op>)
    ensures Always(cfg, ops) <==> AllCarried(cfg, ops)
  {
    if ops != [] {
      var front := ops[..|ops| - 1];
      NeverDrifts(cfg, front);
      if Always(cfg, front) {
        InvStep(cfg, Run(cfg, front), ops[|ops| - 1]);
      }
    }
  }
}
