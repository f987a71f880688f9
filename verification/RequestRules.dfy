/** The request-rate engine: rules say which data of which devices to keep fresh, and no request for
    the same datum, or any request at all, goes out too soon after the last. */
module RequestRules {
  import opened Options
  import opened Bytes

  datatype DevKey = DevKey(bus: string, source: byte)

  datatype Want = Want(pgn: nat, subKey: nat, hasSubKey: bool)

  datatype Via = ISORequest | ByFrame(framePgn: nat, readOff: int, readLen: nat)

  /** `matches` says which devices a rule applies to; a device is known by its key and identity. */
  datatype Rule = Rule(matches: Device -> bool, wants: seq<Want>, via: Via,
                       minInterval: int, maxAge: int, onOnline: bool, invalidateOn: seq<nat>)

  datatype Device = Device(key: DevKey, identity: string)

  /** What is tracked for one datum of one device under one rule. */
  datatype Target = Target(rule: nat, dev: DevKey, pgn: nat, subKey: nat)

  datatype Track = Track(lastRequested: Option<int>, lastReceived: int, haveData: bool)

  const UNKNOWN := Track(None, 0, false)

  datatype State = State(rules: seq<Rule>, globalMin: int, devices: map<DevKey, Device>, track: map<Target, Track>,
                         lastGlobal: Option<int>)

  function TargetOf(idx: nat, dev: DevKey, w: Want): Target {
    Target(idx, dev, w.pgn, w.subKey)
  }

  function TrackOf(s: State, k: Target): Track {
    if k in s.track then s.track[k] else UNKNOWN
  }

  // ---- One decision ----

  /** Neither the same datum nor any datum was requested too recently, and the datum is missing or old. */
  predicate Allowed(s: State, k: Target, now: int)
    requires k.rule < |s.rules|
  {
    var t, r := TrackOf(s, k), s.rules[k.rule];
    && (t.lastRequested.Some? ==> now - t.lastRequested.value >= r.minInterval)
    && (t.haveData ==> r.maxAge > 0 && now - t.lastReceived >= r.maxAge)
    && (s.globalMin > 0 && s.lastGlobal.Some? ==> now - s.lastGlobal.value >= s.globalMin)
  }

  function Considered(s: State, k: Target, now: int): State
    requires k.rule < |s.rules|
  {
    if Allowed(s, k, now) then s.(track := s.track[k := TrackOf(s, k).(lastRequested := Some(now))],
                                  lastGlobal := Some(now))
    else s.(track := s.track[k := TrackOf(s, k)])
  }

  // ---- What an event comes down to ----

  /** The steps events are made of. */
  datatype Micro =
    | Online(d: Device)
    | Consider(k: Target, now: int)
    | Fresh(k: Target, now: int)
    | Stale(k: Target)
    | Offline(dev: DevKey)

  /** Requests sent, and devices that went offline, in order. */
  datatype Entry = Sent(k: Target, at: int) | Gone(dev: DevKey)

  predicate Proper(m: Micro, rules: seq<Rule>) {
    m.Consider? ==> m.k.rule < |rules|
  }

  function Do(s: State, m: Micro): State
    requires Proper(m, s.rules)
  {
    match m
    case Online(d) => s.(devices := s.devices[d.key := d])
    case Consider(k, now) => Considered(s, k, now)
    case Fresh(k, now) => s.(track := s.track[k := TrackOf(s, k).(haveData := true, lastReceived := now)])
    case Stale(k) => s.(track := s.track[k := TrackOf(s, k).(haveData := false)])
    case Offline(dev) => s.(devices := s.devices - {dev}, track := map k | k in s.track && k.dev != dev :: s.track[k])
  }

  function Emits(s: State, m: Micro): seq<Entry>
    requires Proper(m, s.rules)
  {
    match m
    case Consider(k, now) => if Allowed(s, k, now) then [Sent(k, now)] else []
    case Offline(dev) => [Gone(dev)]
    case _ => []
  }

  ghost predicate AllProper(ms: seq<Micro>, rules: seq<Rule>) {
    forall i :: 0 <= i < |ms| ==> Proper(ms[i], rules)
  }

  /** The state and log after some steps. */
  datatype Outcome = Outcome(s: State, log: seq<Entry>)

  type Stepper = (State, Micro) -> Outcome

  function Stepping(): Stepper {
    (s: State, m: Micro) => if Proper(m, s.rules) then Outcome(Do(s, m), Emits(s, m)) else Outcome(s, [])
  }

  ghost predicate StepsAt(step: Stepper, s: State, m: Micro) {
    Proper(m, s.rules) ==> step(s, m) == Outcome(Do(s, m), Emits(s, m))
  }

  /** `step` does and logs what the engine does. */
  ghost predicate Steps(step: Stepper) {
    forall s, m {:trigger StepsAt(step, s, m)} :: StepsAt(step, s, m)
  }

  function Perform(step: Stepper, s: State, ms: seq<Micro>): Outcome {
    if ms == [] then Outcome(s, [])
    else
      var o := Perform(step, s, ms[..|ms| - 1]);
      var r := step(o.s, ms[|ms| - 1]);
      Outcome(r.s, o.log + r.log)
  }

  /** Looking at every want of a rule. */
  function ForWants(rules: seq<Rule>, idx: nat, dev: DevKey, now: int, n: nat): (ms: seq<Micro>)
    requires idx < |rules| && n <= |rules[idx].wants|
    ensures AllProper(ms, rules)
  {
    if n == 0 then []
    else ForWants(rules, idx, dev, now, n - 1) + [Consider(TargetOf(idx, dev, rules[idx].wants[n - 1]), now)]
  }

  /** The rule requests data of this device when it appears. */
  predicate Asks(r: Rule, d: Device) {
    r.onOnline && Applies(r, d)
  }

  predicate Applies(r: Rule, d: Device) {
    r.matches(d)
  }

  function ForOnline(rules: seq<Rule>, d: Device, now: int, n: nat): (ms: seq<Micro>)
    requires n <= |rules|
    ensures AllProper(ms, rules)
  {
    if n == 0 then []
    else
      var r := rules[n - 1];
      ForOnline(rules, d, now, n - 1) + if Asks(r, d) then ForWants(rules, n - 1, d.key, now, |r.wants|) else []
  }

  function ReadLE(data: seq<byte>, off: int, len: nat): Option<nat> {
    if len == 0 || len > 4 || off < 0 || off + len > |data| then None else Some(GetLE(data[off..off + len]))
  }

  /** The frame answers the want. */
  predicate Answers(r: Rule, w: Want, pgn: nat, data: seq<byte>) {
    match r.via
    case ISORequest => w.pgn == pgn
    case ByFrame(framePgn, readOff, readLen) =>
      pgn == framePgn && (!w.hasSubKey || readLen == 0 || ReadLE(data, readOff, readLen) == Some(w.subKey))
  }

  function FreshWants(r: Rule, idx: nat, dev: DevKey, pgn: nat, data: seq<byte>, now: int, n: nat): (ms: seq<Micro>)
    requires n <= |r.wants|
    ensures forall i :: 0 <= i < |ms| ==> ms[i].Fresh?
  {
    if n == 0 then []
    else
      var w := r.wants[n - 1];
      FreshWants(r, idx, dev, pgn, data, now, n - 1) +
      if Answers(r, w, pgn, data) then [Fresh(TargetOf(idx, dev, w), now)] else []
  }

  function ForFresh(rules: seq<Rule>, d: Device, pgn: nat, data: seq<byte>, now: int, n: nat): (ms: seq<Micro>)
    requires n <= |rules|
    ensures AllProper(ms, rules)
  {
    if n == 0 then []
    else
      var r := rules[n - 1];
      ForFresh(rules, d, pgn, data, now, n - 1) +
      if Applies(r, d) then FreshWants(r, n - 1, d.key, pgn, data, now, |r.wants|) else []
  }

  function StaleWants(rules: seq<Rule>, idx: nat, dev: DevKey, now: int, n: nat): (ms: seq<Micro>)
    requires idx < |rules| && n <= |rules[idx].wants|
    ensures AllProper(ms, rules)
  {
    if n == 0 then []
    else
      var k := TargetOf(idx, dev, rules[idx].wants[n - 1]);
      StaleWants(rules, idx, dev, now, n - 1) + [Stale(k), Consider(k, now)]
  }

  /** The rules a PGN invalidates, once for each time they name it. */
  function Naming(pgns: seq<nat>, pgn: nat, idx: nat, n: nat): (idxs: seq<nat>)
    requires n <= |pgns|
    ensures forall i :: 0 <= i < |idxs| ==> idxs[i] == idx
    ensures pgn !in pgns ==> idxs == []
  {
    if n == 0 then [] else Naming(pgns, pgn, idx, n - 1) + if pgns[n - 1] == pgn then [idx] else []
  }

  function ByInvalidate(rules: seq<Rule>, pgn: nat, n: nat): (idxs: seq<nat>)
    requires n <= |rules|
    ensures forall i :: 0 <= i < |idxs| ==> idxs[i] < |rules|
  {
    if n == 0 then []
    else ByInvalidate(rules, pgn, n - 1) + Naming(rules[n - 1].invalidateOn, pgn, n - 1, |rules[n - 1].invalidateOn|)
  }

  function ForStale(rules: seq<Rule>, idxs: seq<nat>, d: Device, now: int, n: nat): (ms: seq<Micro>)
    requires n <= |idxs| && forall i :: 0 <= i < |idxs| ==> idxs[i] < |rules|
    ensures AllProper(ms, rules)
  {
    if n == 0 then []
    else
      var r := rules[idxs[n - 1]];
      ForStale(rules, idxs, d, now, n - 1) +
      if Applies(r, d) then StaleWants(rules, idxs[n - 1], d.key, now, |r.wants|) else []
  }

  function ForDevices(s: State, idx: nat, order: seq<DevKey>, now: int, n: nat): (ms: seq<Micro>)
    requires idx < |s.rules| && n <= |order|
    ensures AllProper(ms, s.rules)
  {
    if n == 0 then []
    else
      var r, dev := s.rules[idx], order[n - 1];
      ForDevices(s, idx, order, now, n - 1) +
      if dev in s.devices && Applies(r, s.devices[dev]) then
        ForWants(s.rules, idx, s.devices[dev].key, now, |r.wants|)
      else []
  }

  /** `orders` is the order in which each rule meets the devices. */
  function ForTick(s: State, orders: seq<seq<DevKey>>, now: int, n: nat): (ms: seq<Micro>)
    requires n <= |s.rules| == |orders|
    ensures AllProper(ms, s.rules)
  {
    if n == 0 then []
    else
      var r := s.rules[n - 1];
      ForTick(s, orders, now, n - 1) +
      if r.maxAge <= 0 && !r.onOnline then [] else ForDevices(s, n - 1, orders[n - 1], now, |orders[n - 1]|)
  }

  function ForFrame(s: State, dev: DevKey, pgn: nat, data: seq<byte>, now: int): (ms: seq<Micro>)
    ensures AllProper(ms, s.rules)
  {
    if dev !in s.devices then []
    else
      var d, idxs := s.devices[dev], ByInvalidate(s.rules, pgn, |s.rules|);
      ForFresh(s.rules, d, pgn, data, now, |s.rules|) + ForStale(s.rules, idxs, d, now, |idxs|)
  }

  lemma PerformSnoc(step: Stepper, s: State, ms: seq<Micro>, m: Micro)
    ensures var o := Perform(step, s, ms);
            var r := step(o.s, m);
            Perform(step, s, ms + [m]) == Outcome(r.s, o.log + r.log)
  {
    assert (ms + [m])[..|ms|] == ms;
  }

  lemma Regroup(a: seq<Micro>, b: seq<Micro>, c: seq<Micro>)
    ensures a + b + c == a + (b + c)
  {
  }

  lemma RegroupLog(a: seq<Entry>, b: seq<Entry>, c: seq<Entry>)
    ensures a + b + c == a + (b + c)
  {
  }

  lemma NextWant(before: seq<Micro>, rules: seq<Rule>, idx: nat, dev: DevKey, now: int, j: nat)
    requires idx < |rules| && j < |rules[idx].wants|
    ensures before + ForWants(rules, idx, dev, now, j) + [Consider(TargetOf(idx, dev, rules[idx].wants[j]), now)] ==
            before + ForWants(rules, idx, dev, now, j + 1)
  {
    Regroup(before, ForWants(rules, idx, dev, now, j), [Consider(TargetOf(idx, dev, rules[idx].wants[j]), now)]);
  }

  // ---- The engine ----

  class Engine {
    var s: State // the fields of the engine
    ghost const start: State
    ghost const step: Stepper
    ghost var done: seq<Micro>
    ghost var log: seq<Entry>

    /** The engine has done exactly these steps, and sent what they send. */
    ghost predicate Valid()
      reads this
    {
      && Steps(step) && start == Initial(s.rules, s.globalMin)
      && AllProper(done, s.rules) && Perform(step, start, done) == Outcome(s, log)
    }

    constructor (rules: seq<Rule>, globalMin: int)
      ensures Valid() && s == Initial(rules, globalMin) && done == [] && log == []
    {
      s, start := Initial(rules, globalMin), Initial(rules, globalMin);
      step, done, log := Stepping(), [], [];
    }

    /** One decision: `out` holds the request, if one is to be sent. */
    method ConsiderTarget(k: Target, now: int) returns (out: seq<Entry>)
      requires Valid() && k.rule < |s.rules|
      modifies this`s, this`done, this`log
      ensures Valid() && s.rules == old(s.rules) && s.devices == old(s.devices)
      ensures done == old(done) + [Consider(k, now)]
      ensures log == old(log) + out
    {
      PerformSnoc(step, start, done, Consider(k, now));
      assert StepsAt(step, s, Consider(k, now)) && log + [] == log;
      var r, t := s.rules[k.rule], TrackOf(s, k);
      done := done + [Consider(k, now)];
      var blocked := false;
      if t.lastRequested.Some? && now - t.lastRequested.value < r.minInterval {
        blocked := true;
      } else if t.haveData && (r.maxAge <= 0 || now - t.lastReceived < r.maxAge) {
        blocked := true;
      } else if s.globalMin > 0 && s.lastGlobal.Some? && now - s.lastGlobal.value < s.globalMin {
        blocked := true;
      }
      if blocked {
        s := s.(track := s.track[k := t]);
        return [];
      }
      s := s.(track := s.track[k := t.(lastRequested := Some(now))], lastGlobal := Some(now));
      log := log + [Sent(k, now)];
      return [Sent(k, now)];
    }

    /** All wants of a rule, in order. */
    method ConsiderWants(idx: nat, dev: DevKey, now: int) returns (out: seq<Entry>)
      requires Valid() && idx < |s.rules|
      modifies this`s, this`done, this`log
      ensures Valid() && s.rules == old(s.rules) && s.devices == old(s.devices)
      ensures done == old(done) + ForWants(s.rules, idx, dev, now, |s.rules[idx].wants|)
      ensures log == old(log) + out
    {
      out := [];
      var wants := s.rules[idx].wants;
      for j := 0 to |wants|
        invariant Valid() && s.rules == old(s.rules) && s.devices == old(s.devices)
        invariant done == old(done) + ForWants(s.rules, idx, dev, now, j) && log == old(log) + out
      {
        var k := TargetOf(idx, dev, wants[j]);
        NextWant(old(done), s.rules, idx, dev, now, j);
        var sent := ConsiderTarget(k, now);
        RegroupLog(old(log), out, sent);
        out := out + sent;
      }
    }

    /** A device appears, or its identity is updated. */
    method OnDeviceOnline(d: Device, now: int) returns (out: seq<Entry>)
      requires Valid()
      modifies this
      ensures Valid() && s.rules == old(s.rules)
      ensures done == old(done) + ([Online(d)] + ForOnline(s.rules, d, now, |s.rules|))
      ensures log == old(log) + out
    {
      Step(Online(d));
      Regroup(old(done), [Online(d)], ForOnline(s.rules, d, now, |s.rules|));
      out := ConsiderOnline(d, now);
    }

    method ConsiderOnline(d: Device, now: int) returns (out: seq<Entry>)
      requires Valid()
      modifies this`s, this`done, this`log
      ensures Valid() && s.rules == old(s.rules) && s.devices == old(s.devices)
      ensures done == old(done) + ForOnline(s.rules, d, now, |s.rules|) && log == old(log) + out
    {
      out := [];
      for i := 0 to |s.rules|
        invariant Valid() && s.rules == old(s.rules) && s.devices == old(s.devices)
        invariant done == old(done) + ForOnline(s.rules, d, now, i) && log == old(log) + out
      {
        if Asks(s.rules[i], d) {
          Regroup(old(done), ForOnline(s.rules, d, now, i), ForWants(s.rules, i, d.key, now, |s.rules[i].wants|));
          var sent := ConsiderWants(i, d.key, now);
          RegroupLog(old(log), out, sent);
          out := out + sent;
        }
      }
    }

    /** A frame: wants it answers become fresh, then the rules it invalidates are looked at again. */
    method OnFrame(dev: DevKey, pgn: nat, data: seq<byte>, now: int) returns (out: seq<Entry>)
      requires Valid()
      modifies this
      ensures Valid() && s.rules == old(s.rules) && s.devices == old(s.devices)
      ensures done == old(done) + ForFrame(old(s), dev, pgn, data, now) && log == old(log) + out
    {
      if dev !in s.devices {
        return [];
      }
      var d, idxs := s.devices[dev], ByInvalidate(s.rules, pgn, |s.rules|);
      MarkFresh(d, pgn, data, now);
      ghost var first := ForFresh(s.rules, d, pgn, data, now, |s.rules|);
      Regroup(old(done), first, ForStale(s.rules, idxs, d, now, |idxs|));
      out := Invalidate(d, idxs, now);
    }

    method MarkFresh(d: Device, pgn: nat, data: seq<byte>, now: int)
      requires Valid()
      modifies this`s, this`done
      ensures Valid() && s.rules == old(s.rules) && s.devices == old(s.devices)
      ensures done == old(done) + ForFresh(s.rules, d, pgn, data, now, |s.rules|)
    {
      for i := 0 to |s.rules|
        invariant Valid() && s.rules == old(s.rules) && s.devices == old(s.devices)
        invariant done == old(done) + ForFresh(s.rules, d, pgn, data, now, i)
      {
        if Applies(s.rules[i], d) {
          Regroup(old(done), ForFresh(s.rules, d, pgn, data, now, i),
                  FreshWants(s.rules[i], i, d.key, pgn, data, now, |s.rules[i].wants|));
          MarkWants(i, d.key, pgn, data, now);
        }
      }
    }

    method MarkWants(idx: nat, dev: DevKey, pgn: nat, data: seq<byte>, now: int)
      requires Valid() && idx < |s.rules|
      modifies this`s, this`done
      ensures Valid() && s.rules == old(s.rules) && s.devices == old(s.devices)
      ensures done == old(done) + FreshWants(s.rules[idx], idx, dev, pgn, data, now, |s.rules[idx].wants|)
    {
      var r := s.rules[idx];
      for j := 0 to |r.wants|
        invariant Valid() && s.rules == old(s.rules) && s.devices == old(s.devices)
        invariant done == old(done) + FreshWants(r, idx, dev, pgn, data, now, j)
      {
        if Answers(r, r.wants[j], pgn, data) {
          Regroup(old(done), FreshWants(r, idx, dev, pgn, data, now, j), [Fresh(TargetOf(idx, dev, r.wants[j]), now)]);
          Step(Fresh(TargetOf(idx, dev, r.wants[j]), now));
        }
      }
    }

    method Invalidate(d: Device, idxs: seq<nat>, now: int) returns (out: seq<Entry>)
      requires Valid() && forall i :: 0 <= i < |idxs| ==> idxs[i] < |s.rules|
      modifies this`s, this`done, this`log
      ensures Valid() && s.rules == old(s.rules) && s.devices == old(s.devices)
      ensures done == old(done) + ForStale(s.rules, idxs, d, now, |idxs|) && log == old(log) + out
    {
      out := [];
      for i := 0 to |idxs|
        invariant Valid() && s.rules == old(s.rules) && s.devices == old(s.devices)
        invariant done == old(done) + ForStale(s.rules, idxs, d, now, i) && log == old(log) + out
      {
        if Applies(s.rules[idxs[i]], d) {
          Regroup(old(done), ForStale(s.rules, idxs, d, now, i),
                  StaleWants(s.rules, idxs[i], d.key, now, |s.rules[idxs[i]].wants|));
          var sent := InvalidateWants(idxs[i], d.key, now);
          RegroupLog(old(log), out, sent);
          out := out + sent;
        }
      }
    }

    method InvalidateWants(idx: nat, dev: DevKey, now: int) returns (out: seq<Entry>)
      requires Valid() && idx < |s.rules|
      modifies this`s, this`done, this`log
      ensures Valid() && s.rules == old(s.rules) && s.devices == old(s.devices)
      ensures done == old(done) + StaleWants(s.rules, idx, dev, now, |s.rules[idx].wants|) && log == old(log) + out
    {
      out := [];
      for j := 0 to |s.rules[idx].wants|
        invariant Valid() && s.rules == old(s.rules) && s.devices == old(s.devices)
        invariant done == old(done) + StaleWants(s.rules, idx, dev, now, j) && log == old(log) + out
      {
        var k := TargetOf(idx, dev, s.rules[idx].wants[j]);
        ghost var before, ms := done, StaleWants(s.rules, idx, dev, now, j);
        Step(Stale(k));
        var sent := ConsiderTarget(k, now);
        assert done == before + [Stale(k), Consider(k, now)];
        Regroup(old(done), ms, [Stale(k), Consider(k, now)]);
        RegroupLog(old(log), out, sent);
        out := out + sent;
      }
    }

    /** The periodic refresh. Each rule meets the devices in the order the map iteration happens
        to have, which is an input here. */
    method Tick(now: int, orders: seq<seq<DevKey>>) returns (out: seq<Entry>)
      requires Valid() && |orders| == |s.rules|
      modifies this
      ensures Valid() && s.rules == old(s.rules) && s.devices == old(s.devices)
      ensures done == old(done) + ForTick(old(s), orders, now, |s.rules|) && log == old(log) + out
    {
      out := [];
      ghost var at := s;
      for i := 0 to |s.rules|
        invariant Valid() && s.rules == at.rules && s.devices == at.devices
        invariant done == old(done) + ForTick(at, orders, now, i) && log == old(log) + out
      {
        if s.rules[i].maxAge > 0 || s.rules[i].onOnline {
          Regroup(old(done), ForTick(at, orders, now, i), ForDevices(at, i, orders[i], now, |orders[i]|));
          var sent := TickRule(i, now, orders[i], at);
          RegroupLog(old(log), out, sent);
          out := out + sent;
        }
      }
    }

    method TickRule(idx: nat, now: int, order: seq<DevKey>, ghost at: State) returns (out: seq<Entry>)
      requires Valid() && idx < |s.rules| && s.rules == at.rules && s.devices == at.devices
      modifies this`s, this`done, this`log
      ensures Valid() && s.rules == at.rules && s.devices == at.devices
      ensures done == old(done) + ForDevices(at, idx, order, now, |order|) && log == old(log) + out
    {
      out := [];
      for j := 0 to |order|
        invariant Valid() && s.rules == at.rules && s.devices == at.devices
        invariant done == old(done) + ForDevices(at, idx, order, now, j) && log == old(log) + out
      {
        var dev := order[j];
        if dev in s.devices && Applies(s.rules[idx], s.devices[dev]) {
          Regroup(old(done), ForDevices(at, idx, order, now, j),
                  ForWants(at.rules, idx, s.devices[dev].key, now, |s.rules[idx].wants|));
          var sent := ConsiderWants(idx, s.devices[dev].key, now);
          RegroupLog(old(log), out, sent);
          out := out + sent;
        }
      }
    }

    /** A step that sends nothing. */
    method Step(m: Micro)
      requires Valid() && (m.Online? || m.Fresh? || m.Stale?)
      modifies this`s, this`done
      ensures Valid() && s.rules == old(s.rules) && (!m.Online? ==> s.devices == old(s.devices))
      ensures done == old(done) + [m]
    {
      PerformSnoc(step, start, done, m);
      assert StepsAt(step, s, m) && log + [] == log;
      done := done + [m];
      match m
      case Online(d) => s := s.(devices := s.devices[d.key := d]);
      case Fresh(k, now) => s := s.(track := s.track[k := TrackOf(s, k).(haveData := true, lastReceived := now)]);
      case Stale(k) => s := s.(track := s.track[k := TrackOf(s, k).(haveData := false)]);
    }

    method OnDeviceOffline(dev: DevKey)
      requires Valid()
      modifies this
      ensures Valid() && s.rules == old(s.rules) && done == old(done) + [Offline(dev)] && log == old(log) + [Gone(dev)]
    {
      PerformSnoc(step, start, done, Offline(dev));
      assert StepsAt(step, s, Offline(dev));
      var left := Without(s.track, dev);
      s := s.(devices := s.devices - {dev}, track := left);
      done, log := done + [Offline(dev)], log + [Gone(dev)];
    }
  }

  function Initial(rules: seq<Rule>, globalMin: int): State {
    State(rules, globalMin, map[], map[], None)
  }

  method Without(track: map<Target, Track>, dev: DevKey) returns (left: map<Target, Track>)
    ensures left == map k | k in track && k.dev != dev :: track[k]
  {
    left := track;
    var todo := track.Keys;
    while todo != {}
      invariant todo <= track.Keys && left.Keys <= track.Keys
      invariant forall k :: k in track ==> (k in left <==> k in todo || k.dev != dev)
      invariant forall k :: k in left ==> left[k] == track[k]
      decreases |todo|
    {
      var k :| k in todo;
      if k.dev == dev {
        left := left - {k};
      }
      todo := todo - {k};
    }
  }

  // ---- Request rates ----

  /** The time of the last request of all. */
  function LastOfAll(log: seq<Entry>): Option<int> {
    if log == [] then None
    else if log[|log| - 1].Sent? then Some(log[|log| - 1].at)
    else LastOfAll(log[..|log| - 1])
  }

  /** The time of the last request for `k` since its device last went offline. */
  function LastFor(log: seq<Entry>, k: Target): Option<int> {
    if log == [] then None
    else
      var e := log[|log| - 1];
      if e == Gone(k.dev) then None
      else if e.Sent? && e.k == k then Some(e.at)
      else LastFor(log[..|log| - 1], k)
  }

  /** Every request keeps its distance from the last of all and from the last for the same target. */
  ghost predicate Spaced(rules: seq<Rule>, globalMin: int, log: seq<Entry>) {
    log == [] ||
    (var front, e := log[..|log| - 1], log[|log| - 1];
     && Spaced(rules, globalMin, front)
     && (e.Sent? ==> SpacedNext(rules, globalMin, front, e.k, e.at)))
  }

  ghost predicate SpacedNext(rules: seq<Rule>, globalMin: int, log: seq<Entry>, k: Target, at: int) {
    && k.rule < |rules|
    && (globalMin > 0 && LastOfAll(log).Some? ==> at - LastOfAll(log).value >= globalMin)
    && (LastFor(log, k).Some? ==> at - LastFor(log, k).value >= rules[k.rule].minInterval)
  }

  /** The engine remembers what the log says. */
  ghost predicate Remembers(s: State, log: seq<Entry>) {
    && s.lastGlobal == LastOfAll(log)
    && forall k {:trigger LastFor(log, k)} {:trigger TrackOf(s, k)} :: TrackOf(s, k).lastRequested == LastFor(log, k)
  }

  ghost predicate Inv(s: State, log: seq<Entry>) {
    Remembers(s, log) && Spaced(s.rules, s.globalMin, log)
  }

  lemma LastSnoc(log: seq<Entry>, e: Entry, k: Target)
    ensures LastOfAll(log + [e]) == if e.Sent? then Some(e.at) else LastOfAll(log)
    ensures LastFor(log + [e], k) ==
            if e == Gone(k.dev) then None else if e.Sent? && e.k == k then Some(e.at) else LastFor(log, k)
  {
    assert (log + [e])[..|log|] == log;
  }

  lemma SpacedSnoc(rules: seq<Rule>, globalMin: int, log: seq<Entry>, e: Entry)
    requires Spaced(rules, globalMin, log) && (e.Sent? ==> SpacedNext(rules, globalMin, log, e.k, e.at))
    ensures Spaced(rules, globalMin, log + [e])
  {
    assert (log + [e])[..|log|] == log;
  }

  lemma RequestKeeps(s: State, log: seq<Entry>, k: Target, now: int)
    requires Inv(s, log) && k.rule < |s.rules| && Allowed(s, k, now)
    ensures Inv(Considered(s, k, now), log + [Sent(k, now)])
  {
    var next, more := Considered(s, k, now), log + [Sent(k, now)];
    assert TrackOf(s, k).lastRequested == LastFor(log, k);
    SpacedSnoc(s.rules, s.globalMin, log, Sent(k, now));
    forall j ensures TrackOf(next, j).lastRequested == LastFor(more, j) {
      LastSnoc(log, Sent(k, now), j);
      assert TrackOf(s, j).lastRequested == LastFor(log, j);
    }
    LastSnoc(log, Sent(k, now), k);
  }

  lemma OfflineKeeps(s: State, log: seq<Entry>, dev: DevKey)
    requires Inv(s, log)
    ensures Inv(Do(s, Offline(dev)), log + [Gone(dev)])
  {
    var next, more := Do(s, Offline(dev)), log + [Gone(dev)];
    SpacedSnoc(s.rules, s.globalMin, log, Gone(dev));
    forall j ensures TrackOf(next, j).lastRequested == LastFor(more, j) {
      LastSnoc(log, Gone(dev), j);
      assert TrackOf(s, j).lastRequested == LastFor(log, j);
    }
    LastSnoc(log, Gone(dev), Target(0, dev, 0, 0));
  }

  lemma QuietKeeps(s: State, log: seq<Entry>, m: Micro)
    requires Inv(s, log) && Proper(m, s.rules) && Emits(s, m) == []
    ensures Inv(Do(s, m), log)
  {
    forall j ensures TrackOf(Do(s, m), j).lastRequested == LastFor(log, j) {
      assert TrackOf(s, j).lastRequested == LastFor(log, j);
    }
  }

  lemma InvStep(s: State, log: seq<Entry>, m: Micro)
    requires Inv(s, log) && Proper(m, s.rules)
    ensures Inv(Do(s, m), log + Emits(s, m))
  {
    if Emits(s, m) == [] {
      assert log + [] == log;
      QuietKeeps(s, log, m);
    } else if m.Consider? {
      RequestKeeps(s, log, m.k, m.now);
    } else {
      OfflineKeeps(s, log, m.dev);
    }
  }

  lemma {:induction false} InvAlways(step: Stepper, rules: seq<Rule>, globalMin: int, ms: seq<Micro>)
    returns (o: Outcome)
    requires Steps(step) && AllProper(ms, rules)
    ensures o == Perform(step, Initial(rules, globalMin), ms) && Inv(o.s, o.log) && o.s.rules == rules
    ensures o.s.globalMin == globalMin
  {
    if ms == [] {
      o := Outcome(Initial(rules, globalMin), []);
    } else {
      var m := ms[|ms| - 1];
      o := InvAlways(step, rules, globalMin, ms[..|ms| - 1]);
      assert StepsAt(step, o.s, m) && Proper(m, rules);
      InvStep(o.s, o.log, m);
      o := Outcome(Do(o.s, m), o.log + Emits(o.s, m));
    }
  }

  // From neighbours to any two requests.

  lemma {:induction false} LastOfAllFrom(rules: seq<Rule>, globalMin: int, log: seq<Entry>, i: nat)
    requires Spaced(rules, globalMin, log) && globalMin > 0 && i < |log| && log[i].Sent?
    ensures LastOfAll(log).Some? && LastOfAll(log).value >= log[i].at
  {
    var front, e := log[..|log| - 1], log[|log| - 1];
    if i < |log| - 1 {
      LastOfAllFrom(rules, globalMin, front, i);
    }
  }

  /** Any two requests are at least the global interval apart. */
  lemma {:induction false} GlobalRate(rules: seq<Rule>, globalMin: int, log: seq<Entry>, i: nat, j: nat)
    requires Spaced(rules, globalMin, log) && globalMin > 0 && i < j < |log| && log[i].Sent? && log[j].Sent?
    ensures log[j].at - log[i].at >= globalMin
    decreases |log|
  {
    var front := log[..|log| - 1];
    if j == |log| - 1 {
      LastOfAllFrom(rules, globalMin, front, i);
    } else {
      GlobalRate(rules, globalMin, front, i, j);
    }
  }

  lemma {:induction false} LastForFrom(rules: seq<Rule>, globalMin: int, log: seq<Entry>, k: Target, i: nat)
    requires Spaced(rules, globalMin, log) && i < |log| && log[i].Sent? && log[i].k == k && k.rule < |rules|
    requires rules[k.rule].minInterval > 0
    requires forall j :: i < j < |log| ==> log[j] != Gone(k.dev)
    ensures LastFor(log, k).Some? && LastFor(log, k).value >= log[i].at
  {
    if i < |log| - 1 {
      LastForFrom(rules, globalMin, log[..|log| - 1], k, i);
    }
  }

  /** Any two requests for the same rule, device and want with no offline event of that device
      between them are at least the rule's interval apart. */
  lemma {:induction false} TargetRate(rules: seq<Rule>, globalMin: int, log: seq<Entry>, i: nat, j: nat)
    requires Spaced(rules, globalMin, log) && i < j < |log| && log[i].Sent? && log[j].Sent? && log[i].k == log[j].k
    requires log[i].k.rule < |rules| && rules[log[i].k.rule].minInterval > 0
    requires forall n :: i < n < j ==> log[n] != Gone(log[i].k.dev)
    ensures log[j].at - log[i].at >= rules[log[i].k.rule].minInterval
    decreases |log|
  {
    var front := log[..|log| - 1];
    if j == |log| - 1 {
      LastForFrom(rules, globalMin, front, log[i].k, i);
    } else {
      TargetRate(rules, globalMin, front, i, j);
    }
  }

  ghost predicate Apart(log: seq<Entry>, globalMin: int, i: nat, j: nat)
    requires i < j < |log|
  {
    log[i].Sent? && log[j].Sent? && globalMin > 0 ==> log[j].at - log[i].at >= globalMin
  }

  ghost predicate ApartFor(rules: seq<Rule>, log: seq<Entry>, i: nat, j: nat)
    requires i < j < |log|
  {
    (log[i].Sent? && log[j].Sent? && log[i].k == log[j].k && log[i].k.rule < |rules| &&
     forall n :: i < n < j ==> log[n] != Gone(log[i].k.dev)) ==>
      log[j].at - log[i].at >= rules[log[i].k.rule].minInterval
  }

  /** Over any run of the engine, whatever the clock does, every two requests keep the global
      interval, and every two for the same target without an offline event between them keep
      their rule's. */
  lemma RatesKept(step: Stepper, rules: seq<Rule>, globalMin: int, ms: seq<Micro>, i: nat, j: nat)
    requires Steps(step) && AllProper(ms, rules) && forall r :: r in rules ==> r.minInterval > 0
    requires i < j < |Perform(step, Initial(rules, globalMin), ms).log|
    ensures Apart(Perform(step, Initial(rules, globalMin), ms).log, globalMin, i, j)
    ensures ApartFor(rules, Perform(step, Initial(rules, globalMin), ms).log, i, j)
  {
    var o := InvAlways(step, rules, globalMin, ms);
    if o.log[i].Sent? && o.log[j].Sent? {
      if globalMin > 0 {
        GlobalRate(rules, globalMin, o.log, i, j);
      }
      if o.log[i].k == o.log[j].k && o.log[i].k.rule < |rules| &&
         forall n :: i < n < j ==> o.log[n] != Gone(o.log[i].k.dev)
      {
        TargetRate(rules, globalMin, o.log, i, j);
      }
    }
  }

  /** So the log of every engine, in every state it can get to, keeps the rates. */
  lemma EngineRates(e: Engine, i: nat, j: nat)
    requires e.Valid() && i < j < |e.log| && forall r :: r in e.s.rules ==> r.minInterval > 0
    ensures Apart(e.log, e.s.globalMin, i, j) && ApartFor(e.s.rules, e.log, i, j)
  {
    RatesKept(e.step, e.s.rules, e.s.globalMin, e.done, i, j);
  }

  // ---- When a request is sent ----

  /** Since when a datum is there, going by what was done: it arrives with a frame, and is gone when it
      is invalidated or its device goes offline. */
  function LastKnown(ms: seq<Micro>, k: Target): Option<int> {
    if ms == [] then None
    else
      var m, before := ms[|ms| - 1], LastKnown(ms[..|ms| - 1], k);
      match m
      case Fresh(j, now) => if j == k then Some(now) else before
      case Stale(j) => if j == k then None else before
      case Offline(dev) => if dev == k.dev then None else before
      case _ => before
  }

  ghost predicate Knows(t: Track, since: Option<int>) {
    t.haveData == since.Some? && (since.Some? ==> t.lastReceived == since.value)
  }

  lemma {:induction false} KnownAlways(step: Stepper, rules: seq<Rule>, globalMin: int, ms: seq<Micro>, k: Target)
    requires Steps(step) && AllProper(ms, rules)
    ensures Knows(TrackOf(Perform(step, Initial(rules, globalMin), ms).s, k), LastKnown(ms, k))
  {
    if ms != [] {
      var front, m := ms[..|ms| - 1], ms[|ms| - 1];
      var o := InvAlways(step, rules, globalMin, front);
      KnownAlways(step, rules, globalMin, front, k);
      assert StepsAt(step, o.s, m) && Proper(m, rules);
      KnownStep(o.s, m, k, LastKnown(front, k));
    }
  }

  lemma KnownStep(s: State, m: Micro, k: Target, since: Option<int>)
    requires Proper(m, s.rules) && Knows(TrackOf(s, k), since)
    ensures Knows(TrackOf(Do(s, m), k),
                  if m.Fresh? && m.k == k then Some(m.now)
                  else if (m.Stale? && m.k == k) || (m.Offline? && m.dev == k.dev) then None
                  else since)
  {
  }

  /** A request sent at `last` leaves room for another one now. */
  predicate LongAgo(last: Option<int>, interval: int, now: int) {
    last.None? || now >= last.value + interval
  }

  /** Looking at a datum sends its request if and only if the datum is missing or has reached the rule's age
      limit, the last request for it (since its device was last offline) is the rule's interval ago, and the
      last request of all the global interval. */
  lemma RequestIff(step: Stepper, rules: seq<Rule>, globalMin: int, ms: seq<Micro>, k: Target, now: int)
    requires Steps(step) && AllProper(ms, rules) && k.rule < |rules|
    ensures var o, r := Perform(step, Initial(rules, globalMin), ms), rules[k.rule];
            var known := LastKnown(ms, k);
            step(o.s, Consider(k, now)).log ==
            if && (known.Some? ==> 0 < r.maxAge <= now - known.value)
               && LongAgo(LastFor(o.log, k), r.minInterval, now)
               && (globalMin > 0 ==> LongAgo(LastOfAll(o.log), globalMin, now))
            then [Sent(k, now)] else []
  {
    var o := InvAlways(step, rules, globalMin, ms);
    KnownAlways(step, rules, globalMin, ms, k);
    assert StepsAt(step, o.s, Consider(k, now));
    assert TrackOf(o.s, k).lastRequested == LastFor(o.log, k);
  }

  // ---- What is looked at ----

  /** `m` looks at the `j`-th want of the `i`-th rule for this device. */
  ghost predicate LooksAt(m: Micro, rules: seq<Rule>, i: int, j: int, dev: DevKey, now: int) {
    && 0 <= i < |rules| && 0 <= j < |rules[i].wants|
    && m == Consider(Target(i, dev, rules[i].wants[j].pgn, rules[i].wants[j].subKey), now)
  }

  lemma {:induction false} WantsIff(rules: seq<Rule>, idx: nat, dev: DevKey, now: int, n: nat, m: Micro)
    requires idx < |rules| && n <= |rules[idx].wants|
    ensures m in ForWants(rules, idx, dev, now, n) <==> exists j :: j < n && LooksAt(m, rules, idx, j, dev, now)
  {
    if n > 0 {
      WantsIff(rules, idx, dev, now, n - 1, m);
      assert LooksAt(Consider(TargetOf(idx, dev, rules[idx].wants[n - 1]), now), rules, idx, n - 1, dev, now);
    }
  }

  /** An appearing device makes the engine look at exactly the wants of the rules that apply to it and ask
      of devices when they appear. */
  lemma {:induction false} OnlineIff(rules: seq<Rule>, d: Device, now: int, n: nat, m: Micro)
    requires n <= |rules|
    ensures m in ForOnline(rules, d, now, n) <==>
            exists i, j :: i < n && LooksAt(m, rules, i, j, d.key, now) && rules[i].onOnline && Applies(rules[i], d)
  {
    if n > 0 {
      OnlineIff(rules, d, now, n - 1, m);
      WantsIff(rules, n - 1, d.key, now, |rules[n - 1].wants|, m);
    }
  }

  /** Without a frame of its own to answer it, a want is answered by its PGN; with one, by that frame if what
      the frame says at the given place is the want's key, where it has one and a place is given. */
  lemma AnswersIff(r: Rule, w: Want, pgn: nat, data: seq<byte>)
    ensures r.via.ISORequest? ==> (Answers(r, w, pgn, data) <==> w.pgn == pgn)
    ensures r.via.ByFrame? ==>
              var off, len := r.via.readOff, r.via.readLen;
              Answers(r, w, pgn, data) <==>
                && pgn == r.via.framePgn
                && (!w.hasSubKey || len == 0 ||
                    (len <= 4 && 0 <= off && off + len <= |data| && w.subKey < Pow256(len)
                     && data[off..off + len] == PutLE(w.subKey, len)))
  {
    if r.via.ByFrame? && r.via.readLen <= 4 && 0 <= r.via.readOff && r.via.readOff + r.via.readLen <= |data| {
      var part := data[r.via.readOff..r.via.readOff + r.via.readLen];
      if w.subKey < Pow256(r.via.readLen) {
        GetPutLE(w.subKey, r.via.readLen);
        if GetLE(part) == w.subKey {
          GetLEInjective(part, PutLE(w.subKey, r.via.readLen));
        }
      }
    }
  }

  /** A frame of a PGN makes fresh exactly the wants it answers of the rules that apply to its device. */
  lemma {:induction false} FreshIff(rules: seq<Rule>, d: Device, pgn: nat, data: seq<byte>, now: int, n: nat, k: Target)
    requires n <= |rules|
    ensures Fresh(k, now) in ForFresh(rules, d, pgn, data, now, n) <==>
            exists i, j :: && i < n && LooksAt(Consider(k, now), rules, i, j, d.key, now)
                           && Applies(rules[i], d) && Answers(rules[i], rules[i].wants[j], pgn, data)
  {
    if n > 0 {
      FreshIff(rules, d, pgn, data, now, n - 1, k);
      FreshWantsIff(rules, n - 1, d.key, pgn, data, now, |rules[n - 1].wants|, k);
    }
  }

  lemma {:induction false} FreshWantsIff(rules: seq<Rule>, idx: nat, dev: DevKey, pgn: nat, data: seq<byte>, now: int,
                                         n: nat, k: Target)
    requires idx < |rules| && n <= |rules[idx].wants|
    ensures Fresh(k, now) in FreshWants(rules[idx], idx, dev, pgn, data, now, n) <==>
            exists j :: && j < n && LooksAt(Consider(k, now), rules, idx, j, dev, now)
                        && Answers(rules[idx], rules[idx].wants[j], pgn, data)
  {
    if n > 0 {
      FreshWantsIff(rules, idx, dev, pgn, data, now, n - 1, k);
      assert LooksAt(Consider(TargetOf(idx, dev, rules[idx].wants[n - 1]), now), rules, idx, n - 1, dev, now);
    }
  }

  /** Everything a frame invalidates is looked at right after it went stale. */
  ghost predicate LookedAtOnce(ms: seq<Micro>, now: int) {
    forall p :: 0 <= p < |ms| && ms[p].Stale? ==> p + 1 < |ms| && ms[p + 1] == Consider(ms[p].k, now)
  }

  lemma OnceConcat(a: seq<Micro>, b: seq<Micro>, now: int)
    requires LookedAtOnce(a, now) && LookedAtOnce(b, now)
    ensures LookedAtOnce(a + b, now)
  {
    var c := a + b;
    forall p | 0 <= p < |c| && c[p].Stale? ensures p + 1 < |c| && c[p + 1] == Consider(c[p].k, now) {
      if p >= |a| {
        assert b[p - |a|].Stale?;
      } else {
        assert a[p].Stale?;
      }
    }
  }

  lemma {:induction false} NamingIff(pgns: seq<nat>, pgn: nat, idx: nat, n: nat)
    requires n <= |pgns|
    ensures idx in Naming(pgns, pgn, idx, n) <==> pgn in pgns[..n]
  {
    if n > 0 {
      NamingIff(pgns, pgn, idx, n - 1);
      assert pgns[..n] == pgns[..n - 1] + [pgns[n - 1]];
    }
  }

  lemma {:induction false} InvalidIff(rules: seq<Rule>, pgn: nat, n: nat, i: nat)
    requires n <= |rules|
    ensures i in ByInvalidate(rules, pgn, n) <==> i < n && pgn in rules[i].invalidateOn
  {
    if n > 0 {
      InvalidIff(rules, pgn, n - 1, i);
      var named := rules[n - 1].invalidateOn;
      NamesIff(named, pgn, n - 1, i);
      InConcat(ByInvalidate(rules, pgn, n - 1), Naming(named, pgn, n - 1, |named|), i);
    }
  }

  lemma InConcat<T>(a: seq<T>, b: seq<T>, x: T)
    ensures x in a + b <==> x in a || x in b
  {
  }

  lemma NamesIff(named: seq<nat>, pgn: nat, idx: nat, i: nat)
    ensures i in Naming(named, pgn, idx, |named|) <==> i == idx && pgn in named
  {
    NamingIff(named, pgn, idx, |named|);
    assert named[..|named|] == named;
  }

  lemma {:induction false} StaleWantsIff(rules: seq<Rule>, idx: nat, dev: DevKey, now: int, n: nat, k: Target)
    requires idx < |rules| && n <= |rules[idx].wants|
    ensures LookedAtOnce(StaleWants(rules, idx, dev, now, n), now)
    ensures Stale(k) in StaleWants(rules, idx, dev, now, n) <==>
            exists j :: j < n && LooksAt(Consider(k, now), rules, idx, j, dev, now)
  {
    if n > 0 {
      StaleWantsIff(rules, idx, dev, now, n - 1, k);
      var last := TargetOf(idx, dev, rules[idx].wants[n - 1]);
      assert LooksAt(Consider(last, now), rules, idx, n - 1, dev, now);
      OnceConcat(StaleWants(rules, idx, dev, now, n - 1), [Stale(last), Consider(last, now)], now);
    }
  }

  lemma {:induction false} StaleListIff(rules: seq<Rule>, idxs: seq<nat>, d: Device, now: int, n: nat, k: Target)
    requires n <= |idxs| && forall i :: 0 <= i < |idxs| ==> idxs[i] < |rules|
    ensures LookedAtOnce(ForStale(rules, idxs, d, now, n), now)
    ensures Stale(k) in ForStale(rules, idxs, d, now, n) <==>
            exists i, j :: i in idxs[..n] && LooksAt(Consider(k, now), rules, i, j, d.key, now) && Applies(rules[i], d)
  {
    if n > 0 {
      StaleListIff(rules, idxs, d, now, n - 1, k);
      var idx := idxs[n - 1];
      assert idxs[..n] == idxs[..n - 1] + [idx];
      StaleWantsIff(rules, idx, d.key, now, |rules[idx].wants|, k);
      if Applies(rules[idx], d) {
        OnceConcat(ForStale(rules, idxs, d, now, n - 1), StaleWants(rules, idx, d.key, now, |rules[idx].wants|), now);
      }
    }
  }

  /** A frame of a PGN makes stale exactly the wants of the rules that apply to its device and name the PGN,
      and each is then looked at again. */
  lemma StaleIff(rules: seq<Rule>, d: Device, pgn: nat, now: int, k: Target)
    ensures var idxs := ByInvalidate(rules, pgn, |rules|); var ms := ForStale(rules, idxs, d, now, |idxs|);
            && LookedAtOnce(ms, now)
            && (Stale(k) in ms <==>
                exists i, j :: && LooksAt(Consider(k, now), rules, i, j, d.key, now)
                               && Applies(rules[i], d) && pgn in rules[i].invalidateOn)
  {
    var idxs := ByInvalidate(rules, pgn, |rules|);
    StaleListIff(rules, idxs, d, now, |idxs|, k);
    assert idxs[..|idxs|] == idxs;
    forall i: nat ensures i in idxs <==> i < |rules| && pgn in rules[i].invalidateOn {
      InvalidIff(rules, pgn, |rules|, i);
    }
  }

  lemma {:induction false} DevicesIff(s: State, idx: nat, order: seq<DevKey>, now: int, n: nat, m: Micro)
    requires idx < |s.rules| && n <= |order| && Keyed(s)
    ensures m in ForDevices(s, idx, order, now, n) <==>
            exists j, dev :: && LooksAt(m, s.rules, idx, j, dev, now)
                             && dev in order[..n] && dev in s.devices && Applies(s.rules[idx], s.devices[dev])
  {
    if n > 0 {
      DevicesIff(s, idx, order, now, n - 1, m);
      assert order[..n] == order[..n - 1] + [order[n - 1]];
      WantsIff(s.rules, idx, order[n - 1], now, |s.rules[idx].wants|, m);
    }
  }

  /** A refresh has `m` look at a want of the `i`-th rule, which has an age limit or asks of appearing
      devices, for some device it applies to. */
  ghost predicate Refreshes(s: State, i: int, now: int, m: Micro) {
    && 0 <= i < |s.rules| && (s.rules[i].maxAge > 0 || s.rules[i].onOnline)
    && exists j, dev :: LooksAt(m, s.rules, i, j, dev, now) && dev in s.devices && Applies(s.rules[i], s.devices[dev])
  }

  ghost predicate Keyed(s: State) {
    forall dev :: dev in s.devices ==> s.devices[dev].key == dev
  }

  lemma {:induction false} KeyedAlways(step: Stepper, rules: seq<Rule>, globalMin: int, ms: seq<Micro>)
    requires Steps(step) && AllProper(ms, rules)
    ensures Keyed(Perform(step, Initial(rules, globalMin), ms).s)
  {
    if ms != [] {
      var o := InvAlways(step, rules, globalMin, ms[..|ms| - 1]);
      KeyedAlways(step, rules, globalMin, ms[..|ms| - 1]);
      assert StepsAt(step, o.s, ms[|ms| - 1]) && Proper(ms[|ms| - 1], rules);
    }
  }

  lemma RefreshIff(s: State, idx: nat, order: seq<DevKey>, now: int, m: Micro)
    requires idx < |s.rules| && Keyed(s) && forall dev :: dev in s.devices ==> dev in order
    requires s.rules[idx].maxAge > 0 || s.rules[idx].onOnline
    ensures m in ForDevices(s, idx, order, now, |order|) <==> Refreshes(s, idx, now, m)
  {
    DevicesIff(s, idx, order, now, |order|, m);
    assert order[..|order|] == order;
  }

  lemma TickStep(s: State, orders: seq<seq<DevKey>>, now: int, n: nat, m: Micro)
    requires 0 < n <= |s.rules| == |orders| && Keyed(s)
    requires forall i, dev :: 0 <= i < |orders| && dev in s.devices ==> dev in orders[i]
    ensures m in ForTick(s, orders, now, n) <==> m in ForTick(s, orders, now, n - 1) || Refreshes(s, n - 1, now, m)
  {
    if s.rules[n - 1].maxAge > 0 || s.rules[n - 1].onOnline {
      var order := orders[n - 1];
      RefreshIff(s, n - 1, order, now, m);
      InConcat(ForTick(s, orders, now, n - 1), ForDevices(s, n - 1, order, now, |order|), m);
    } else {
      InConcat(ForTick(s, orders, now, n - 1), [], m);
    }
  }

  /** A refresh looks at exactly these wants, whatever order the devices are met in. */
  lemma {:induction false} TickIff(s: State, orders: seq<seq<DevKey>>, now: int, n: nat, m: Micro)
    requires n <= |s.rules| == |orders| && Keyed(s)
    requires forall i, dev :: 0 <= i < |orders| && dev in s.devices ==> dev in orders[i]
    ensures m in ForTick(s, orders, now, n) <==> exists i :: i < n && Refreshes(s, i, now, m)
  {
    if n > 0 {
      TickIff(s, orders, now, n - 1, m);
      TickStep(s, orders, now, n, m);
    }
  }

  // ---- Frames that do not matter ----

  predicate Interesting(rules: seq<Rule>, pgn: nat) {
    exists i :: 0 <= i < |rules| && InterestingTo(rules[i], pgn)
  }

  predicate InterestingTo(r: Rule, pgn: nat) {
    pgn in r.invalidateOn || exists n :: 0 <= n < |r.wants| && AnswerPGN(r, r.wants[n]) == pgn
  }

  /** The PGN that answers a want. */
  function AnswerPGN(r: Rule, w: Want): nat {
    if r.via.ByFrame? then r.via.framePgn else w.pgn
  }

  method InterestingPGNs(rules: seq<Rule>) returns (pgns: set<nat>)
    ensures forall p :: p in pgns <==> Interesting(rules, p)
  {
    pgns := {};
    for i := 0 to |rules|
      invariant forall p :: p in pgns <==> exists n :: 0 <= n < i && InterestingTo(rules[n], p)
    {
      var r := rules[i];
      var more := PGNsOf(r);
      pgns := pgns + more;
    }
  }

  method PGNsOf(r: Rule) returns (pgns: set<nat>)
    ensures forall p :: p in pgns <==> InterestingTo(r, p)
  {
    pgns := {};
    for j := 0 to |r.wants|
      invariant forall p :: p in pgns <==> exists n :: 0 <= n < j && AnswerPGN(r, r.wants[n]) == p
    {
      pgns := pgns + {AnswerPGN(r, r.wants[j])};
    }
    ghost var answers := pgns;
    for j := 0 to |r.invalidateOn|
      invariant forall p :: p in pgns <==> p in r.invalidateOn[..j] || p in answers
    {
      pgns := pgns + {r.invalidateOn[j]};
    }
  }

  /** A frame outside the interesting PGNs changes nothing and sends nothing. */
  lemma UninterestingIgnored(s: State, dev: DevKey, pgn: nat, data: seq<byte>, now: int)
    requires !Interesting(s.rules, pgn)
    ensures ForFrame(s, dev, pgn, data, now) == []
  {
    if dev in s.devices {
      NothingFresh(s.rules, s.devices[dev], pgn, data, now, |s.rules|);
      NothingStale(s.rules, pgn, |s.rules|);
    }
  }

  lemma {:induction false} NothingFresh(rules: seq<Rule>, d: Device, pgn: nat, data: seq<byte>, now: int, n: nat)
    requires !Interesting(rules, pgn) && n <= |rules|
    ensures ForFresh(rules, d, pgn, data, now, n) == []
  {
    if n > 0 {
      NothingFresh(rules, d, pgn, data, now, n - 1);
      assert !InterestingTo(rules[n - 1], pgn);
      NothingAnswered(rules[n - 1], n - 1, d.key, pgn, data, now, |rules[n - 1].wants|);
    }
  }

  lemma {:induction false} NothingAnswered(r: Rule, idx: nat, dev: DevKey, pgn: nat, data: seq<byte>, now: int, n: nat)
    requires !InterestingTo(r, pgn) && n <= |r.wants|
    ensures FreshWants(r, idx, dev, pgn, data, now, n) == []
  {
    if n > 0 {
      NothingAnswered(r, idx, dev, pgn, data, now, n - 1);
      assert AnswerPGN(r, r.wants[n - 1]) != pgn;
    }
  }

  lemma {:induction false} NothingStale(rules: seq<Rule>, pgn: nat, n: nat)
    requires !Interesting(rules, pgn) && n <= |rules|
    ensures ByInvalidate(rules, pgn, n) == []
  {
    if n > 0 {
      NothingStale(rules, pgn, n - 1);
      assert !InterestingTo(rules[n - 1], pgn);
    }
  }
}
