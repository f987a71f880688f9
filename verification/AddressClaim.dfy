/** Address claiming by virtual devices (section 4.2.2 of SAE J1939-81): a manager owns some
    devices, answers the claims it hears, and several managers share one bus. */
module AddressClaim {

  datatype ClaimState = Idle | InProgress | Held | CannotClaim

  datatype Device = Device(name: nat, state: ClaimState, source: nat)

  /** An address-claim frame: the claimed source address and the claimant's NAME. */
  datatype Claim = Claim(source: nat, name: nat)

  const HIGHEST_ADDRESS: nat := 252
  const NULL_ADDRESS: nat := 254

  predicate Active(d: Device) {
    d.state == InProgress || d.state == Held
  }

  // ---- One manager ----

  /** Addresses a new claim must avoid: those of registered bus devices and of the manager's
      own active devices. */
  function Taken(devices: seq<Device>, registry: set<nat>): set<nat> {
    registry + set i | 0 <= i < |devices| && Active(devices[i]) :: devices[i].source
  }

  /** `addr` is the highest address at or below `from` outside `taken`, if there is one. */
  ghost predicate IsHighestFree(taken: set<nat>, from: nat, found: bool, addr: nat) {
    if found then addr <= from && addr !in taken && forall a :: addr < a <= from ==> a in taken
    else forall a :: 0 <= a <= from ==> a in taken
  }

  function HighestFree(taken: set<nat>, from: nat): (r: (bool, nat))
    ensures IsHighestFree(taken, from, r.0, r.1)
  {
    if from !in taken then (true, from)
    else if from == 0 then (false, 0)
    else HighestFree(taken, from - 1)
  }

  /** The device after picking an address and sending its claim. */
  function Claiming(devices: seq<Device>, d: Device, registry: set<nat>): Device {
    var (found, addr) := HighestFree(Taken(devices, registry), HIGHEST_ADDRESS);
    if found then Device(d.name, InProgress, addr) else Device(d.name, CannotClaim, NULL_ADDRESS)
  }

  /** An address a new claim may take: used by no registered device and no active one here. */
  predicate Free(devices: seq<Device>, registry: set<nat>, addr: nat) {
    addr !in registry && forall j :: 0 <= j < |devices| && Active(devices[j]) ==> devices[j].source != addr
  }

  /** `d` is device `i` after its claim `sent`: in progress at the highest free address of 0 to 252, or
      unable to claim, from the null address, when none of them is free. */
  ghost predicate Claims(devices: seq<Device>, i: nat, registry: set<nat>, d: Device, sent: Claim)
    requires i < |devices|
  {
    && d.name == devices[i].name && sent.name == d.name && sent.source == d.source
    && if exists a :: 0 <= a <= 252 && Free(devices, registry, a)
       then && d.state == InProgress && d.source <= 252 && Free(devices, registry, d.source)
            && forall a :: d.source < a <= 252 ==> !Free(devices, registry, a)
       else d.state == CannotClaim && d.source == 254
  }

  lemma FreeIsNotTaken(devices: seq<Device>, registry: set<nat>, addr: nat)
    ensures Free(devices, registry, addr) <==> addr !in Taken(devices, registry)
  {
  }

  lemma ClaimingClaims(devices: seq<Device>, i: nat, registry: set<nat>)
    requires i < |devices|
    ensures var d := Claiming(devices, devices[i], registry); Claims(devices, i, registry, d, ClaimOf(d))
  {
    forall a: nat ensures Free(devices, registry, a) <==> a !in Taken(devices, registry) {
      FreeIsNotTaken(devices, registry, a);
    }
  }

  function ClaimOf(d: Device): Claim {
    Claim(d.source, d.name)
  }

  /** The first active device using an address, or the number of devices if there is none. */
  function FirstAt(devices: seq<Device>, source: nat): (i: nat)
    ensures i <= |devices|
    ensures i < |devices| ==> Active(devices[i]) && devices[i].source == source
    ensures forall j :: 0 <= j < i ==> !(Active(devices[j]) && devices[j].source == source)
  {
    if devices == [] then 0
    else if Active(devices[0]) && devices[0].source == source then 0
    else
      var rest := FirstAt(devices[1..], source);
      assert forall j :: 1 <= j < |devices| ==> devices[j] == devices[1..][j - 1];
      1 + rest
  }

  /** A manager's devices and answers after hearing a claim. */
  datatype Outcome = Outcome(devices: seq<Device>, sent: seq<Claim>, ours: bool)

  function Hear(devices: seq<Device>, registry: set<nat>, c: Claim): Outcome {
    var i := FirstAt(devices, c.source);
    if i == |devices| then Outcome(devices, [], false)
    else
      var d := devices[i];
      if d.name == c.name then Outcome(devices[i := d.(state := Held)], [], true)
      else if d.name < c.name then Outcome(devices, [ClaimOf(d)], false)
      else
        var d' := Claiming(devices, d, registry);
        Outcome(devices[i := d'], [ClaimOf(d')], false)
  }

  /** The devices and claims after claiming for every device from index `i` on. */
  function ClaimFrom(devices: seq<Device>, registry: set<nat>, i: nat): (r: (seq<Device>, seq<Claim>))
    requires i <= |devices|
    ensures |r.0| == |devices|
    decreases |devices| - i
  {
    if i == |devices| then (devices, [])
    else
      var d' := Claiming(devices, devices[i], registry);
      var (after, sent) := ClaimFrom(devices[i := d'], registry, i + 1);
      (after, [ClaimOf(d')] + sent)
  }

  class VirtualDeviceManager {
    var devices: seq<Device>

    constructor ()
      ensures devices == []
    {
      devices := [];
    }

    method Add(name: nat)
      modifies this
      ensures devices == old(devices) + [Device(name, Idle, 0)]
    {
      devices := devices + [Device(name, Idle, 0)];
    }

    method FindFreeAddress(registry: set<nat>) returns (addr: nat, ok: bool)
      ensures (ok, addr) == HighestFree(Taken(devices, registry), HIGHEST_ADDRESS)
    {
      var taken := registry;
      for k := 0 to |devices|
        invariant taken == Taken(devices[..k], registry)
      {
        if Active(devices[k]) {
          taken := taken + {devices[k].source};
        }
        TakenSnoc(devices, registry, k);
      }
      assert devices[..|devices|] == devices;
      var a: nat := HIGHEST_ADDRESS;
      while a > 0 && a in taken
        invariant a <= HIGHEST_ADDRESS
        invariant HighestFree(taken, HIGHEST_ADDRESS) == HighestFree(taken, a)
      {
        a := a - 1;
      }
      if a in taken {
        return 0, false;
      }
      return a, true;
    }

    method ClaimForDevice(i: nat, registry: set<nat>) returns (sent: Claim)
      requires i < |devices|
      modifies this
      ensures devices == old(devices)[i := Claiming(old(devices), old(devices[i]), registry)]
      ensures sent == ClaimOf(devices[i])
      ensures Claims(old(devices), i, registry, devices[i], sent)
    {
      ClaimingClaims(devices, i, registry);
      var addr, ok := FindFreeAddress(registry);
      if !ok {
        devices := devices[i := devices[i].(state := CannotClaim, source := NULL_ADDRESS)];
      } else {
        devices := devices[i := devices[i].(state := InProgress, source := addr)];
      }
      sent := Claim(devices[i].source, devices[i].name);
    }

    method StartAfterDiscovery(registry: set<nat>) returns (sent: seq<Claim>)
      modifies this
      ensures (devices, sent) == ClaimFrom(old(devices), registry, 0)
    {
      sent := [];
      var i := 0;
      ghost var all := ClaimFrom(devices, registry, 0);
      assert sent + all.1 == all.1;
      while i < |devices|
        invariant 0 <= i <= |devices|
        invariant all == (ClaimFrom(devices, registry, i).0, sent + ClaimFrom(devices, registry, i).1)
      {
        ghost var d' := Claiming(devices, devices[i], registry);
        ghost var rest := ClaimFrom(devices[i := d'], registry, i + 1);
        assert sent + ([ClaimOf(d')] + rest.1) == sent + [ClaimOf(d')] + rest.1;
        var c := ClaimForDevice(i, registry);
        sent := sent + [c];
        i := i + 1;
      }
      assert sent + [] == sent;
    }

    /** The first active device at the claimed address reacts: to its own echo by holding the address,
        to a higher NAME by sending its claim again, to a lower one by claiming the highest free address. */
    method HandleBusClaim(source: nat, name: nat, registry: set<nat>) returns (ours: bool, sent: seq<Claim>)
      modifies this
      ensures var i := FirstAt(old(devices), source);
              i < |old(devices)| && name < old(devices)[i].name ==>
                |sent| == 1 && |devices| == |old(devices)| && Claims(old(devices), i, registry, devices[i], sent[0])
      ensures Outcome(devices, sent, ours) == Hear(old(devices), registry, Claim(source, name))
    {
      var i := 0;
      sent := [];
      while i < |devices|
        invariant 0 <= i <= |devices| && devices == old(devices) && sent == []
        invariant forall j :: 0 <= j < i ==> !(Active(devices[j]) && devices[j].source == source)
      {
        var d := devices[i];
        if Active(d) && d.source == source {
          assert FirstAt(devices, source) == i;
          if d.name == name {
            if d.state == InProgress {
              devices := devices[i := d.(state := Held)];
            }
            assert devices == old(devices)[i := d.(state := Held)];
            return true, sent;
          }
          if d.name < name {
            sent := [Claim(d.source, d.name)];
            return false, sent;
          }
          var c := ClaimForDevice(i, registry);
          sent := [c];
          return false, sent;
        }
        i := i + 1;
      }
      ours := false;
    }
  }

  lemma TakenSnoc(devices: seq<Device>, registry: set<nat>, k: nat)
    requires k < |devices|
    ensures Taken(devices[..k + 1], registry)
         == Taken(devices[..k], registry) + (if Active(devices[k]) then {devices[k].source} else {})
  {
    var a, b := devices[..k], devices[..k + 1];
    assert forall i :: 0 <= i < k ==> a[i] == b[i];
    assert b[k] == devices[k];
    forall x: nat ensures x in Taken(b, registry) <==>
                          x in Taken(a, registry) + (if Active(devices[k]) then {devices[k].source} else {}) {
      if x in Taken(b, registry) && x !in registry {
        var i :| 0 <= i < |b| && Active(b[i]) && b[i].source == x;
        assert i < k ==> Active(a[i]) && a[i].source == x;
      }
      if x in Taken(a, registry) && x !in registry {
        var i :| 0 <= i < |a| && Active(a[i]) && a[i].source == x;
        assert Active(b[i]) && b[i].source == x;
      }
    }
  }

  /** Within a manager, active devices use distinct addresses, none of them the null address. */
  ghost predicate Spread(devices: seq<Device>) {
    && (forall i :: 0 <= i < |devices| && Active(devices[i]) ==> devices[i].source <= HIGHEST_ADDRESS)
    && (forall i, j :: 0 <= i < j < |devices| && Active(devices[i]) && Active(devices[j]) ==>
          devices[i].source != devices[j].source)
  }

  lemma TakenContains(devices: seq<Device>, registry: set<nat>, j: nat)
    requires j < |devices| && Active(devices[j])
    ensures devices[j].source in Taken(devices, registry)
  {
  }

  /** A fresh claim collides with no device of its own manager, not even with its old address. */
  lemma ClaimingSpreads(devices: seq<Device>, i: nat, registry: set<nat>)
    requires Spread(devices) && i < |devices|
    ensures var d' := Claiming(devices, devices[i], registry);
            && Spread(devices[i := d'])
            && d'.name == devices[i].name
            && (Active(d') ==> forall j :: 0 <= j < |devices| && Active(devices[j]) ==> devices[j].source != d'.source)
  {
    var d' := Claiming(devices, devices[i], registry);
    forall j | 0 <= j < |devices| && Active(devices[j]) && Active(d') ensures devices[j].source != d'.source {
      TakenContains(devices, registry, j);
    }
  }

  /** Lower NAME wins: a device gives up its address only to a claim for that very address by
      a lower NAME, and the winner of a conflict keeps its state and re-asserts its claim. */
  lemma LowerNameWins(devices: seq<Device>, registry: set<nat>, c: Claim, i: nat)
    requires i < |devices| && Active(devices[i]) && Spread(devices)
    ensures var o := Hear(devices, registry, c);
            && |o.devices| == |devices| && o.devices[i].name == devices[i].name
            && (o.devices[i].source != devices[i].source <==>
                  c.source == devices[i].source && c.name < devices[i].name)
            && (c.source == devices[i].source && devices[i].name < c.name ==>
                  o.devices == devices && o.sent == [ClaimOf(devices[i])] && !o.ours)
            && (c.source == devices[i].source && c.name < devices[i].name ==>
                  |o.sent| == 1 && Claims(devices, i, registry, o.devices[i], o.sent[0]) && !o.ours)
            && (c.source == devices[i].source && c.name == devices[i].name ==>
                  o.devices[i] == devices[i].(state := Held) && o.sent == [] && o.ours)
  {
    var k := FirstAt(devices, c.source);
    if k < |devices| {
      ClaimingSpreads(devices, k, registry);
      ClaimingClaims(devices, k, registry);
    }
  }

  /** A claim that concerns no active device changes nothing and is answered by nothing. */
  lemma OthersIgnored(devices: seq<Device>, registry: set<nat>, c: Claim)
    requires forall i :: 0 <= i < |devices| && Active(devices[i]) ==> devices[i].source != c.source
    ensures Hear(devices, registry, c) == Outcome(devices, [], false)
  {
  }

  // ---- Claiming for all devices ----

  /** When claiming for all, the `i`-th device claims as the devices before it have left the addresses. */
  lemma {:induction false} StartClaims(devices: seq<Device>, registry: set<nat>, i: nat, k: nat)
    requires i <= k < |devices|
    ensures var (after, sent) := ClaimFrom(devices, registry, i);
            && |sent| == |devices| - i && after[..i] == devices[..i]
            && Claims(after[..k] + devices[k..], k, registry, after[k], sent[k - i])
    decreases |devices| - i
  {
    var d' := Claiming(devices, devices[i], registry);
    var next := devices[i := d'];
    ClaimingClaims(devices, i, registry);
    ClaimKeeps(next, registry, i + 1);
    var after := ClaimFrom(next, registry, i + 1).0;
    assert after[i] == next[..i + 1][i];
    if k == i {
      assert after[..i] == next[..i + 1][..i];
      assert after[..i] + devices[i..] == devices;
    } else {
      StartClaims(next, registry, i + 1, k);
      assert next[k..] == devices[k..];
      assert after[..i] == after[..i + 1][..i] == devices[..i];
    }
  }

  lemma {:induction false} ClaimKeeps(devices: seq<Device>, registry: set<nat>, i: nat)
    requires i <= |devices|
    ensures var (after, sent) := ClaimFrom(devices, registry, i);
            after[..i] == devices[..i] && |sent| == |devices| - i
    decreases |devices| - i
  {
    if i < |devices| {
      var next := devices[i := Claiming(devices, devices[i], registry)];
      ClaimKeeps(next, registry, i + 1);
      var after := ClaimFrom(next, registry, i + 1).0;
      assert after[..i] == after[..i + 1][..i] == next[..i + 1][..i];
    }
  }

  lemma RangeSize(n: nat, s: set<nat>)
    requires forall a :: 0 <= a < n ==> a in s
    ensures |s| >= n
  {
    if n > 0 {
      RangeSize(n - 1, s - {n - 1});
    }
  }

  /** The addresses taken are no more than the registry's and one for each active device. */
  lemma {:induction false} TakenSize(devices: seq<Device>, registry: set<nat>)
    ensures |Taken(devices, registry)| <= |registry| + |devices|
    ensures (exists i :: 0 <= i < |devices| && !Active(devices[i])) ==>
              |Taken(devices, registry)| < |registry| + |devices|
    decreases |devices|
  {
    var n := |devices|;
    if n > 0 {
      TakenSize(devices[..n - 1], registry);
      TakenSnoc(devices, registry, n - 1);
      assert devices[..n] == devices;
      if Active(devices[n - 1]) && exists i :: 0 <= i < n && !Active(devices[i]) {
        var i :| 0 <= i < n && !Active(devices[i]);
        assert devices[..n - 1][i] == devices[i];
      }
    } else {
      assert Taken(devices, registry) == registry;
    }
  }

  /** Every device gets an address as long as the registered devices and the manager's own are no more
      than the addresses there are. */
  lemma StartSucceeds(devices: seq<Device>, registry: set<nat>, k: nat)
    requires k < |devices| && |registry| + |devices| <= 253 && forall i :: 0 <= i < |devices| ==> !Active(devices[i])
    ensures ClaimFrom(devices, registry, 0).0[k].state == InProgress
  {
    StartClaims(devices, registry, 0, k);
    var now := ClaimFrom(devices, registry, 0).0[..k] + devices[k..];
    assert !Active(now[k]);
    TakenSize(now, registry);
    if forall a :: 0 <= a <= 252 ==> !Free(now, registry, a) {
      forall a | 0 <= a < 253 ensures a in Taken(now, registry) {
        FreeIsNotTaken(now, registry, a);
      }
      RangeSize(253, Taken(now, registry));
    }
  }

  // ---- Several managers on one bus ----

  /** Every manager's devices, and the claims still on their way to each manager. A sent claim
      reaches every manager, its sender included, and may be overtaken by others. */
  datatype Bus = Bus(managers: seq<seq<Device>>, inbox: seq<multiset<Claim>>)

  ghost predicate WellFormed(b: Bus) {
    |b.managers| == |b.inbox|
  }

  function Broadcast(inbox: seq<multiset<Claim>>, sent: seq<Claim>): (r: seq<multiset<Claim>>)
    ensures |r| == |inbox|
    ensures forall k :: 0 <= k < |inbox| ==> r[k] == inbox[k] + multiset(sent)
  {
    seq(|inbox|, k requires 0 <= k < |inbox| => inbox[k] + multiset(sent))
  }

  datatype BusEvent =
    | Start(m: nat, registry: set<nat>)             // a manager claims for all its devices
    | Deliver(m: nat, c: Claim, registry: set<nat>) // a claim on its way arrives
    | Repeat(m: nat, i: nat)                        // heartbeat or answer to an ISO request
    | Foreign(c: Claim)                             // some other device claims

  ghost predicate Enabled(b: Bus, e: BusEvent) {
    && WellFormed(b)
    && match e
       case Start(m, _) => m < |b.managers|
       case Deliver(m, c, _) => m < |b.managers| && c in b.inbox[m]
       case Repeat(m, i) => m < |b.managers| && i < |b.managers[m]| && Active(b.managers[m][i])
       case Foreign(_) => true
  }

  ghost function BusStep(b: Bus, e: BusEvent): Bus
    requires Enabled(b, e)
  {
    match e
    case Start(m, registry) =>
      var (devices, sent) := ClaimFrom(b.managers[m], registry, 0);
      Bus(b.managers[m := devices], Broadcast(b.inbox, sent))
    case Deliver(m, c, registry) =>
      var o := Hear(b.managers[m], registry, c);
      Bus(b.managers[m := o.devices], Broadcast(b.inbox[m := b.inbox[m] - multiset{c}], o.sent))
    case Repeat(m, i) => b.(inbox := Broadcast(b.inbox, [ClaimOf(b.managers[m][i])]))
    case Foreign(c) => b.(inbox := Broadcast(b.inbox, [c]))
  }

  /** There is a device `i` of manager `m`. */
  ghost predicate At(b: Bus, m: int, i: int) {
    0 <= m < |b.managers| && 0 <= i < |b.managers[m]|
  }

  predicate SameAddress(d: Device, e: Device) {
    Active(d) && Active(e) && d.source == e.source
  }

  /** Distinct devices have distinct NAMEs, and two active ones of different managers sharing an
      address have a claim on its way that will part them: one from either to the other. */
  ghost predicate Apart(b: Bus, m: int, i: int, k: int, j: int)
    requires WellFormed(b) && At(b, m, i) && At(b, k, j)
  {
    var d, e := b.managers[m][i], b.managers[k][j];
    !(m == k && i == j) ==>
      && d.name != e.name
      && (m != k && SameAddress(d, e) ==> ClaimOf(d) in b.inbox[k] || ClaimOf(e) in b.inbox[m])
  }

  /** A device whose claim is in progress has not heard its own echo yet. */
  ghost predicate EchoPending(b: Bus, m: int, i: int)
    requires WellFormed(b) && At(b, m, i)
  {
    b.managers[m][i].state == InProgress ==> ClaimOf(b.managers[m][i]) in b.inbox[m]
  }

  ghost predicate Inv(b: Bus) {
    && WellFormed(b)
    && (forall m :: 0 <= m < |b.managers| ==> Spread(b.managers[m]))
    && (forall m, i, k, j :: At(b, m, i) && At(b, k, j) ==> Apart(b, m, i, k, j))
    && (forall m, i :: At(b, m, i) ==> EchoPending(b, m, i))
  }

  /** More claims on their way never hurt. */
  lemma MoreClaims(b: Bus, sent: seq<Claim>)
    requires Inv(b)
    ensures Inv(b.(inbox := Broadcast(b.inbox, sent)))
  {
    var b' := b.(inbox := Broadcast(b.inbox, sent));
    forall m, i, k, j | At(b', m, i) && At(b', k, j) ensures Apart(b', m, i, k, j) {
      assert Apart(b, m, i, k, j);
    }
    forall m, i | At(b', m, i) ensures EchoPending(b', m, i) {
      assert EchoPending(b, m, i);
    }
  }

  /** Replacing one device by another of the same NAME keeps the invariant if its new address is
      either announced to everyone or the old one, and its echo is announced when needed. */
  lemma Replace(b: Bus, m: nat, i: nat, d': Device)
    requires Inv(b) && At(b, m, i) && d'.name == b.managers[m][i].name
    requires Spread(b.managers[m][i := d'])
    requires || (forall k :: 0 <= k < |b.inbox| ==> ClaimOf(d') in b.inbox[k])
             || (Active(b.managers[m][i]) && d' == b.managers[m][i].(state := Held))
    ensures Inv(b.(managers := b.managers[m := b.managers[m][i := d']]))
  {
    var b' := b.(managers := b.managers[m := b.managers[m][i := d']]);
    forall m1, i1, k, j | At(b', m1, i1) && At(b', k, j) ensures Apart(b', m1, i1, k, j) {
      assert At(b, m1, i1) && At(b, k, j) && Apart(b, m1, i1, k, j);
    }
    forall m1, i1 | At(b', m1, i1) ensures EchoPending(b', m1, i1) {
      assert At(b, m1, i1) && EchoPending(b, m1, i1);
    }
  }

  /** A device that moves and broadcasts its new claim keeps the invariant. */
  lemma Move(b: Bus, m: nat, i: nat, registry: set<nat>)
    requires Inv(b) && At(b, m, i)
    ensures var d' := Claiming(b.managers[m], b.managers[m][i], registry);
            Inv(Bus(b.managers[m := b.managers[m][i := d']], Broadcast(b.inbox, [ClaimOf(d')])))
  {
    var d' := Claiming(b.managers[m], b.managers[m][i], registry);
    ClaimingSpreads(b.managers[m], i, registry);
    MoreClaims(b, [ClaimOf(d')]);
    Replace(b.(inbox := Broadcast(b.inbox, [ClaimOf(d')])), m, i, d');
  }

  lemma Remaining(b: Bus, m: nat, c: Claim, k: nat, x: Claim)
    requires m < |b.inbox| && k < |b.inbox|
    ensures x in b.inbox[k] && !(k == m && x == c) ==> x in b.inbox[m := b.inbox[m] - multiset{c}][k]
  {
  }

  /** Every device of manager `m` that uses the claimed address is the claimant and settled, or has
      its own claim on the way to everyone. */
  ghost predicate Dealt(b: Bus, m: nat, c: Claim)
    requires WellFormed(b) && m < |b.managers|
  {
    forall i :: At(b, m, i) && Active(b.managers[m][i]) && b.managers[m][i].source == c.source ==>
      if b.managers[m][i].name == c.name then b.managers[m][i].state == Held
      else forall k :: 0 <= k < |b.inbox| ==> ClaimOf(b.managers[m][i]) in b.inbox[k]
  }

  /** A claim may leave a manager's inbox once every device it concerns there has dealt with it. */
  lemma Drop(b: Bus, m: nat, c: Claim)
    requires Inv(b) && m < |b.managers| && c in b.inbox[m] && Dealt(b, m, c)
    ensures Inv(b.(inbox := b.inbox[m := b.inbox[m] - multiset{c}]))
  {
    var b' := b.(inbox := b.inbox[m := b.inbox[m] - multiset{c}]);
    forall m1, i1, k, j | At(b', m1, i1) && At(b', k, j) ensures Apart(b', m1, i1, k, j) {
      var d, e := b.managers[m1][i1], b.managers[k][j];
      assert At(b, m1, i1) && At(b, k, j) && Apart(b, m1, i1, k, j);
      Remaining(b, m, c, k, ClaimOf(d));
      Remaining(b, m, c, m1, ClaimOf(e));
    }
    forall m1, i1 | At(b', m1, i1) ensures EchoPending(b', m1, i1) {
      assert At(b, m1, i1) && EchoPending(b, m1, i1);
      Remaining(b, m, c, m1, ClaimOf(b.managers[m1][i1]));
    }
  }

  lemma BroadcastCons(inbox: seq<multiset<Claim>>, c: Claim, rest: seq<Claim>)
    ensures Broadcast(Broadcast(inbox, [c]), rest) == Broadcast(inbox, [c] + rest)
  {
    var one, all := Broadcast(inbox, [c]), Broadcast(inbox, [c] + rest);
    forall k | 0 <= k < |inbox| ensures Broadcast(one, rest)[k] == all[k] {
      assert multiset([c] + rest) == multiset([c]) + multiset(rest);
      assert inbox[k] + multiset([c]) + multiset(rest) == inbox[k] + (multiset([c]) + multiset(rest));
    }
  }

  lemma {:induction false} MoveAll(b: Bus, m: nat, registry: set<nat>, i: nat)
    requires Inv(b) && m < |b.managers| && i <= |b.managers[m]|
    ensures var (devices, sent) := ClaimFrom(b.managers[m], registry, i);
            Inv(Bus(b.managers[m := devices], Broadcast(b.inbox, sent)))
    decreases |b.managers[m]| - i
  {
    if i == |b.managers[m]| {
      MoreClaims(b, []);
      assert b.managers[m := b.managers[m]] == b.managers;
    } else {
      var d' := Claiming(b.managers[m], b.managers[m][i], registry);
      Move(b, m, i, registry);
      var b1 := Bus(b.managers[m := b.managers[m][i := d']], Broadcast(b.inbox, [ClaimOf(d')]));
      MoveAll(b1, m, registry, i + 1);
      var (devices, rest) := ClaimFrom(b1.managers[m], registry, i + 1);
      assert b1.managers[m := devices] == b.managers[m := devices];
      BroadcastCons(b.inbox, ClaimOf(d'), rest);
    }
  }

  /** The bus after manager `m` heard `c` and sent its answer, with the claim still in the inbox. */
  ghost function Heard(b: Bus, m: nat, c: Claim, registry: set<nat>): Bus
    requires m < |b.managers|
  {
    var o := Hear(b.managers[m], registry, c);
    Bus(b.managers[m := o.devices], Broadcast(b.inbox, o.sent))
  }

  lemma HearsNothing(b: Bus, m: nat, c: Claim, registry: set<nat>)
    requires Inv(b) && m < |b.managers| && FirstAt(b.managers[m], c.source) == |b.managers[m]|
    ensures Inv(Heard(b, m, c, registry)) && Dealt(Heard(b, m, c, registry), m, c)
  {
    assert b.managers[m := b.managers[m]] == b.managers;
    MoreClaims(b, []);
  }

  lemma HearsEcho(b: Bus, m: nat, c: Claim, registry: set<nat>, i: nat)
    requires Inv(b) && At(b, m, i) && i == FirstAt(b.managers[m], c.source) && b.managers[m][i].name == c.name
    ensures Inv(Heard(b, m, c, registry)) && Dealt(Heard(b, m, c, registry), m, c)
  {
    MoreClaims(b, []);
    Replace(b.(inbox := Broadcast(b.inbox, [])), m, i, b.managers[m][i].(state := Held));
  }

  lemma HearsWeaker(b: Bus, m: nat, c: Claim, registry: set<nat>, i: nat)
    requires Inv(b) && At(b, m, i) && i == FirstAt(b.managers[m], c.source) && b.managers[m][i].name < c.name
    ensures Inv(Heard(b, m, c, registry)) && Dealt(Heard(b, m, c, registry), m, c)
  {
    var mine := ClaimOf(b.managers[m][i]);
    assert b.managers[m := b.managers[m]] == b.managers;
    MoreClaims(b, [mine]);
    assert forall k :: 0 <= k < |b.inbox| ==> mine in Broadcast(b.inbox, [mine])[k];
  }

  lemma HearsStronger(b: Bus, m: nat, c: Claim, registry: set<nat>, i: nat)
    requires Inv(b) && At(b, m, i) && i == FirstAt(b.managers[m], c.source) && c.name < b.managers[m][i].name
    ensures Inv(Heard(b, m, c, registry)) && Dealt(Heard(b, m, c, registry), m, c)
  {
    Move(b, m, i, registry);
    ClaimingSpreads(b.managers[m], i, registry);
  }

  /** Sending the answer and taking the claim out of the inbox may be done in either order. */
  lemma AnswerFirst(inbox: seq<multiset<Claim>>, m: nat, c: Claim, sent: seq<Claim>)
    requires m < |inbox| && c in inbox[m]
    ensures var after := Broadcast(inbox, sent);
            c in after[m] &&
            after[m := after[m] - multiset{c}] == Broadcast(inbox[m := inbox[m] - multiset{c}], sent)
  {
    assert inbox[m] - multiset{c} + multiset(sent) == inbox[m] + multiset(sent) - multiset{c};
  }

  lemma DeliverStep(b: Bus, m: nat, c: Claim, registry: set<nat>)
    requires Inv(b) && Enabled(b, Deliver(m, c, registry))
    ensures Inv(BusStep(b, Deliver(m, c, registry)))
  {
    HeardDealt(b, m, c, registry);
    AnswerFirst(b.inbox, m, c, Hear(b.managers[m], registry, c).sent);
    Drop(Heard(b, m, c, registry), m, c);
  }

  lemma HeardDealt(b: Bus, m: nat, c: Claim, registry: set<nat>)
    requires Inv(b) && m < |b.managers|
    ensures Inv(Heard(b, m, c, registry)) && Dealt(Heard(b, m, c, registry), m, c)
  {
    var i := FirstAt(b.managers[m], c.source);
    if i == |b.managers[m]| {
      HearsNothing(b, m, c, registry);
    } else if b.managers[m][i].name == c.name {
      HearsEcho(b, m, c, registry, i);
    } else if b.managers[m][i].name < c.name {
      HearsWeaker(b, m, c, registry, i);
    } else {
      HearsStronger(b, m, c, registry, i);
    }
  }

  lemma InvStep(b: Bus, e: BusEvent)
    requires Inv(b) && Enabled(b, e)
    ensures Inv(BusStep(b, e))
  {
    match e
    case Start(m, registry) => MoveAll(b, m, registry, 0);
    case Deliver(m, c, registry) => DeliverStep(b, m, c, registry);
    case Repeat(m, i) => MoreClaims(b, [ClaimOf(b.managers[m][i])]);
    case Foreign(c) => MoreClaims(b, [c]);
  }

  /** No device has claimed anything, no claim is on its way, and all NAMEs differ. */
  ghost predicate Initial(b: Bus) {
    && WellFormed(b)
    && (forall m, i, k, j :: At(b, m, i) && At(b, k, j) && !(m == k && i == j) ==>
          b.managers[m][i].name != b.managers[k][j].name)
    && (forall m, i :: At(b, m, i) ==> b.managers[m][i].state == Idle)
    && Quiet(b)
  }

  ghost predicate Quiet(b: Bus) {
    forall m :: 0 <= m < |b.inbox| ==> b.inbox[m] == multiset{}
  }

  /** `states` is a run driven by `events` from an initial state. */
  ghost predicate IsRun(states: seq<Bus>, events: seq<BusEvent>) {
    && |states| == |events| + 1
    && Initial(states[0])
    && forall t :: 0 <= t < |events| ==> Enabled(states[t], events[t]) && states[t + 1] == BusStep(states[t], events[t])
  }

  lemma {:induction false} InvAlways(states: seq<Bus>, events: seq<BusEvent>, t: nat)
    requires IsRun(states, events) && t < |states|
    ensures Inv(states[t])
  {
    if t > 0 {
      InvAlways(states, events, t - 1);
      InvStep(states[t - 1], events[t - 1]);
      assert states[t - 1 + 1] == states[t];
    }
  }

  /** In every state of every run, whenever no claim is on its way, no two active devices of
      any managers share an address and every claim has been settled. */
  lemma QuietMeansSettled(states: seq<Bus>, events: seq<BusEvent>, t: nat)
    requires IsRun(states, events) && t < |states| && Quiet(states[t])
    ensures var b := states[t];
            && (forall m, i, k, j :: At(b, m, i) && At(b, k, j) && !(m == k && i == j) ==>
                  !SameAddress(b.managers[m][i], b.managers[k][j]))
            && (forall m, i :: At(b, m, i) ==> b.managers[m][i].state != InProgress)
  {
    InvAlways(states, events, t);
    var b := states[t];
    forall m, i, k, j | At(b, m, i) && At(b, k, j) && !(m == k && i == j)
      ensures !SameAddress(b.managers[m][i], b.managers[k][j])
    {
      assert Apart(b, m, i, k, j) && Spread(b.managers[m]);
    }
    forall m, i | At(b, m, i) ensures b.managers[m][i].state != InProgress {
      assert EchoPending(b, m, i);
    }
  }
}
