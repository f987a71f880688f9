/** Notification of waiting consumers: the broker appends, then signals each registered
    consumer's one-slot channel; a consumer reads the ring bounds, then waits on its slot. */
module WakeUp {

  /** Where a consumer is in its loop: about to read the ring bounds, holding a head it has
      read, or waiting for a signal. */
  datatype Phase = Looping | Ranged(head: nat) | Waiting

  datatype Waiter = Waiter(cursor: nat, phase: Phase, signalled: bool)

  /** `toNotify` are the consumers the broker still has to signal for its latest append. */
  datatype State = State(head: nat, toNotify: set<nat>, consumers: map<nat, Waiter>)

  datatype Event =
    | Append                       // broker: write a frame and release the ring lock
    | Notify(c: nat)               // broker: non-blocking send to one consumer
    | Register(c: nat, cursor: nat)
    | Unregister(c: nat)
    | ReadRange(c: nat)            // consumer: read the ring bounds
    | Take(c: nat)                 // consumer: below the head it read, take one from journal or ring
    | Wait(c: nat)                 // consumer: the cursor is at or past the head it read
    | Wake(c: nat)                 // consumer: receive the signal

  ghost predicate Enabled(s: State, e: Event) {
    match e
    case Append => s.toNotify == {}
    case Notify(c) => c in s.toNotify
    case Register(c, _) => c !in s.consumers
    case Unregister(c) => c in s.consumers
    case ReadRange(c) => c in s.consumers && s.consumers[c].phase == Looping
    case Take(c) =>
      c in s.consumers && s.consumers[c].phase.Ranged? && s.consumers[c].cursor < s.consumers[c].phase.head
    case Wait(c) =>
      c in s.consumers && s.consumers[c].phase.Ranged? && s.consumers[c].cursor >= s.consumers[c].phase.head
    case Wake(c) => c in s.consumers && s.consumers[c].phase == Waiting && s.consumers[c].signalled
  }

  ghost function Step(s: State, e: Event): State
    requires Enabled(s, e)
  {
    match e
    case Append => State(s.head + 1, s.consumers.Keys, s.consumers)
    case Notify(c) =>
      State(s.head, s.toNotify - {c},
            if c in s.consumers then s.consumers[c := s.consumers[c].(signalled := true)] else s.consumers)
    case Register(c, cursor) => s.(consumers := s.consumers[c := Waiter(cursor, Looping, false)])
    case Unregister(c) => State(s.head, s.toNotify - {c}, s.consumers - {c})
    case ReadRange(c) => s.(consumers := s.consumers[c := s.consumers[c].(phase := Ranged(s.head))])
    case Take(c) =>
      s.(consumers := s.consumers[c := s.consumers[c].(cursor := s.consumers[c].cursor + 1, phase := Looping)])
    case Wait(c) => s.(consumers := s.consumers[c := s.consumers[c].(phase := Waiting)])
    case Wake(c) => s.(consumers := s.consumers[c := s.consumers[c].(phase := Looping, signalled := false)])
  }

  /** A consumer that waits, or is bound to wait, although a frame is there, will be woken: its
      slot is full or the broker is about to fill it. */
  ghost predicate Wakeable(s: State, c: nat)
    requires c in s.consumers
  {
    var w := s.consumers[c];
    (w.phase == Waiting || (w.phase.Ranged? && w.cursor >= w.phase.head)) && w.cursor < s.head ==>
      w.signalled || c in s.toNotify
  }

  ghost predicate Inv(s: State) {
    forall c :: c in s.consumers ==> Wakeable(s, c)
  }

  ghost predicate IsRun(states: seq<State>, events: seq<Event>) {
    && |states| == |events| + 1
    && states[0].consumers == map[] && states[0].toNotify == {}
    && forall t :: 0 <= t < |events| ==> Enabled(states[t], events[t]) && states[t + 1] == Step(states[t], events[t])
  }

  lemma InvStep(s: State, e: Event)
    requires Inv(s) && Enabled(s, e)
    ensures Inv(Step(s, e))
  {
    var s' := Step(s, e);
    forall c | c in s'.consumers ensures Wakeable(s', c) {
      assert c in s.consumers ==> Wakeable(s, c);
    }
  }

  lemma {:induction false} InvAlways(states: seq<State>, events: seq<Event>, t: nat)
    requires IsRun(states, events) && t < |states|
    ensures Inv(states[t])
  {
    if t > 0 {
      InvAlways(states, events, t - 1);
      InvStep(states[t - 1], events[t - 1]);
      assert states[t - 1 + 1] == states[t];
    }
  }

  /** No lost wake-up, in any interleaving of any number of consumers: a consumer waiting below
      the head, once the broker has finished notifying, has a full slot. */
  lemma NoLostWakeUp(states: seq<State>, events: seq<Event>, t: nat, c: nat)
    requires IsRun(states, events) && t < |states|
    requires c in states[t].consumers && states[t].consumers[c].phase == Waiting
    requires states[t].consumers[c].cursor < states[t].head && states[t].toNotify == {}
    ensures states[t].consumers[c].signalled && Enabled(states[t], Wake(c))
  {
    InvAlways(states, events, t);
    assert Wakeable(states[t], c);
  }
}
