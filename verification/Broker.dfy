/** The broker's ring buffer: the recent end of the log, overwritten in place. */
module Ring {
  import opened Options
  import opened Bytes
  import opened CanId

  /** A frame as the broker receives it, not yet numbered. */
  datatype BusFrame = BusFrame(header: CANHeader, bus: string, data: seq<byte>, timestamp: int)

  datatype RingEntry = RingEntry(seqNo: nat, frame: BusFrame)

  /** The entry most recently written to a slot of a ring of `size` slots. */
  ghost function LastIn(history: seq<RingEntry>, size: nat, slot: nat): Option<RingEntry>
    requires size > 0
  {
    if history == [] then None
    else
      var e := history[|history| - 1];
      if e.seqNo % size == slot then Some(e) else LastIn(history[..|history| - 1], size, slot)
  }

  lemma LastInSnoc(history: seq<RingEntry>, e: RingEntry, size: nat, slot: nat)
    requires size > 0
    ensures LastIn(history + [e], size, slot) == if e.seqNo % size == slot then Some(e) else LastIn(history, size, slot)
  {
    assert (history + [e])[..|history|] == history;
  }

  /** Two numbers less than `size` apart fall in different slots. */
  lemma SlotsDiffer(n: nat, m: nat, size: nat)
    requires size > 0 && n < m < n + size
    ensures n % size != m % size
  {
    var q := m / size - n / size;
    assert m - n == size * q + (m % size - n % size);
    assert q <= 0 ==> size * q <= 0;
    assert q >= 1 ==> size * q >= size;
  }

  /** Where a ring of `size` slots begins once numbers `first` up to `head` have been written. */
  function TailOf(first: nat, head: nat, size: nat): nat {
    if head > first + size then head - size else first
  }

  class Broker {
    const ring: array<RingEntry>
    const replicaMode: bool
    var head: nat // next write position and next sequence number
    var tail: nat // oldest valid position
    ghost const first: nat
    ghost var history: seq<RingEntry>

    ghost predicate Valid()
      reads this, ring
    {
      && ring.Length > 0
      && 1 <= first <= tail <= head <= tail + ring.Length
      && (forall s :: 0 <= s < ring.Length ==>
            match LastIn(history, ring.Length, s)
            case None => ring[s].seqNo == 0
            case Some(e) => ring[s] == e)
      && (!replicaMode ==>
            && |history| == head - first
            && (forall i :: 0 <= i < |history| ==> history[i].seqNo == first + i)
            && tail == TailOf(first, head, ring.Length))
    }

    /** Ring sizes are powers of two, so the source's mask is the remainder used here. */
    constructor (size: nat, replicaMode: bool, initialHead: nat, blank: BusFrame)
      ensures Valid() && fresh(ring) && history == [] && this.replicaMode == replicaMode
      ensures head == tail == first == if initialHead > 0 then initialHead else 1
      ensures ring.Length == if size == 0 then 65536 else size
    {
      ring := new RingEntry[if size == 0 then 65536 else size](_ => RingEntry(0, blank));
      this.replicaMode := replicaMode;
      head, tail := if initialHead > 0 then initialHead else 1, if initialHead > 0 then initialHead else 1;
      first := if initialHead > 0 then initialHead else 1;
      history := [];
    }

    /** The ring part of frame handling: in replica mode the frame brings its own number. */
    method Append(frame: BusFrame, ownSeq: nat) returns (number: nat)
      requires Valid()
      modifies this, ring
      ensures Valid()
      ensures number == if replicaMode then ownSeq else old(head)
      ensures history == old(history) + [RingEntry(number, frame)]
      ensures head == if number + 1 > old(head) then number + 1 else old(head)
      ensures tail == if head - old(tail) > ring.Length then head - ring.Length else old(tail)
    {
      number := if replicaMode then ownSeq else head;
      var slot := number % ring.Length;
      ghost var before := history;
      ring[slot] := RingEntry(number, frame);
      history := history + [RingEntry(number, frame)];
      forall s | 0 <= s < ring.Length
        ensures LastIn(history, ring.Length, s) ==
                if s == slot then Some(RingEntry(number, frame)) else LastIn(before, ring.Length, s)
      {
        LastInSnoc(before, RingEntry(number, frame), ring.Length, s);
      }
      if number + 1 > head {
        head := number + 1;
      }
      if head - tail > ring.Length {
        tail := head - ring.Length;
      }
    }

    /** The range of numbers worth reading: at most as many as the ring has slots, outside replica mode
        the last of the log, and all of them still there. */
    method RingRange() returns (t: nat, h: nat)
      requires Valid()
      ensures t == tail && h == head && t <= h <= t + ring.Length
      ensures !replicaMode ==> h == first + |history| && t == TailOf(first, h, ring.Length)
      ensures !replicaMode ==>
                forall n :: t <= n < h ==> LastIn(history, ring.Length, n % ring.Length) == Some(history[n - first])
    {
      if !replicaMode {
        forall n | tail <= n < head ensures LastIn(history, ring.Length, n % ring.Length) == Some(history[n - first]) {
          NormalSlot(history, first, n, ring.Length);
        }
      }
      t, h := tail, head;
    }

    /** Succeeds exactly when the number is in range and was the last one written to its slot. */
    method ReadEntry(n: nat) returns (r: Option<RingEntry>)
      requires Valid()
      ensures r.Some? <==> tail <= n < head && ReadableAs(n, LastIn(history, ring.Length, n % ring.Length))
      ensures r.Some? ==> r == LastIn(history, ring.Length, n % ring.Length) && r.value.seqNo == n
      ensures !replicaMode ==> r == if tail <= n < head then Some(history[n - first]) else None
    {
      if !replicaMode && tail <= n < head {
        NormalSlot(history, first, n, ring.Length);
      }
      if n < tail || n >= head {
        return None;
      }
      var entry := ring[n % ring.Length];
      if entry.seqNo != n {
        return None;
      }
      r := Some(entry);
    }
  }

  predicate ReadableAs(n: nat, e: Option<RingEntry>) {
    e.Some? && e.value.seqNo == n
  }

  /** With consecutive numbers, each of the last `size` entries is still in its slot. */
  lemma {:induction false} NormalSlot(history: seq<RingEntry>, first: nat, n: nat, size: nat)
    requires size > 0 && first <= n < first + |history| && first + |history| <= n + size
    requires forall i :: 0 <= i < |history| ==> history[i].seqNo == first + i
    ensures LastIn(history, size, n % size) == Some(history[n - first])
    decreases |history|
  {
    var last := first + |history| - 1;
    if n < last {
      SlotsDiffer(n, last, size);
      NormalSlot(history[..|history| - 1], first, n, size);
    }
  }
}
