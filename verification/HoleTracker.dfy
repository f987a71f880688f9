/** The gap bookkeeping of the cloud side of replication: a sorted list of half-open
    ranges of missing sequence numbers, seen as the finite set of numbers it denotes. */
module HoleTracking {

  /** Largest value of the 64-bit counters; `ContinuousThrough` returns it for "no bound". */
  const MAX_SEQ: nat := 0xFFFF_FFFF_FFFF_FFFF

  /** The half-open interval [start, end). */
  datatype SeqRange = SeqRange(start: nat, end: nat)

  predicate In(n: nat, h: SeqRange) {
    h.start <= n < h.end
  }

  predicate Covers(hs: seq<SeqRange>, n: nat) {
    exists i :: 0 <= i < |hs| && hs[i].start <= n < hs[i].end
  }

  function Last(hs: seq<SeqRange>): SeqRange
    requires hs != []
  {
    hs[|hs| - 1]
  }

  function Front(hs: seq<SeqRange>): seq<SeqRange>
    requires hs != []
  {
    hs[..|hs| - 1]
  }

  /** Every range is non-empty and ends strictly before the next one starts, so ranges are
      sorted, disjoint and never adjacent; all ends fit the counters. */
  predicate Canonical(hs: seq<SeqRange>) {
    hs == [] ||
    (&& Last(hs).start < Last(hs).end <= MAX_SEQ
     && Canonical(Front(hs))
     && (Front(hs) == [] || Last(Front(hs)).end < Last(hs).start))
  }

  /** The pairwise reading of `Canonical`. */
  lemma {:induction false} CanonicalOrder(hs: seq<SeqRange>)
    requires Canonical(hs)
    ensures forall i :: 0 <= i < |hs| ==> hs[i].start < hs[i].end <= MAX_SEQ
    ensures forall i, j :: 0 <= i < j < |hs| ==> hs[i].end < hs[j].start
  {
    if hs != [] {
      CanonicalOrder(Front(hs));
      assert forall i :: 0 <= i < |hs| - 1 ==> Front(hs)[i] == hs[i];
    }
  }

  lemma CanonicalAppend(hs: seq<SeqRange>, h: SeqRange)
    requires Canonical(hs) && h.start < h.end <= MAX_SEQ
    requires hs == [] || Last(hs).end < h.start
    ensures Canonical(hs + [h])
  {
    assert Front(hs + [h]) == hs;
  }

  lemma {:induction false} CanonicalTail(hs: seq<SeqRange>)
    requires Canonical(hs) && hs != []
    ensures Canonical(hs[1..])
  {
    if |hs| > 1 {
      CanonicalTail(Front(hs));
      assert Front(hs[1..]) == Front(hs)[1..];
    }
  }

  ghost function Interval(a: nat, b: nat): (s: set<nat>)
    ensures forall n :: n in s <==> a <= n < b
  {
    set n: nat | n < b && In(n, SeqRange(a, b))
  }

  /** The set of sequence numbers a list of ranges denotes. */
  ghost function Missing(hs: seq<SeqRange>): set<nat> {
    if hs == [] then {}
    else Missing(Front(hs)) + Interval(Last(hs).start, Last(hs).end)
  }

  lemma {:induction false} MissingCovers(hs: seq<SeqRange>)
    ensures forall n :: n in Missing(hs) <==> Covers(hs, n)
  {
    if hs != [] {
      var front := Front(hs);
      MissingCovers(front);
      forall n: nat ensures n in Missing(hs) <==> Covers(hs, n) {
        if Covers(front, n) {
          var i :| 0 <= i < |front| && front[i].start <= n < front[i].end;
          assert hs[i] == front[i];
        }
      }
    }
  }

  /** Appending a later range keeps the list canonical and adds exactly that range. */
  lemma Append(hs: seq<SeqRange>, h: SeqRange)
    requires Canonical(hs) && h.start < h.end <= MAX_SEQ
    requires hs == [] || Last(hs).end < h.start
    ensures Canonical(hs + [h]) && Missing(hs + [h]) == Missing(hs) + Interval(h.start, h.end)
  {
    CanonicalAppend(hs, h);
    MissingAppend(hs, h);
  }

  lemma MissingAppend(hs: seq<SeqRange>, h: SeqRange)
    ensures Missing(hs + [h]) == Missing(hs) + Interval(h.start, h.end)
  {
    assert Front(hs + [h]) == hs;
  }

  /** A canonical list is determined by the set it denotes. */
  lemma {:induction false} CanonicalUnique(a: seq<SeqRange>, b: seq<SeqRange>)
    requires Canonical(a) && Canonical(b) && Missing(a) == Missing(b)
    ensures a == b
    decreases |a|
  {
    EmptyIff(a);
    EmptyIff(b);
    if a != [] {
      SameTails(a, b);
      CanonicalTail(a);
      CanonicalTail(b);
      CanonicalUnique(a[1..], b[1..]);
      assert a == [a[0]] + a[1..] && b == [b[0]] + b[1..];
    }
  }

  lemma EmptyIff(a: seq<SeqRange>)
    requires Canonical(a)
    ensures a == [] <==> Missing(a) == {}
  {
    if a != [] {
      assert Last(a).start in Missing(a);
    }
  }

  lemma SameTails(a: seq<SeqRange>, b: seq<SeqRange>)
    requires Canonical(a) && Canonical(b) && Missing(a) == Missing(b) && a != [] && b != []
    ensures a[0] == b[0] && Missing(a[1..]) == Missing(b[1..])
  {
    FirstRange(a, b);
    FirstRange(b, a);
    forall n: nat ensures n in Missing(a[1..]) <==> n in Missing(b[1..]) {
      TailCovers(a, n);
      TailCovers(b, n);
    }
  }

  lemma TailCovers(a: seq<SeqRange>, n: nat)
    requires Canonical(a) && a != []
    ensures n in Missing(a[1..]) <==> n in Missing(a) && n >= a[0].end
  {
    MissingCovers(a);
    MissingCovers(a[1..]);
    CanonicalOrder(a);
    if n in Missing(a[1..]) {
      var i :| 0 <= i < |a| - 1 && a[1..][i].start <= n < a[1..][i].end;
      assert a[i + 1].start <= n < a[i + 1].end;
    }
    if n in Missing(a) && n >= a[0].end {
      var i :| 0 <= i < |a| && a[i].start <= n < a[i].end;
      assert a[1..][i - 1].start <= n < a[1..][i - 1].end;
    }
  }

  lemma FirstRange(a: seq<SeqRange>, b: seq<SeqRange>)
    requires Canonical(a) && Canonical(b) && Missing(a) == Missing(b) && a != [] && b != []
    ensures a[0].start <= b[0].start && (a[0].start == b[0].start ==> a[0].end <= b[0].end)
  {
    MissingCovers(a);
    MissingCovers(b);
    CanonicalOrder(a);
    CanonicalOrder(b);
    assert b[0].start in Missing(b);
    assert b[0].end !in Missing(b);
    assert !Covers(a, b[0].end);
    assert !(a[0].start <= b[0].end < a[0].end);
  }

  lemma {:induction false} IntervalSize(a: nat, b: nat)
    requires a <= b
    ensures |Interval(a, b)| == b - a
    decreases b - a
  {
    if a == b {
      assert Interval(a, b) == {};
    } else {
      IntervalSize(a, b - 1);
      assert Interval(a, b) == Interval(a, b - 1) + {b - 1};
    }
  }

  /** The least member of `s` at or above `from`. */
  ghost predicate IsFirstMissing(s: set<nat>, from: nat, f: nat) {
    f in s && f >= from && forall n :: n in s && n >= from ==> f <= n
  }

  ghost function Above(s: set<nat>, from: nat): set<nat> {
    set n | n in s && n >= from
  }

  ghost predicate IsLeast(s: set<nat>, m: nat) {
    m in s && forall n :: n in s ==> m <= n
  }

  lemma {:induction false} Least(s: set<nat>) returns (m: nat)
    requires s != {}
    ensures IsLeast(s, m)
  {
    var x :| x in s;
    m := x;
    var rest := s - {x};
    if rest != {} {
      var k := Least(rest);
      m := if x < k then x else k;
      forall n | n in s ensures m <= n {
        assert n == x || n in rest;
      }
    } else {
      assert s == rest + {x};
    }
  }

  lemma MinExists(s: set<nat>)
    requires s != {}
    ensures exists m: nat :: IsLeast(s, m)
  {
    var m := Least(s);
  }

  /** What `ContinuousThrough` means on the denoted set: the number just before the first
      missing one at or after the cursor (0 when that one is 0), or no bound at all. */
  ghost function Through(s: set<nat>, cursor: nat): (r: nat)
    ensures Above(s, cursor) == {} ==> r == MAX_SEQ
    ensures forall f: nat :: IsFirstMissing(s, cursor, f) ==> r == if f == 0 then 0 else f - 1
  {
    assert forall g: nat :: IsFirstMissing(s, cursor, g) ==> g in Above(s, cursor);
    if Above(s, cursor) == {} then MAX_SEQ
    else
      MinExists(Above(s, cursor));
      var f: nat :| IsLeast(Above(s, cursor), f);
      assert forall g :: IsFirstMissing(s, cursor, g) ==> g == f;
      if f == 0 then 0 else f - 1
  }

  function Hull(m: SeqRange, h: SeqRange): SeqRange {
    SeqRange(if h.start < m.start then h.start else m.start, if h.end > m.end then h.end else m.end)
  }

  /** Loop invariant of `Add`: the emitted ranges, with the pending one while it is not
      emitted yet, denote what was there among the ranges read so far plus the new interval. */
  ghost predicate Adding(result: seq<SeqRange>, merged: SeqRange, inserted: bool, read: set<nat>, added: set<nat>) {
    && Canonical(result)
    && merged.start < merged.end <= MAX_SEQ
    && (!inserted && result != [] ==> Last(result).end < merged.start)
    && (if inserted then Missing(result) else Missing(result) + Interval(merged.start, merged.end)) == read + added
  }

  /** A range below the pending one is passed on. */
  lemma AddBefore(result: seq<SeqRange>, merged: SeqRange, inserted: bool, read: seq<SeqRange>, hole: SeqRange,
                  added: set<nat>)
    requires Adding(result, merged, inserted, Missing(read), added) && hole.start < hole.end < merged.start
    requires result != [] ==> Last(result).end < hole.start
    ensures Adding(result + [hole], merged, inserted, Missing(read + [hole]), added)
  {
    MissingAppend(read, hole);
    Append(result, hole);
  }

  /** A range above it comes behind it. */
  lemma AddBehind(result: seq<SeqRange>, merged: SeqRange, inserted: bool, read: seq<SeqRange>, hole: SeqRange,
                  added: set<nat>)
    requires Adding(result, merged, inserted, Missing(read), added) && merged.end < hole.start < hole.end <= MAX_SEQ
    requires result != [] ==> Last(result).end < hole.start
    ensures Adding((if inserted then result else result + [merged]) + [hole],
                   merged, true, Missing(read + [hole]), added)
  {
    MissingAppend(read, hole);
    if inserted {
      Append(result, hole);
      Swap(Missing(result), Missing(read), added, Interval(hole.start, hole.end));
    } else {
      Emitted(result, merged);
      Append(result + [merged], hole);
      Swap(Missing(result + [merged]), Missing(read), added, Interval(hole.start, hole.end));
    }
  }

  lemma Emitted(result: seq<SeqRange>, merged: SeqRange)
    requires Canonical(result) && merged.start < merged.end <= MAX_SEQ
    requires result != [] ==> Last(result).end < merged.start
    ensures Canonical(result + [merged]) && Last(result + [merged]) == merged
    ensures Missing(result + [merged]) == Missing(result) + Interval(merged.start, merged.end)
  {
    Append(result, merged);
  }

  lemma Swap(x: set<nat>, read: set<nat>, added: set<nat>, more: set<nat>)
    requires x == read + added
    ensures x + more == read + more + added
  {
  }

  /** A range that touches it is merged into it. */
  lemma AddMerged(result: seq<SeqRange>, merged: SeqRange, read: seq<SeqRange>, hole: SeqRange, added: set<nat>)
    requires Adding(result, merged, false, Missing(read), added) && hole.start < hole.end <= MAX_SEQ
    requires hole.start <= merged.end && merged.start <= hole.end
    requires result != [] ==> Last(result).end < hole.start
    ensures Adding(result, Hull(merged, hole), false, Missing(read + [hole]), added)
  {
    MissingAppend(read, hole);
    var hull := Hull(merged, hole);
    assert Interval(hull.start, hull.end) == Interval(merged.start, merged.end) + Interval(hole.start, hole.end);
  }

  /** The sum of the widths. */
  function Widths(hs: seq<SeqRange>): int {
    if hs == [] then 0 else Widths(Front(hs)) + (Last(hs).end - Last(hs).start)
  }

  /** It is the number of missing numbers. */
  lemma {:induction false} WidthsCount(hs: seq<SeqRange>)
    requires Canonical(hs)
    ensures Widths(hs) == |Missing(hs)|
  {
    if hs != [] {
      WidthsCount(Front(hs));
      LastIsNew(hs);
      WiderBy(Missing(Front(hs)), Last(hs), Missing(hs));
    }
  }

  lemma LastIsNew(hs: seq<SeqRange>)
    requires Canonical(hs) && hs != []
    ensures Missing(Front(hs)) !! Interval(Last(hs).start, Last(hs).end)
  {
    CanonicalOrder(hs);
    MissingCovers(Front(hs));
  }

  lemma WiderBy(a: set<nat>, h: SeqRange, b: set<nat>)
    requires h.start < h.end && a !! Interval(h.start, h.end) && b == a + Interval(h.start, h.end)
    ensures |b| == |a| + (h.end - h.start)
  {
    IntervalSize(h.start, h.end);
    SizeOfUnion(a, Interval(h.start, h.end));
  }

  lemma SizeOfUnion(a: set<nat>, b: set<nat>)
    requires a !! b
    ensures |a + b| == |a| + |b|
  {
  }

  /** What `Fill` keeps of one range. */
  function Remnants(hole: SeqRange, start: nat, end: nat): seq<SeqRange> {
    if hole.end <= start || hole.start >= end then [hole]
    else
      (if hole.start < start then [SeqRange(hole.start, start)] else []) +
      (if hole.end > end then [SeqRange(end, hole.end)] else [])
  }

  /** One round of `Fill`'s loop. */
  lemma FillOne(result: seq<SeqRange>, read: seq<SeqRange>, hole: SeqRange, start: nat, end: nat)
    requires Canonical(result) && Missing(result) == Missing(read) - Interval(start, end)
    requires start < end && hole.start < hole.end <= MAX_SEQ
    requires result != [] ==> Last(result).end < hole.start
    ensures var result' := result + Remnants(hole, start, end);
            && Canonical(result')
            && (result' != [] ==> Last(result').end <= hole.end)
            && Missing(result') == Missing(read + [hole]) - Interval(start, end)
  {
    MissingAppend(read, hole);
    RemnantsDenote(hole, start, end);
    Concat(result, Remnants(hole, start, end));
  }

  /** The remnants lie inside the range, in order, and denote exactly what is left of it. */
  lemma RemnantsDenote(hole: SeqRange, start: nat, end: nat)
    requires start < end && hole.start < hole.end <= MAX_SEQ
    ensures var r := Remnants(hole, start, end);
            && Canonical(r)
            && (r != [] ==> hole.start <= r[0].start && Last(r).end <= hole.end)
            && Missing(r) == Interval(hole.start, hole.end) - Interval(start, end)
  {
    var r := Remnants(hole, start, end);
    var left, right := SeqRange(hole.start, start), SeqRange(end, hole.end);
    if hole.end <= start || hole.start >= end {
      Append([], hole);
      assert r == [] + [hole];
    } else if hole.start < start {
      Append([], left);
      assert r == if hole.end > end then [] + [left] + [right] else [] + [left];
      if hole.end > end { Append([] + [left], right); }
    } else if hole.end > end {
      Append([], right);
      assert r == [] + [right];
    }
  }

  lemma {:induction false} Concat(a: seq<SeqRange>, b: seq<SeqRange>)
    requires Canonical(a) && Canonical(b)
    requires a != [] && b != [] ==> Last(a).end < b[0].start
    ensures Canonical(a + b) && Missing(a + b) == Missing(a) + Missing(b)
    decreases |b|
  {
    if b == [] {
      assert a + b == a;
    } else {
      var front, last := Front(b), Last(b);
      assert front != [] ==> front[0] == b[0];
      Concat(a, front);
      var h := Rejoin(a, b);
      Append(h, last);
    }
  }

  lemma Rejoin(a: seq<SeqRange>, b: seq<SeqRange>) returns (h: seq<SeqRange>)
    requires b != []
    ensures h == a + Front(b) && a + b == h + [Last(b)]
    ensures h != [] ==> Last(h) == if Front(b) == [] then Last(a) else Last(Front(b))
  {
    h := a + Front(b);
  }

  /** Some member of `s` lies in [start, end). */
  ghost predicate Touches(s: set<nat>, start: nat, end: nat) {
    exists n :: n in s && start <= n < end
  }

  lemma TouchOne(read: seq<SeqRange>, hole: SeqRange, start: nat, end: nat)
    requires start < end && hole.start < hole.end
    ensures Touches(Missing(read + [hole]), start, end) <==>
            Touches(Missing(read), start, end) || !(hole.end <= start || hole.start >= end)
  {
    MissingAppend(read, hole);
    var common := if hole.start < start then start else hole.start;
    assert !(hole.end <= start || hole.start >= end) ==> common in Missing(read + [hole]);
  }

  /** What the search of `ContinuousThrough` finds: `i` is the first range ending after the cursor. */
  lemma FirstRangeAfter(hs: seq<SeqRange>, cursor: nat, i: nat)
    requires Canonical(hs) && i <= |hs|
    requires forall k :: 0 <= k < i ==> hs[k].end <= cursor
    requires forall k :: i <= k < |hs| ==> hs[k].end > cursor
    ensures i == |hs| ==> Above(Missing(hs), cursor) == {}
    ensures i < |hs| ==> IsFirstMissing(Missing(hs), cursor, if hs[i].start <= cursor then cursor else hs[i].start)
  {
    CanonicalOrder(hs);
    MissingCovers(hs);
  }

  lemma MissingBelow(hs: seq<SeqRange>)
    requires Canonical(hs)
    ensures forall n :: n in Missing(hs) ==> n < MAX_SEQ
  {
    MissingCovers(hs);
  }

  class HoleTracker {
    var holes: seq<SeqRange>

    ghost predicate Valid()
      reads this
    {
      Canonical(holes)
    }

    /** The abstract value: the missing sequence numbers. */
    ghost function Set(): set<nat>
      reads this
    {
      Missing(holes)
    }

    constructor ()
      ensures Valid() && Set() == {} && holes == []
    {
      holes := [];
    }

    /** Set union; overlapping and adjacent ranges are merged into one. */
    method Add(start: nat, end: nat)
      requires Valid() && end <= MAX_SEQ
      modifies this
      ensures Valid() && Set() == old(Set()) + Interval(start, end)
    {
      if start >= end {
        return;
      }
      var merged := SeqRange(start, end);
      var result: seq<SeqRange> := [];
      var inserted := false;
      var i := 0;
      CanonicalOrder(holes);
      assert holes[..0] == [];
      while i < |holes|
        invariant 0 <= i <= |holes| && holes == old(holes)
        invariant Adding(result, merged, inserted, Missing(holes[..i]), Interval(start, end))
        invariant result != [] && i < |holes| ==> Last(result).end < holes[i].start
        invariant inserted && i < |holes| ==> merged.end < holes[i].start
      {
        var hole := holes[i];
        assert holes[..i + 1] == holes[..i] + [hole];
        if hole.end < merged.start {
          AddBefore(result, merged, inserted, holes[..i], hole, Interval(start, end));
          result := result + [hole];
        } else if hole.start > merged.end {
          AddBehind(result, merged, inserted, holes[..i], hole, Interval(start, end));
          if !inserted {
            result := result + [merged];
            inserted := true;
          }
          result := result + [hole];
        } else {
          AddMerged(result, merged, holes[..i], hole, Interval(start, end));
          merged := Hull(merged, hole);
        }
        i := i + 1;
      }
      assert holes[..i] == holes;
      if !inserted {
        Append(result, merged);
        result := result + [merged];
      }
      holes := result;
    }

    /** Set difference; the answer says whether anything missing was filled. */
    method Fill(start: nat, end: nat) returns (affected: bool)
      requires Valid()
      modifies this
      ensures Valid() && Set() == old(Set()) - Interval(start, end)
      ensures affected <==> Touches(old(Set()), start, end)
    {
      if start >= end || |holes| == 0 {
        return false;
      }
      var result: seq<SeqRange> := [];
      affected := false;
      var i := 0;
      CanonicalOrder(holes);
      assert holes[..0] == [];
      while i < |holes|
        invariant 0 <= i <= |holes| && holes == old(holes)
        invariant Canonical(result) && Missing(result) == Missing(holes[..i]) - Interval(start, end)
        invariant result != [] && i < |holes| ==> Last(result).end < holes[i].start
        invariant affected <==> Touches(Missing(holes[..i]), start, end)
      {
        var hole := holes[i];
        assert holes[..i + 1] == holes[..i] + [hole];
        FillOne(result, holes[..i], hole, start, end);
        TouchOne(holes[..i], hole, start, end);
        if !(hole.end <= start || hole.start >= end) {
          affected := true;
        }
        result := result + Remnants(hole, start, end);
        i := i + 1;
      }
      assert holes[..i] == holes;
      holes := result;
    }

    /** The cardinality of the denoted set. */
    method TotalMissing() returns (total: nat)
      requires Valid()
      ensures total == |Set()|
    {
      CanonicalOrder(holes);
      WidthsCount(holes);
      total := 0;
      for i := 0 to |holes|
        invariant total == Widths(holes[..i])
      {
        assert Front(holes[..i + 1]) == holes[..i];
        total := total + (holes[i].end - holes[i].start);
      }
      assert holes[..|holes|] == holes;
    }

    /** The binary search for the first hole ending after the cursor. */
    method ContinuousThrough(cursor: nat) returns (r: nat)
      requires Valid()
      ensures r == Through(Set(), cursor)
      ensures r == MAX_SEQ <==> Above(Set(), cursor) == {}
    {
      if |holes| == 0 {
        return MAX_SEQ;
      }
      CanonicalOrder(holes);
      var lo, hi := 0, |holes|;
      while lo < hi
        invariant 0 <= lo <= hi <= |holes|
        invariant forall k :: 0 <= k < lo ==> holes[k].end <= cursor
        invariant forall k :: hi <= k < |holes| ==> holes[k].end > cursor
      {
        var mid := (lo + hi) / 2;
        if holes[mid].end <= cursor { lo := mid + 1; } else { hi := mid; }
      }
      FirstRangeAfter(holes, cursor, lo);
      if lo >= |holes| {
        return MAX_SEQ;
      }
      var hole := holes[lo];
      if hole.start <= cursor {
        if cursor == 0 { return 0; }
        return cursor - 1;
      }
      return hole.start - 1;
    }
  }
}
