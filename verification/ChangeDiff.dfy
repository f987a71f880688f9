/** Compact differences between packets of equal length: a bit mask of the bytes that changed, and
    those bytes. */
module ChangeDiff {
  import opened Options
  import opened Bytes
  import opened PgnBits

  // ---- Bits of a byte ----

  lemma Byte(b: Bits)
    requires |b| == 8
    ensures FromBits(b) < 256
  {
    assert Pow2(8) == 256 by {
      assert Pow2(4) == 16;
    }
  }

  function SetBit(b: byte, k: nat): byte
    requires k < 8
  {
    Byte(ToBits(b, 8)[k := true]);
    FromBits(ToBits(b, 8)[k := true])
  }

  predicate TestBit(b: byte, k: nat)
    requires k < 8
  {
    ToBits(b, 8)[k]
  }

  lemma TestSet(b: byte, k: nat, j: nat)
    requires k < 8 && j < 8
    ensures TestBit(SetBit(b, k), j) == (j == k || TestBit(b, j))
  {
    ToFrom(ToBits(b, 8)[k := true]);
  }

  lemma TestZero(j: nat)
    requires j < 8
    ensures !TestBit(0, j)
  {
    ZeroBits(8);
  }

  lemma {:induction false} ZeroBits(n: nat)
    ensures forall j :: 0 <= j < n ==> !ToBits(0, n)[j]
  {
    if n > 0 {
      ZeroBits(n - 1);
    }
  }

  // ---- The mask ----

  /** `mask` marks exactly those of the first `k` bytes that changed. */
  ghost predicate Marks(mask: seq<byte>, prev: seq<byte>, curr: seq<byte>, k: nat)
    requires k <= |prev| == |curr| && |mask| == (|curr| + 7) / 8
  {
    forall i {:trigger Marked(mask, i)} :: 0 <= i < |curr| ==> (Marked(mask, i) <==> i < k && prev[i] != curr[i])
  }

  predicate Marked(mask: seq<byte>, i: nat)
    requires i / 8 < |mask|
  {
    TestBit(mask[i / 8], i % 8)
  }

  lemma MarkNext(mask: seq<byte>, next: seq<byte>, prev: seq<byte>, curr: seq<byte>, k: nat)
    requires k < |prev| == |curr| && |mask| == (|curr| + 7) / 8 && Marks(mask, prev, curr, k)
    requires next == if prev[k] != curr[k] then mask[k / 8 := SetBit(mask[k / 8], k % 8)] else mask
    ensures Marks(next, prev, curr, k + 1)
  {
    forall i | 0 <= i < |curr| ensures Marked(next, i) <==> i < k + 1 && prev[i] != curr[i] {
      assert Marked(mask, i) <==> i < k && prev[i] != curr[i];
      if prev[k] != curr[k] && i / 8 == k / 8 {
        TestSet(mask[k / 8], k % 8, i % 8);
        assert i % 8 == k % 8 <==> i == k;
      }
    }
  }

  /** The mask after comparing the first `k` bytes. */
  function MaskOf(prev: seq<byte>, curr: seq<byte>, k: nat): (mask: seq<byte>)
    requires k <= |prev| == |curr|
    ensures |mask| == (|curr| + 7) / 8
  {
    if k == 0 then seq((|curr| + 7) / 8, _ => 0)
    else
      var mask, i := MaskOf(prev, curr, k - 1), k - 1;
      if prev[i] != curr[i] then mask[i / 8 := SetBit(mask[i / 8], i % 8)] else mask
  }

  lemma {:induction false} MaskMarks(prev: seq<byte>, curr: seq<byte>, k: nat)
    requires k <= |prev| == |curr|
    ensures Marks(MaskOf(prev, curr, k), prev, curr, k)
  {
    if k == 0 {
      forall i | 0 <= i < |curr| ensures !Marked(MaskOf(prev, curr, 0), i) {
        TestZero(i % 8);
      }
    } else {
      MaskMarks(prev, curr, k - 1);
      MarkNext(MaskOf(prev, curr, k - 1), MaskOf(prev, curr, k), prev, curr, k - 1);
    }
  }

  /** The bytes that changed among the first `k`. */
  function Changed(prev: seq<byte>, curr: seq<byte>, k: nat): (c: seq<byte>)
    requires k <= |prev| == |curr|
    ensures |c| <= k
  {
    if k == 0 then []
    else Changed(prev, curr, k - 1) + if prev[k - 1] != curr[k - 1] then [curr[k - 1]] else []
  }

  lemma {:induction false} ChangedNone(prev: seq<byte>, curr: seq<byte>, k: nat)
    requires k <= |prev| == |curr|
    ensures Changed(prev, curr, k) == [] <==> prev[..k] == curr[..k]
  {
    if k > 0 {
      ChangedNone(prev, curr, k - 1);
      assert prev[..k] == prev[..k - 1] + [prev[k - 1]] && curr[..k] == curr[..k - 1] + [curr[k - 1]];
    }
  }

  method Compare(prev: seq<byte>, curr: seq<byte>) returns (mask: seq<byte>, changed: seq<byte>)
    requires |prev| == |curr|
    ensures mask == MaskOf(prev, curr, |curr|) && changed == Changed(prev, curr, |curr|)
  {
    mask, changed := seq((|curr| + 7) / 8, _ => 0), [];
    for i := 0 to |curr|
      invariant mask == MaskOf(prev, curr, i) && changed == Changed(prev, curr, i)
    {
      if prev[i] != curr[i] {
        mask := mask[i / 8 := SetBit(mask[i / 8], i % 8)];
        changed := changed + [curr[i]];
      }
    }
  }

  /** The encoded difference: a short form for packets of up to eight bytes. */
  function Encoded(mask: seq<byte>, changed: seq<byte>, n: nat): seq<byte>
    requires n <= 8 ==> |mask| >= 1
  {
    if n <= 8 then [mask[0]] + changed else PutLE(|mask|, 2) + mask + changed
  }

  function DiffOf(prev: seq<byte>, curr: seq<byte>): seq<byte>
    requires |prev| == |curr| > 0
  {
    Encoded(MaskOf(prev, curr, |curr|), Changed(prev, curr, |curr|), |curr|)
  }

  /** Whether anything changed, and how. */
  method Diff(prev: seq<byte>, curr: seq<byte>) returns (significant: bool, diff: seq<byte>)
    ensures significant <==> prev != curr
    ensures significant && |prev| == |curr| ==> diff == DiffOf(prev, curr)
  {
    if |prev| != |curr| {
      return true, [];
    }
    var mask, changed := Compare(prev, curr);
    ChangedNone(prev, curr, |curr|);
    assert prev[..|curr|] == prev && curr[..|curr|] == curr;
    if changed == [] {
      return false, [];
    }
    return true, Encoded(mask, changed, |curr|);
  }

  // ---- Applying a difference ----

  datatype Applied = Panic | Applied(out: seq<byte>, used: nat)

  /** Rebuilding the first `k` bytes; an index beyond mask or bytes panics. */
  function Rebuilt(prev: seq<byte>, mask: seq<byte>, changed: seq<byte>, k: nat): (r: Applied)
    requires k <= |prev|
    ensures r.Applied? ==> |r.out| == k && r.used <= |changed|
  {
    if k == 0 then Applied([], 0)
    else
      match Rebuilt(prev, mask, changed, k - 1)
      case Panic => Panic
      case Applied(out, used) =>
        if (k - 1) / 8 >= |mask| then Panic
        else if !Marked(mask, k - 1) then Applied(out + [prev[k - 1]], used)
        else if used < |changed| then Applied(out + [changed[used]], used + 1)
        else Panic
  }

  function Apply(prev: seq<byte>, diff: seq<byte>): Option<seq<byte>> {
    var n := |prev|;
    if n <= 8 then
      if diff == [] then None else Whole(Rebuilt(prev, diff[..1], diff[1..], n))
    else if |diff| < 2 then None
    else
      var len := GetLE(diff[..2]);
      if 2 + len > |diff| then None else Whole(Rebuilt(prev, diff[2..2 + len], diff[2 + len..], n))
  }

  function Whole(r: Applied): Option<seq<byte>> {
    match r case Panic => None case Applied(out, _) => Some(out)
  }

  /** The loop over the packet, with a running index into the changed bytes. */
  method ApplyLoop(prev: seq<byte>, mask: seq<byte>, changed: seq<byte>) returns (r: Option<seq<byte>>)
    ensures r == Whole(Rebuilt(prev, mask, changed, |prev|))
  {
    var out, ci := prev, 0;
    for i := 0 to |prev|
      invariant |out| == |prev| && out[i..] == prev[i..] && Rebuilt(prev, mask, changed, i) == Applied(out[..i], ci)
    {
      if i / 8 >= |mask| {
        PanicStays(prev, mask, changed, i + 1);
        return None;
      }
      ghost var was := out[..i];
      if Marked(mask, i) {
        if ci >= |changed| {
          PanicStays(prev, mask, changed, i + 1);
          return None;
        }
        RebuiltNext(prev, mask, changed, i, was, ci, changed[ci]);
        out := out[i := changed[ci]];
        ci := ci + 1;
      } else {
        RebuiltNext(prev, mask, changed, i, was, ci, prev[i]);
        assert out[i..][0] == prev[i..][0];
      }
      assert out[..i + 1] == was + [out[i]];
    }
    assert out[..|prev|] == out;
    return Some(out);
  }

  /** Applying a difference to a packet. */
  method Patch(prev: seq<byte>, diff: seq<byte>) returns (r: Option<seq<byte>>)
    ensures r == Apply(prev, diff)
  {
    if |prev| <= 8 {
      if diff == [] {
        return None;
      }
      r := ApplyLoop(prev, diff[..1], diff[1..]);
    } else {
      if |diff| < 2 {
        return None;
      }
      var len := GetLE(diff[..2]);
      if 2 + len > |diff| {
        return None;
      }
      r := ApplyLoop(prev, diff[2..2 + len], diff[2 + len..]);
    }
  }

  lemma {:induction false} PanicStays(prev: seq<byte>, mask: seq<byte>, changed: seq<byte>, k: nat)
    requires k <= |prev| && Rebuilt(prev, mask, changed, k) == Panic
    ensures Rebuilt(prev, mask, changed, |prev|) == Panic
    decreases |prev| - k
  {
    if k < |prev| {
      PanicStays(prev, mask, changed, k + 1);
    }
  }

  lemma {:induction false} RebuiltRight(prev: seq<byte>, curr: seq<byte>, mask: seq<byte>, changed: seq<byte>, k: nat)
    requires |prev| == |curr| && |mask| == (|curr| + 7) / 8 && Marks(mask, prev, curr, |curr|) && k <= |curr|
    requires changed == Changed(prev, curr, |curr|)
    ensures Rebuilt(prev, mask, changed, k) == Applied(curr[..k], |Changed(prev, curr, k)|)
  {
    if k > 0 {
      RebuiltRight(prev, curr, mask, changed, k - 1);
      var used := |Changed(prev, curr, k - 1)|;
      assert Marked(mask, k - 1) <==> prev[k - 1] != curr[k - 1];
      ChangedAt(prev, curr, k - 1, used);
      RebuiltNext(prev, mask, changed, k - 1, curr[..k - 1], used, curr[k - 1]);
      TakeNext(curr, k);
    }
  }

  lemma TakeNext(s: seq<byte>, k: nat)
    requires 1 <= k <= |s|
    ensures s[..k] == s[..k - 1] + [s[k - 1]]
  {
  }

  lemma ChangedAt(prev: seq<byte>, curr: seq<byte>, k: nat, used: nat)
    requires k < |prev| == |curr| && used == |Changed(prev, curr, k)|
    ensures prev[k] != curr[k] ==> used < |Changed(prev, curr, |curr|)| && Changed(prev, curr, |curr|)[used] == curr[k]
    ensures |Changed(prev, curr, k + 1)| == if prev[k] != curr[k] then used + 1 else used
  {
    ChangedIn(prev, curr, k + 1, |curr|);
    assert prev[k] != curr[k] ==> Changed(prev, curr, k + 1)[used] == curr[k];
  }

  lemma RebuiltNext(prev: seq<byte>, mask: seq<byte>, changed: seq<byte>, k: nat, out: seq<byte>, used: nat, b: byte)
    requires k < |prev| && Rebuilt(prev, mask, changed, k) == Applied(out, used) && k / 8 < |mask|
    requires if Marked(mask, k) then used < |changed| && changed[used] == b else prev[k] == b
    ensures Rebuilt(prev, mask, changed, k + 1) == Applied(out + [b], if Marked(mask, k) then used + 1 else used)
  {
  }

  lemma {:induction false} ChangedIn(prev: seq<byte>, curr: seq<byte>, k: nat, n: nat)
    requires k <= n <= |prev| == |curr|
    ensures Changed(prev, curr, k) <= Changed(prev, curr, n)
  {
    if k < n {
      ChangedIn(prev, curr, k, n - 1);
    }
  }

  const LONGEST: nat := 524280

  lemma ApplyShort(prev: seq<byte>, curr: seq<byte>, mask: seq<byte>)
    requires 1 <= |prev| == |curr| <= 8 && |mask| == 1 && Marks(mask, prev, curr, |curr|)
    ensures Apply(prev, Encoded(mask, Changed(prev, curr, |curr|), |curr|)) == Some(curr)
  {
    var changed := Changed(prev, curr, |curr|);
    var diff := [mask[0]] + changed;
    assert diff[..1] == mask && diff[1..] == changed;
    RebuiltRight(prev, curr, mask, Changed(prev, curr, |curr|), |curr|);
    assert curr[..|curr|] == curr;
  }

  lemma Fields(mask: seq<byte>, changed: seq<byte>)
    requires |mask| < 0x1_0000
    ensures var diff := PutLE(|mask|, 2) + mask + changed;
            GetLE(diff[..2]) == |mask| && diff[2..2 + |mask|] == mask && diff[2 + |mask|..] == changed
  {
    Pow256Constants();
    GetPutLE(|mask|, 2);
    assert (PutLE(|mask|, 2) + mask + changed)[..2] == PutLE(|mask|, 2);
  }

  lemma ApplyLong(prev: seq<byte>, curr: seq<byte>, mask: seq<byte>)
    requires 8 < |prev| == |curr| <= LONGEST && |mask| == (|curr| + 7) / 8 && Marks(mask, prev, curr, |curr|)
    ensures Apply(prev, Encoded(mask, Changed(prev, curr, |curr|), |curr|)) == Some(curr)
  {
    Fields(mask, Changed(prev, curr, |curr|));
    RebuiltRight(prev, curr, mask, Changed(prev, curr, |curr|), |curr|);
    assert curr[..|curr|] == curr;
  }

  /** Applying a difference to the old packet gives the new one if and only if the packet is short
      enough for its mask length to fit 16 bits; beyond that, applying panics. */
  lemma ApplyDiffIff(prev: seq<byte>, curr: seq<byte>)
    requires |prev| == |curr| > 0
    ensures Apply(prev, DiffOf(prev, curr)) == Some(curr) <==> |curr| <= LONGEST
    ensures |curr| > LONGEST ==> Apply(prev, DiffOf(prev, curr)) == None
  {
    var mask := MaskOf(prev, curr, |curr|);
    MaskMarks(prev, curr, |curr|);
    if |curr| <= 8 {
      ApplyShort(prev, curr, mask);
    } else if |curr| <= LONGEST {
      ApplyLong(prev, curr, mask);
    } else {
      TooLong(prev, DiffOf(prev, curr), mask, Changed(prev, curr, |curr|));
    }
  }

  lemma TooLong(prev: seq<byte>, diff: seq<byte>, mask: seq<byte>, changed: seq<byte>)
    requires |prev| > LONGEST && |mask| == (|prev| + 7) / 8 && diff == PutLE(|mask|, 2) + mask + changed
    ensures Apply(prev, diff) == None
  {
    var len := GetLE(diff[..2]);
    Pow256Constants();
    assert len < 0x1_0000 <= |mask|;
    ShortMask(prev, diff[2..2 + len], diff[2 + len..]);
  }

  lemma ShortMask(prev: seq<byte>, mask: seq<byte>, changed: seq<byte>)
    requires 8 * |mask| < |prev|
    ensures Rebuilt(prev, mask, changed, |prev|) == Panic
  {
    PanicStays(prev, mask, changed, 8 * |mask| + 1);
  }
}
