/** Bytes, little-endian integers and variable-length integers, as `encoding/binary` has them. */
module Bytes {

  type byte = x: nat | x < 256

  function Pow256(n: nat): (r: nat)
    ensures r > 0
  {
    if n == 0 then 1 else 256 * Pow256(n - 1)
  }

  lemma Pow256Constants()
    ensures Pow256(1) == 0x100 && Pow256(2) == 0x1_0000 && Pow256(4) == 0x1_0000_0000
    ensures Pow256(8) == 0x1_0000_0000_0000_0000
  {
    assert Pow256(3) == 0x100_0000 && Pow256(5) == 0x100_0000_0000 && Pow256(6) == 0x1_0000_0000_0000;
    assert Pow256(7) == 0x100_0000_0000_0000;
  }

  /** The low `n` bytes of `v`, least significant first. */
  function PutLE(v: nat, n: nat): (s: seq<byte>)
    ensures |s| == n
  {
    if n == 0 then [] else [v % 256] + PutLE(v / 256, n - 1)
  }

  function GetLE(s: seq<byte>): (v: nat)
    ensures v < Pow256(|s|)
  {
    if s == [] then 0 else s[0] + 256 * GetLE(s[1..])
  }

  lemma {:induction false} GetPutLE(v: nat, n: nat)
    requires v < Pow256(n)
    ensures GetLE(PutLE(v, n)) == v
  {
    if n > 0 {
      GetPutLE(v / 256, n - 1);
      assert PutLE(v, n)[1..] == PutLE(v / 256, n - 1);
    }
  }

  lemma {:induction false} GetLEInjective(s: seq<byte>, t: seq<byte>)
    requires |s| == |t| && GetLE(s) == GetLE(t)
    ensures s == t
  {
    if s != [] {
      assert GetLE(s) % 256 == s[0] && GetLE(t) % 256 == t[0];
      GetLEInjective(s[1..], t[1..]);
      assert s == [s[0]] + s[1..] && t == [t[0]] + t[1..];
    }
  }

  // ---- Concatenations ----

  /** One of the two starts with the other. */
  predicate Agree(a: seq<byte>, b: seq<byte>) {
    a <= b || b <= a
  }

  /** What agrees with a concatenation agrees with its first part and, if it holds that, goes on
      in agreement with the second. */
  lemma AgreeSplit(x: seq<byte>, y: seq<byte>, s: seq<byte>)
    requires Agree(s, x + y)
    ensures Agree(s, x) && (|x| <= |s| ==> x <= s && Agree(s[|x|..], y))
  {
    if x + y <= s {
      PrefixSplit(x, y, s);
    } else if |x| <= |s| {
      assert x == s[..|x|];
      assert s[|x|..] == y[..|s| - |x|];
    } else {
      assert s == x[..|s|];
    }
  }

  /** What starts with a concatenation starts with its first part, and goes on with the second. */
  lemma PrefixSplit(x: seq<byte>, y: seq<byte>, s: seq<byte>)
    requires x + y <= s
    ensures x <= s && y <= s[|x|..]
  {
    assert s[..|x|] == x && s[|x|..][..|y|] == y;
  }

  function Flatten(parts: seq<seq<byte>>): seq<byte> {
    if parts == [] then [] else Flatten(parts[..|parts| - 1]) + parts[|parts| - 1]
  }

  lemma {:induction false} FlattenConcat(a: seq<seq<byte>>, b: seq<seq<byte>>)
    ensures Flatten(a + b) == Flatten(a) + Flatten(b)
    decreases |b|
  {
    if b == [] {
      assert a + b == a;
    } else {
      var front := b[..|b| - 1];
      FlattenConcat(a, front);
      assert (a + b)[..|a + b| - 1] == a + front;
      assert Flatten(a) + (Flatten(front) + b[|b| - 1]) == Flatten(a) + Flatten(front) + b[|b| - 1];
    }
  }

  lemma FlattenOne(p: seq<byte>)
    ensures Flatten([p]) == p
  {
    assert [p][..0] == [];
  }

  lemma FlattenTake(parts: seq<seq<byte>>, k: nat)
    requires k < |parts|
    ensures Flatten(parts[..k + 1]) == Flatten(parts[..k]) + parts[k]
  {
    assert parts[..k + 1][..k] == parts[..k];
  }

  lemma FlattenDrop(parts: seq<seq<byte>>, k: nat)
    requires k < |parts|
    ensures Flatten(parts[k..]) == parts[k] + Flatten(parts[k + 1..])
  {
    assert parts[k..] == [parts[k]] + parts[k + 1..];
    FlattenConcat([parts[k]], parts[k + 1..]);
    FlattenOne(parts[k]);
  }

  lemma FlattenCons(parts: seq<seq<byte>>)
    requires parts != []
    ensures Flatten(parts) == parts[0] + Flatten(parts[1..])
  {
    FlattenDrop(parts, 0);
    assert parts[0..] == parts;
  }

  lemma FlattenHalves(parts: seq<seq<byte>>, k: nat)
    requires k <= |parts|
    ensures Flatten(parts) == Flatten(parts[..k]) + Flatten(parts[k..])
  {
    assert parts == parts[..k] + parts[k..];
    FlattenConcat(parts[..k], parts[k..]);
  }

  /** How many of the parts lie wholly within the first `n` bytes. */
  function Whole(parts: seq<seq<byte>>, n: nat): (k: nat)
    ensures k <= |parts| && |Flatten(parts[..k])| <= n
    ensures k < |parts| ==> n < |Flatten(parts[..k + 1])|
    decreases |parts|
  {
    if parts == [] || |parts[0]| > n then
      (if parts != [] then FlattenOne(parts[0]); assert parts[..1] == [parts[0]]; 0 else 0)
    else
      var k := 1 + Whole(parts[1..], n - |parts[0]|);
      FirstTake(parts, k);
      (if k < |parts| then FirstTake(parts, k + 1); k else k)
  }

  lemma FirstTake(parts: seq<seq<byte>>, k: nat)
    requires 1 <= k <= |parts|
    ensures Flatten(parts[..k]) == parts[0] + Flatten(parts[1..][..k - 1])
  {
    FlattenDrop(parts[..k], 0);
    assert parts[..k][0..] == parts[..k] && parts[..k][1..] == parts[1..][..k - 1];
  }

  /** All of the parts do exactly if their bytes are no more than that. */
  lemma WholeIff(parts: seq<seq<byte>>, n: nat)
    ensures Whole(parts, n) == |parts| <==> |Flatten(parts)| <= n
  {
    var k := Whole(parts, n);
    assert parts[..|parts|] == parts;
    if k < |parts| {
      FlattenHalves(parts, k + 1);
    }
  }

  // ---- Variable-length integers ----

  function PutUvarint(v: nat): (s: seq<byte>)
    ensures |s| >= 1
  {
    if v < 128 then [v] else [v % 128 + 128] + PutUvarint(v / 128)
  }

  /** The size loop of the journal writer. */
  method UvarintSize(v: nat) returns (n: nat)
    ensures n == |PutUvarint(v)|
  {
    n := 1;
    var rest := v;
    while rest >= 0x80
      invariant n - 1 + |PutUvarint(rest)| == |PutUvarint(v)|
      decreases rest
    {
      rest := rest / 128;
      n := n + 1;
    }
  }

  datatype Varint = Bad | Got(value: nat, size: nat)

  /** Reading a 64-bit varint whose first byte is the `i`-th: `Bad` when the input ends early, at
      an eleventh byte, or when the tenth byte exceeds one bit. */
  function UvarintFrom(buf: seq<byte>, i: nat): (r: Varint)
    ensures r.Got? ==> 1 <= r.size <= |buf|
    decreases |buf|
  {
    if buf == [] || i == 10 then Bad
    else if buf[0] < 0x80 then
      if i == 9 && buf[0] > 1 then Bad else Got(buf[0], 1)
    else
      match UvarintFrom(buf[1..], i + 1)
      case Bad => Bad
      case Got(v, n) => Got(buf[0] - 0x80 + 128 * v, n + 1)
  }

  function Uvarint(buf: seq<byte>): (r: Varint)
    ensures r.Got? ==> 1 <= r.size <= |buf|
  {
    UvarintFrom(buf, 0)
  }

  /** 2 to the power `64 - 7 * i`: what is left for the `i`-th and later bytes. */
  function Room(i: nat): nat
    requires i <= 9
    decreases 9 - i
  {
    if i == 9 then 2 else 128 * Room(i + 1)
  }

  lemma RoomStart()
    ensures Room(0) == Pow256(8)
  {
    assert Room(6) == 0x40_0000 && Room(3) == 0x800_0000_0000;
    Pow256Constants();
  }

  lemma {:induction false} UvarintFromPut(v: nat, s: seq<byte>, i: nat)
    requires i <= 9 && v < Room(i) && PutUvarint(v) <= s
    ensures UvarintFrom(s, i) == Got(v, |PutUvarint(v)|)
    decreases v
  {
    if v >= 128 {
      PrefixSplit([v % 128 + 128], PutUvarint(v / 128), s);
      UvarintFromPut(v / 128, s[1..], i + 1);
    }
  }

  /** Every 64-bit value survives, whatever follows it. */
  lemma UvarintPut(v: nat, s: seq<byte>)
    requires v < Pow256(8) && PutUvarint(v) <= s
    ensures Uvarint(s) == Got(v, |PutUvarint(v)|)
  {
    RoomStart();
    UvarintFromPut(v, s, 0);
  }

  lemma {:induction false} UvarintFromCut(v: nat, s: seq<byte>, i: nat)
    requires s <= PutUvarint(v) && |s| < |PutUvarint(v)|
    ensures UvarintFrom(s, i) == Bad
    decreases v
  {
    if s != [] && i != 10 {
      var tail := PutUvarint(v / 128);
      assert PutUvarint(v)[1..] == tail && s[1..] <= tail;
      UvarintFromCut(v / 128, s[1..], i + 1);
    }
  }

  /** A value that is cut off does not read at all. */
  lemma UvarintCut(v: nat, s: seq<byte>)
    requires s <= PutUvarint(v) && |s| < |PutUvarint(v)|
    ensures Uvarint(s) == Bad
  {
    UvarintFromCut(v, s, 0);
  }

  // ---- Writing into a buffer in place ----

  function Overwrite(s: seq<byte>, off: nat, t: seq<byte>): (r: seq<byte>)
    requires off + |t| <= |s|
    ensures |r| == |s|
  {
    seq(|s|, k requires 0 <= k < |s| => if off <= k < off + |t| then t[k - off] else s[k])
  }

  method PutAt(buf: array<byte>, off: nat, t: seq<byte>)
    requires off + |t| <= buf.Length
    modifies buf
    ensures buf[..] == Overwrite(old(buf[..]), off, t)
  {
    var k := 0;
    while k < |t|
      invariant 0 <= k <= |t|
      invariant forall j :: 0 <= j < buf.Length ==> buf[j] == if off <= j < off + k then t[j - off] else old(buf[j])
    {
      buf[off + k] := t[k];
      k := k + 1;
    }
  }
}
