/** Bit fields in the code the PGN generator emits. Words and buffers are sequences of bits, least
    significant first, so a little-endian load is a slice; shifts and masks are bitwise operations. */
module PgnBits {

  type Bits = seq<bool>

  // ---- Numbers ----

  function Pow2(n: nat): (r: nat)
    ensures r > 0
  {
    if n == 0 then 1 else 2 * Pow2(n - 1)
  }

  function ToBits(v: nat, n: nat): (b: Bits)
    ensures |b| == n
  {
    if n == 0 then [] else [v % 2 == 1] + ToBits(v / 2, n - 1)
  }

  function FromBits(b: Bits): (v: nat)
    ensures v < Pow2(|b|)
  {
    if b == [] then 0 else (if b[0] then 1 else 0) + 2 * FromBits(b[1..])
  }

  function Ones(n: nat): Bits {
    seq(n, _ => true)
  }

  lemma {:induction false} FromTo(v: nat, n: nat)
    ensures FromBits(ToBits(v, n)) == v <==> v < Pow2(n)
  {
    if n > 0 {
      FromTo(v / 2, n - 1);
      assert ToBits(v, n)[1..] == ToBits(v / 2, n - 1);
    }
  }

  lemma {:induction false} ToFrom(b: Bits)
    ensures ToBits(FromBits(b), |b|) == b
  {
    if b != [] {
      ToFrom(b[1..]);
      assert FromBits(b) / 2 == FromBits(b[1..]) && (FromBits(b) % 2 == 1 <==> b[0]);
    }
  }

  /** The sentinel: all bits set, and nothing else. */
  lemma {:induction false} AllOnes(b: Bits)
    ensures FromBits(b) == Pow2(|b|) - 1 <==> b == Ones(|b|)
  {
    if b != [] {
      AllOnes(b[1..]);
      assert b == [b[0]] + b[1..];
      assert Ones(|b|)[1..] == Ones(|b| - 1);
      if b[0] && b[1..] == Ones(|b| - 1) {
        assert b == Ones(|b|);
      }
    }
  }

  lemma {:induction false} LowBits(v: nat, n: nat, k: nat)
    requires k <= n
    ensures ToBits(v, n)[..k] == ToBits(v, k)
  {
    if k > 0 {
      LowBits(v / 2, n - 1, k - 1);
      assert ToBits(v, n)[..k] == [v % 2 == 1] + ToBits(v / 2, n - 1)[..k - 1];
    }
  }

  /** Leading zero bits do not change a number. */
  lemma {:induction false} Widened(b: Bits, n: nat)
    requires |b| <= n
    ensures FromBits(Resize(b, n)) == FromBits(b)
    decreases n
  {
    if n > 0 {
      var rest := if b == [] then [] else b[1..];
      Widened(rest, n - 1);
      assert Resize(b, n)[1..] == Resize(rest, n - 1);
    }
  }

  // ---- Words ----

  function And(a: Bits, b: Bits): (r: Bits)
    requires |a| == |b|
    ensures |r| == |a|
  {
    seq(|a|, i requires 0 <= i < |a| => a[i] && b[i])
  }

  function Or(a: Bits, b: Bits): (r: Bits)
    requires |a| == |b|
    ensures |r| == |a|
  {
    seq(|a|, i requires 0 <= i < |a| => a[i] || b[i])
  }

  function Not(a: Bits): (r: Bits)
    ensures |r| == |a|
  {
    seq(|a|, i requires 0 <= i < |a| => !a[i])
  }

  function Shl(a: Bits, k: nat): (r: Bits)
    ensures |r| == |a|
  {
    seq(|a|, i requires 0 <= i < |a| => i >= k && a[i - k])
  }

  function Shr(a: Bits, k: nat): (r: Bits)
    ensures |r| == |a|
  {
    seq(|a|, i requires 0 <= i < |a| => i + k < |a| && a[i + k])
  }

  /** Conversion to another width: cut off, or filled with zeros. */
  function Resize(a: Bits, width: nat): (r: Bits)
    ensures |r| == width
  {
    seq(width, i requires 0 <= i < width => i < |a| && a[i])
  }

  /** The constant with the low `bits` bits set. */
  function Mask(bits: nat, width: nat): (r: Bits)
    ensures |r| == width
  {
    seq(width, i requires 0 <= i < width => i < bits)
  }

  // ---- Emitted accesses ----

  /** Emitted code reads or writes a word of `width` bits at byte `off`: all of it, or `bits` bits
      from `shift` on. */
  datatype Access = Whole(off: nat, width: nat) | Part(off: nat, width: nat, shift: nat, bits: nat)

  predicate Standard(bits: nat) {
    bits == 8 || bits == 16 || bits == 32 || bits == 64
  }

  /** The access the generator emits, for reads and writes alike. */
  function Emit(start: nat, bits: nat): Access {
    var off, shift := start / 8, start % 8;
    if shift == 0 && Standard(bits) then Whole(off, bits)
    else if shift + bits <= 8 then Part(off, 8, shift, bits)
    else if shift + bits <= 16 then Part(off, 16, shift, bits)
    else if shift + bits <= 32 then Part(off, 32, shift, bits)
    else Part(off, 64, shift, bits)
  }

  predicate Within(a: Access, data: Bits) {
    8 * a.off + a.width <= |data|
  }

  function Load(data: Bits, off: nat, width: nat): (w: Bits)
    requires 8 * off + width <= |data|
    ensures |w| == width
  {
    data[8 * off..8 * off + width]
  }

  function Store(data: Bits, off: nat, w: Bits): (r: Bits)
    requires 8 * off + |w| <= |data|
    ensures |r| == |data|
  {
    data[..8 * off] + w + data[8 * off + |w|..]
  }

  /** Running an emitted read: `(word >> shift) & mask`. */
  function RunRead(a: Access, data: Bits): (w: Bits)
    requires Within(a, data)
    ensures |w| == a.width
  {
    var word := Load(data, a.off, a.width);
    match a
    case Whole(_, _) => word
    case Part(_, width, shift, bits) => And(Shr(word, shift), Mask(bits, width))
  }

  /** Running an emitted write of a 64-bit value: `(word & ^(mask << shift)) | ((raw & mask) << shift)`. */
  function RunWrite(a: Access, data: Bits, raw: Bits): (r: Bits)
    requires Within(a, data) && |raw| == 64
    ensures |r| == |data|
  {
    match a
    case Whole(off, width) => Store(data, off, Resize(raw, width))
    case Part(off, width, shift, bits) =>
      var kept := And(Load(data, off, width), Not(Shl(Mask(bits, width), shift)));
      Store(data, off, Or(kept, Resize(Shl(And(raw, Mask(bits, 64)), shift), width)))
  }

  /** A field the generator supports for writing: within a window of 32 bits, or a whole number of
      64 at a byte boundary. For wider windows the emitted mask is not a valid constant. */
  predicate Fits(start: nat, bits: nat) {
    bits >= 1 && (start % 8 + bits <= 32 || (start % 8 == 0 && bits == 64))
  }

  /** What an emitted read means: the field's own bits. */
  lemma ReadMeans(start: nat, bits: nat, data: Bits)
    requires 1 <= bits && start % 8 + bits <= 64 && Within(Emit(start, bits), data)
    ensures start + bits <= |data|
    ensures RunRead(Emit(start, bits), data) == Resize(data[start..start + bits], Emit(start, bits).width)
  {
    var a := Emit(start, bits);
    var word := Load(data, a.off, a.width);
    assert start == 8 * a.off + start % 8;
    forall i | 0 <= i < a.width ensures RunRead(a, data)[i] == (i < bits && data[start + i]) {
      if i < bits {
        assert word[start % 8 + i] == data[start + i];
      }
    }
  }

  /** What an emitted write means: the field's bits replaced, all others as they were. */
  lemma WriteMeans(start: nat, bits: nat, data: Bits, raw: Bits)
    requires Fits(start, bits) && Within(Emit(start, bits), data) && |raw| == 64
    ensures start + bits <= |data|
    ensures RunWrite(Emit(start, bits), data, raw) == data[..start] + raw[..bits] + data[start + bits..]
  {
    EmitShape(start, bits);
    AccessMeans(Emit(start, bits), start, bits, data, raw);
  }

  /** The emitted access covers the field. */
  ghost predicate Covers(a: Access, start: nat, bits: nat) {
    match a
    case Whole(off, width) => start == 8 * off && bits == width <= 64
    case Part(off, width, shift, n) => start == 8 * off + shift && n == bits && shift + bits <= width <= 64
  }

  lemma EmitShape(start: nat, bits: nat)
    requires 1 <= bits && start % 8 + bits <= 64
    ensures Covers(Emit(start, bits), start, bits)
  {
  }

  lemma AccessMeans(a: Access, start: nat, bits: nat, data: Bits, raw: Bits)
    requires Covers(a, start, bits) && Within(a, data) && |raw| == 64
    ensures RunWrite(a, data, raw) == data[..start] + raw[..bits] + data[start + bits..]
  {
    match a
    case Whole(off, width) => WholeMeans(data, off, width, raw);
    case Part(off, width, shift, n) => PartMeans(data, off, width, shift, n, raw);
  }

  lemma WholeMeans(data: Bits, off: nat, width: nat, raw: Bits)
    requires 8 * off + width <= |data| && width <= |raw|
    ensures Store(data, off, Resize(raw, width)) == data[..8 * off] + raw[..width] + data[8 * off + width..]
  {
    assert Resize(raw, width) == raw[..width];
  }

  lemma PartMeans(data: Bits, off: nat, width: nat, shift: nat, bits: nat, raw: Bits)
    requires 8 * off + width <= |data| && shift + bits <= width <= 64 && |raw| == 64
    ensures RunWrite(Part(off, width, shift, bits), data, raw) ==
            data[..8 * off + shift] + raw[..bits] + data[8 * off + shift + bits..]
  {
    MergeMeans(Load(data, off, width), shift, bits, raw);
    StoreMeans(data, off, width, shift, raw[..bits]);
  }

  lemma MergeMeans(word: Bits, shift: nat, bits: nat, raw: Bits)
    requires shift + bits <= |word| <= 64 && |raw| == 64
    ensures Or(And(word, Not(Shl(Mask(bits, |word|), shift))), Resize(Shl(And(raw, Mask(bits, 64)), shift), |word|))
            == word[..shift] + raw[..bits] + word[shift + bits..]
  {
  }

  lemma StoreMeans(data: Bits, off: nat, width: nat, shift: nat, part: Bits)
    requires 8 * off + width <= |data| && shift + |part| <= width
    ensures var word := Load(data, off, width); var start := 8 * off + shift;
            Store(data, off, word[..shift] + part + word[shift + |part|..]) ==
            data[..start] + part + data[start + |part|..]
  {
  }

  /** A read gives the field in every buffer if and only if the field ends within 64 bits of the
      byte it begins in; wider ones lose their top bits. */
  lemma ReadExactIff(start: nat, bits: nat)
    requires 1 <= bits <= 64
    ensures (forall data: Bits | Within(Emit(start, bits), data) && start + bits <= |data| ::
               FromBits(RunRead(Emit(start, bits), data)) == FromBits(data[start..start + bits]))
            <==> start % 8 + bits <= 64
  {
    var a := Emit(start, bits);
    if start % 8 + bits <= 64 {
      forall data: Bits | Within(a, data) && start + bits <= |data|
        ensures FromBits(RunRead(a, data)) == FromBits(data[start..start + bits])
      {
        ReadMeans(start, bits, data);
        Widened(data[start..start + bits], a.width);
      }
    } else {
      var data := Ones(start + bits + 8);
      TopBitsLost(start, bits, data);
      assert Within(a, data) && start + bits <= |data|;
    }
  }

  lemma TopBitsLost(start: nat, bits: nat, data: Bits)
    requires bits <= 64 < start % 8 + bits && data == Ones(start + bits + 8)
    ensures Within(Emit(start, bits), data)
    ensures FromBits(RunRead(Emit(start, bits), data)) != FromBits(data[start..start + bits])
  {
    var a := Emit(start, bits);
    var got, want := RunRead(a, data), data[start..start + bits];
    assert want == Ones(bits);
    AllOnes(want);
    assert !got[64 - start % 8];
    ToFrom(got);
    ToFrom(Resize(want, 64));
    Widened(want, 64);
    assert Resize(want, 64)[64 - start % 8];
  }

  // ---- How far accesses reach ----

  /** One past the last byte accessed, as the generator computes it for buffer sizes. */
  function FieldReadEnd(start: nat, bits: nat): nat {
    var off, shift := start / 8, start % 8;
    if shift == 0 && bits == 8 then off + 1
    else if shift == 0 && bits == 16 then off + 2
    else if shift == 0 && bits == 32 then off + 4
    else if shift == 0 && bits == 64 then off + 8
    else if shift + bits <= 8 then off + 1
    else if shift + bits <= 16 then off + 2
    else if shift + bits <= 32 then off + 4
    else off + 8
  }

  /** It mirrors the accesses emitted. */
  lemma EndMirrorsAccess(start: nat, bits: nat)
    ensures var a := Emit(start, bits); 8 * a.off + a.width == 8 * FieldReadEnd(start, bits)
    ensures start % 8 + bits <= 64 ==> start + bits <= 8 * FieldReadEnd(start, bits)
  {
  }

  /** Consecutive elements of a repeated field never reach less far, whatever their windows. */
  lemma EndsRise(start: nat, bits: nat)
    requires bits >= 1 && start % 8 + bits <= 64 && (start + bits) % 8 + bits <= 64
    ensures FieldReadEnd(start, bits) <= FieldReadEnd(start + bits, bits)
  {
    var next := start + bits;
    assert next / 8 == start / 8 + (start % 8 + bits) / 8;
  }
}
