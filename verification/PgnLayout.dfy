/** Packet layouts of the PGN generator: bit offsets assigned by `Resolve`, the buffer size, and the
    encoder and decoder it emits for a packet of unsigned fields, as programs that are run here. */
module PgnLayout {
  import opened Options
  import opened PgnBits

  /** `n` times `bits`. */
  function Times(bits: nat, n: nat): nat {
    if n == 0 then 0 else Times(bits, n - 1) + bits
  }

  lemma {:induction false} TimesIsProduct(bits: nat, n: nat)
    ensures Times(bits, n) == bits * n
  {
    if n > 0 {
      TimesIsProduct(bits, n - 1);
    }
  }

  lemma {:induction false} TimesRise(bits: nat, i: nat, n: nat)
    requires i < n
    ensures Times(bits, i) + bits <= Times(bits, n)
  {
    if i < n - 1 {
      TimesRise(bits, i, n - 1);
    }
  }

  datatype FieldType = Uint | Enum | Reserved | Unknown

  datatype FieldDef = FieldDef(
    typ: FieldType, bits: nat, bitStart: nat,
    repeatCount: nat, // 0: not repeated
    matchValue: Option<nat>,
    lookup: bool, // has a lookup table
    referenced: bool) // another field refers to this one
  {
    predicate Skipped() {
      typ == Reserved || typ == Unknown
    }

    predicate Repeated() {
      repeatCount > 0
    }

    predicate Nullable() {
      !Repeated() && matchValue.None? && !referenced && !lookup && bits != 1 && (typ == Uint || typ == Enum)
    }

    function Count(): nat {
      if Repeated() then repeatCount else 1
    }

    function Width(): (w: nat)
      ensures !Repeated() ==> w == bits
    {
      assert Times(bits, 1) == Times(bits, 0) + bits;
      Times(bits, Count())
    }

    function ElemStart(i: nat): nat {
      bitStart + Times(bits, i)
    }

    /** The end of the last element, which stands for all in the buffer size. */
    function End(): nat {
      FieldReadEnd(ElemStart(Count() - 1), bits)
    }

    predicate ElemFits(i: nat) {
      Fits(ElemStart(i), bits)
    }

    /** Every element fits its window, and a discriminator value fits its field. */
    ghost predicate Windowed() {
      && bits >= 1
      && (forall i {:trigger ElemFits(i)} :: 0 <= i < Count() ==> ElemFits(i))
      && (matchValue.Some? ==> matchValue.value < Pow2(bits))
    }

    /** Nothing is asked of skipped fields: no access to them is emitted. */
    ghost predicate Supported() {
      Skipped() || Windowed()
    }
  }

  // ---- Offsets ----

  function StartOf(fs: seq<FieldDef>, k: nat): nat
    requires k <= |fs|
  {
    if k == 0 then 0 else StartOf(fs, k - 1) + fs[k - 1].Width()
  }

  ghost predicate StartsAt(fs: seq<FieldDef>, k: nat)
    requires k < |fs|
  {
    fs[k].bitStart == StartOf(fs, k)
  }

  /** Every field begins where the fields before it end. */
  ghost predicate Resolved(fs: seq<FieldDef>) {
    forall k {:trigger StartsAt(fs, k)} :: 0 <= k < |fs| ==> StartsAt(fs, k)
  }

  /** Offsets depend on the widths alone. */
  lemma {:induction false} SameStarts(fs: seq<FieldDef>, gs: seq<FieldDef>, k: nat)
    requires |fs| == |gs| && k <= |fs| && forall i :: 0 <= i < k ==> gs[i].Width() == fs[i].Width()
    ensures StartOf(fs, k) == StartOf(gs, k)
  {
    if k > 0 {
      SameStarts(fs, gs, k - 1);
    }
  }

  /** `f` is the `k`-th of `fs` with its offset assigned. */
  ghost predicate Placed(f: FieldDef, fs: seq<FieldDef>, k: nat)
    requires k < |fs|
  {
    f == fs[k].(bitStart := StartOf(fs, k))
  }

  ghost predicate PlacedUpTo(fs: seq<FieldDef>, was: seq<FieldDef>, n: nat)
    requires n <= |fs| == |was|
  {
    forall k {:trigger Placed(fs[k], was, k)} :: 0 <= k < n ==> Placed(fs[k], was, k)
  }

  lemma PlacedResolved(fs: seq<FieldDef>, was: seq<FieldDef>)
    requires |fs| == |was| && PlacedUpTo(fs, was, |fs|)
    ensures Resolved(fs)
  {
    forall k | 0 <= k < |fs| ensures StartsAt(fs, k) {
      forall i | 0 <= i < k ensures fs[i].Width() == was[i].Width() {
        assert Placed(fs[i], was, i);
      }
      SameStarts(fs, was, k);
      assert Placed(fs[k], was, k);
    }
  }

  lemma PlaceNext(fs: seq<FieldDef>, was: seq<FieldDef>, j: nat)
    requires |fs| == |was| && j < |fs| && PlacedUpTo(fs, was, j)
    ensures PlacedUpTo(fs[j := was[j].(bitStart := StartOf(was, j))], was, j + 1)
    ensures StartOf(was, j + 1) == StartOf(was, j) + was[j].Width()
  {
    var next := fs[j := was[j].(bitStart := StartOf(was, j))];
    forall k | 0 <= k < j + 1 ensures Placed(next[k], was, k) {
      assert k < j ==> Placed(fs[k], was, k);
    }
  }

  /** Lays the fields out one behind the other, in place; nothing else about them changes. */
  method Resolve(fields: array<FieldDef>)
    modifies fields
    ensures Resolved(fields[..]) && PlacedUpTo(fields[..], old(fields[..]), fields.Length)
  {
    var offset: nat, j := 0, 0;
    ghost var was := fields[..];
    while j < fields.Length
      invariant 0 <= j <= fields.Length && offset == StartOf(was, j)
      invariant PlacedUpTo(fields[..], was, j) && fields[j..] == was[j..]
    {
      ghost var now := fields[..];
      var f := fields[j];
      assert f == fields[j..][0] == was[j];
      PlaceNext(now, was, j);
      fields[j] := f.(bitStart := offset);
      assert fields[..] == now[j := f.(bitStart := offset)];
      offset := offset + f.Width();
      j := j + 1;
    }
    PlacedResolved(fields[..], was);
  }

  method TotalBits(fs: seq<FieldDef>) returns (total: nat)
    ensures total == StartOf(fs, |fs|)
  {
    total := 0;
    for i := 0 to |fs|
      invariant total == StartOf(fs, i)
    {
      TimesIsProduct(fs[i].bits, fs[i].Count());
      total := total + if fs[i].Repeated() then fs[i].bits * fs[i].repeatCount else fs[i].bits;
    }
  }

  /** The furthest end of any field. */
  method MinBufferBytes(fs: seq<FieldDef>) returns (n: nat)
    ensures Roomy(fs, n) && (n == 0 || exists k :: 0 <= k < |fs| && fs[k].End() == n)
  {
    n := 0;
    for i := 0 to |fs|
      invariant forall k :: 0 <= k < i ==> fs[k].End() <= n
      invariant n == 0 || exists k :: 0 <= k < i && fs[k].End() == n
    {
      var end := fs[i].End();
      if end > n {
        n := end;
      }
    }
  }

  /** `n` bytes are enough for every field. */
  ghost predicate Roomy(fs: seq<FieldDef>, n: nat) {
    forall k {:trigger fs[k].End()} :: 0 <= k < |fs| ==> fs[k].End() <= n
  }

  lemma {:induction false} ElementEnds(f: FieldDef, i: nat)
    requires f.Windowed() && i < f.Count()
    ensures FieldReadEnd(f.ElemStart(i), f.bits) <= f.End()
    decreases f.Count() - i
  {
    if i < f.Count() - 1 {
      assert f.ElemFits(i) && f.ElemFits(i + 1);
      assert f.ElemStart(i + 1) == f.ElemStart(i) + f.bits;
      EndsRise(f.ElemStart(i), f.bits);
      ElementEnds(f, i + 1);
    }
  }

  // ---- Emitted programs ----

  /** One emitted write: `bits` bits of `v` at bit `start`. */
  datatype Stmt = Stmt(start: nat, bits: nat, v: nat)

  /** The access fits its window and stays within a buffer of `n` bytes. */
  predicate Safe(st: Stmt, n: nat) {
    Fits(st.start, st.bits) && FieldReadEnd(st.start, st.bits) <= n
  }

  ghost predicate AllSafe(p: seq<Stmt>, n: nat) {
    forall i :: 0 <= i < |p| ==> Safe(p[i], n)
  }

  /** How one statement changes a buffer. */
  type Step = (Bits, Stmt) -> Bits

  function Exec(step: Step, p: seq<Stmt>, data: Bits): Bits {
    if p == [] then data else step(Exec(step, p[..|p| - 1], data), p[|p| - 1])
  }

  function Run(st: Stmt, data: Bits): (r: Bits)
    requires 8 * FieldReadEnd(st.start, st.bits) <= |data|
  {
    EndMirrorsAccess(st.start, st.bits);
    RunWrite(Emit(st.start, st.bits), data, ToBits(st.v, 64))
  }

  /** Running the emitted code; an access past the end of the buffer would panic. */
  function Runner(): Step {
    (data: Bits, st: Stmt) => if 8 * FieldReadEnd(st.start, st.bits) <= |data| then Run(st, data) else []
  }

  /** What a write should do: replace the field's bits and no others. */
  function Splice(data: Bits, start: nat, b: Bits): (r: Bits)
    requires start + |b| <= |data|
    ensures |r| == |data|
  {
    data[..start] + b + data[start + |b|..]
  }

  ghost predicate SplicesAt(step: Step, data: Bits, st: Stmt) {
    st.start + st.bits <= |data| && step(data, st) == Splice(data, st.start, ToBits(st.v, st.bits))
  }

  /** `step` does what it should on buffers of `n` bytes. */
  ghost predicate Splices(step: Step, n: nat) {
    forall data, st {:trigger SplicesAt(step, data, st)} :: |data| == 8 * n && Safe(st, n) ==> SplicesAt(step, data, st)
  }

  /** The emitted code does. */
  lemma RunnerSplices(n: nat)
    ensures Splices(Runner(), n)
  {
    forall data: Bits, st: Stmt | |data| == 8 * n && Safe(st, n) ensures SplicesAt(Runner(), data, st) {
      RunSplices(data, st);
    }
  }

  lemma RunSplices(data: Bits, st: Stmt)
    requires Fits(st.start, st.bits) && 8 * FieldReadEnd(st.start, st.bits) <= |data|
    ensures SplicesAt(Runner(), data, st)
  {
    EndMirrorsAccess(st.start, st.bits);
    WriteMeans(st.start, st.bits, data, ToBits(st.v, 64));
    LowBits(st.v, 64, st.bits);
  }

  lemma ExecSnoc(step: Step, p: seq<Stmt>, st: Stmt, data: Bits)
    ensures Exec(step, p + [st], data) == step(Exec(step, p, data), st)
  {
    assert (p + [st])[..|p|] == p;
  }

  lemma {:induction false} ExecConcat(step: Step, p: seq<Stmt>, q: seq<Stmt>, data: Bits)
    ensures Exec(step, p + q, data) == Exec(step, q, Exec(step, p, data))
    decreases |q|
  {
    if q == [] {
      assert p + q == p;
    } else {
      ExecConcat(step, p, q[..|q| - 1], data);
      assert (p + q)[..|p + q| - 1] == p + q[..|q| - 1];
    }
  }

  // ---- The encoder of a packet ----

  /** The content of a field of the generated struct. Skipped fields have none; nullable fields are
      pointers, `Missing` when nil. */
  datatype Value = NoValue | Missing | Num(v: nat) | List(vs: seq<nat>)

  predicate Typed(f: FieldDef, v: Value) {
    if f.Skipped() then v == NoValue
    else if f.Repeated() then v.List?
    else v.Num? || (f.Nullable() && v == Missing)
  }

  /** The writes of the first `n` elements of a repeated field; elements that are not there write nothing. */
  function ElemStmts(f: FieldDef, vs: seq<nat>, n: nat): seq<Stmt> {
    if n == 0 then []
    else if n - 1 < |vs| then ElemStmts(f, vs, n - 1) + [Stmt(f.ElemStart(n - 1), f.bits, vs[n - 1])]
    else ElemStmts(f, vs, n - 1)
  }

  function FieldStmts(f: FieldDef, v: Value): seq<Stmt>
    requires Typed(f, v)
  {
    if f.Skipped() then []
    else if f.Repeated() then ElemStmts(f, v.vs, f.repeatCount)
    else if f.matchValue.Some? then [Stmt(f.bitStart, f.bits, f.matchValue.value)]
    else if f.Nullable() && v == Missing then []
    else [Stmt(f.bitStart, f.bits, v.v)]
  }

  ghost predicate Layout(fs: seq<FieldDef>) {
    Resolved(fs) && forall k {:trigger fs[k].Supported()} :: 0 <= k < |fs| ==> fs[k].Supported()
  }

  predicate AllTyped(fs: seq<FieldDef>, m: seq<Value>) {
    |m| == |fs| && forall k {:trigger Typed(fs[k], m[k])} :: 0 <= k < |fs| ==> Typed(fs[k], m[k])
  }

  ghost predicate Packet(fs: seq<FieldDef>, m: seq<Value>) {
    Layout(fs) && AllTyped(fs, m)
  }

  function Program(fs: seq<FieldDef>, m: seq<Value>, k: nat): seq<Stmt>
    requires k <= |fs| && AllTyped(fs, m)
  {
    if k == 0 then [] else Program(fs, m, k - 1) + FieldStmts(fs[k - 1], m[k - 1])
  }

  // No access passes the buffer.

  lemma ElemSafe(f: FieldDef, i: nat, n: nat)
    requires f.Windowed() && f.End() <= n && i < f.Count()
    ensures Safe(Stmt(f.ElemStart(i), f.bits, 0), n)
  {
    ElementEnds(f, i);
    assert f.ElemFits(i);
  }

  lemma {:induction false} ElemsSafe(f: FieldDef, vs: seq<nat>, k: nat, n: nat)
    requires f.Windowed() && f.End() <= n && k <= f.Count()
    ensures AllSafe(ElemStmts(f, vs, k), n)
  {
    if k > 0 {
      ElemsSafe(f, vs, k - 1, n);
      ElementEnds(f, k - 1);
      assert f.ElemFits(k - 1);
    }
  }

  /** All accesses of the encoder stay within `MinBufferBytes`: only the last element of a repeated
      field is looked at for the size, but no other reaches further. */
  lemma {:induction false} ProgramSafe(fs: seq<FieldDef>, m: seq<Value>, k: nat, n: nat)
    requires Packet(fs, m) && k <= |fs| && Roomy(fs, n)
    ensures AllSafe(Program(fs, m, k), n)
  {
    if k > 0 {
      ProgramSafe(fs, m, k - 1, n);
      var f := fs[k - 1];
      assert f.Supported() && Typed(f, m[k - 1]);
      if !f.Skipped() && f.Repeated() {
        ElemsSafe(f, m[k - 1].vs, f.repeatCount, n);
      } else if !f.Skipped() {
        assert f.ElemFits(0) && f.ElemStart(0) == f.bitStart;
        ElementEnds(f, 0);
      }
    }
  }

  // ---- What encoding means ----

  function ElemsImage(bits: nat, vs: seq<nat>, n: nat): (b: Bits)
    ensures |b| == Times(bits, n)
  {
    if n == 0 then [] else ElemsImage(bits, vs, n - 1) + ElemImage(bits, vs, n - 1)
  }

  function ElemImage(bits: nat, vs: seq<nat>, i: nat): (b: Bits)
    ensures |b| == bits
  {
    if i < |vs| then ToBits(vs[i], bits) else Ones(bits)
  }

  /** The bits of one field: its value, or all ones for what is not there. */
  function Image(f: FieldDef, v: Value): (b: Bits)
    requires Typed(f, v)
    ensures |b| == f.Width()
  {
    if f.Skipped() then Ones(f.Width())
    else if f.Repeated() then ElemsImage(f.bits, v.vs, f.repeatCount)
    else if f.matchValue.Some? then ToBits(f.matchValue.value, f.bits)
    else if v == Missing then Ones(f.bits)
    else ToBits(v.v, f.bits)
  }

  function Images(fs: seq<FieldDef>, m: seq<Value>, k: nat): (b: Bits)
    requires k <= |fs| && AllTyped(fs, m)
    ensures |b| == StartOf(fs, k)
  {
    if k == 0 then [] else Images(fs, m, k - 1) + Image(fs[k - 1], m[k - 1])
  }

  lemma ElemBound(f: FieldDef, n: nat)
    requires n <= f.Count()
    ensures f.ElemStart(n) <= f.bitStart + f.Width()
    ensures n < f.Count() ==> f.ElemStart(n) + f.bits == f.ElemStart(n + 1) <= f.bitStart + f.Width()
    ensures n == f.Count() ==> f.ElemStart(n) == f.bitStart + f.Width()
  {
    if n < f.Count() {
      TimesRise(f.bits, n, f.Count());
    }
  }

  /** Ones throughout a range. */
  ghost predicate Blank(data: Bits, start: nat, end: nat)
    requires start <= end <= |data|
  {
    forall i :: start <= i < end ==> data[i]
  }

  /** Putting one more element behind an image. */
  lemma NextElem(data: Bits, start: nat, image: Bits, elem: Bits)
    requires start + |image| + |elem| <= |data|
    ensures Splice(Splice(data, start, image), start + |image|, elem) == Splice(data, start, image + elem)
  {
  }

  lemma BlankElem(data: Bits, start: nat, image: Bits, bits: nat)
    requires start + |image| + bits <= |data| && Blank(data, start + |image|, start + |image| + bits)
    ensures Splice(data, start, image + Ones(bits)) == Splice(data, start, image)
  {
  }

  /** These writes put `image` at `start`, and change nothing else. */
  ghost predicate PutsImage(step: Step, p: seq<Stmt>, data: Bits, start: nat, image: Bits) {
    start + |image| <= |data| && Exec(step, p, data) == Splice(data, start, image)
  }

  lemma PutsNothing(step: Step, data: Bits, start: nat)
    requires start <= |data|
    ensures PutsImage(step, [], data, start, [])
  {
    assert Splice(data, start, []) == data;
  }

  lemma NextStmt(step: Step, n: nat, p: seq<Stmt>, st: Stmt, data: Bits, start: nat, image: Bits)
    requires Splices(step, n) && |data| == 8 * n && Safe(st, n)
    requires PutsImage(step, p, data, start, image) && st.start == start + |image|
    ensures PutsImage(step, p + [st], data, start, image + ToBits(st.v, st.bits))
  {
    assert SplicesAt(step, Splice(data, start, image), st);
    ExecSnoc(step, p, st, data);
    NextElem(data, start, image, ToBits(st.v, st.bits));
  }

  lemma NextBlank(step: Step, p: seq<Stmt>, data: Bits, start: nat, image: Bits, bits: nat)
    requires PutsImage(step, p, data, start, image) && start + |image| + bits <= |data|
    requires Blank(data, start + |image|, start + |image| + bits)
    ensures PutsImage(step, p, data, start, image + Ones(bits))
  {
    BlankElem(data, start, image, bits);
  }

  lemma ElemStep(step: Step, n: nat, p: seq<Stmt>, bits: nat, vs: seq<nat>, i: nat, data: Bits, start: nat,
                 image: Bits, at: nat)
    requires Splices(step, n) && |data| == 8 * n && Safe(Stmt(at, bits, 0), n)
    requires PutsImage(step, p, data, start, image) && at == start + |image| && at + bits <= |data|
    requires Blank(data, at, at + bits)
    ensures PutsImage(step, if i < |vs| then p + [Stmt(at, bits, vs[i])] else p,
                      data, start, image + ElemImage(bits, vs, i))
  {
    if i < |vs| {
      NextStmt(step, n, p, Stmt(at, bits, vs[i]), data, start, image);
    } else {
      NextBlank(step, p, data, start, image, bits);
    }
  }

  lemma {:induction false} ElemsMean(step: Step, n: nat, f: FieldDef, vs: seq<nat>, k: nat, data: Bits)
    returns (p: seq<Stmt>, image: Bits)
    requires Splices(step, n) && |data| == 8 * n && f.Windowed() && f.End() <= n
    requires k <= f.Count() && f.bitStart + f.Width() <= |data| && Blank(data, f.bitStart, f.bitStart + f.Width())
    ensures p == ElemStmts(f, vs, k) && image == ElemsImage(f.bits, vs, k)
    ensures PutsImage(step, p, data, f.bitStart, image)
  {
    if k == 0 {
      p, image := [], [];
      PutsNothing(step, data, f.bitStart);
    } else {
      p, image := ElemsMean(step, n, f, vs, k - 1, data);
      ElemBound(f, k - 1);
      var at := f.ElemStart(k - 1);
      ElemSafe(f, k - 1, n);
      ElemStep(step, n, p, f.bits, vs, k - 1, data, f.bitStart, image, at);
      if k - 1 < |vs| {
        p := p + [Stmt(at, f.bits, vs[k - 1])];
      }
      image := image + ElemImage(f.bits, vs, k - 1);
    }
  }

  /** The writes of one field put its image in place and leave every other bit alone. */
  lemma FieldMeans(step: Step, n: nat, f: FieldDef, v: Value, data: Bits)
    requires Splices(step, n) && |data| == 8 * n && f.Windowed() && f.End() <= n
    requires !f.Skipped() && Typed(f, v)
    requires f.bitStart + f.Width() <= |data| && Blank(data, f.bitStart, f.bitStart + f.Width())
    ensures PutsImage(step, FieldStmts(f, v), data, f.bitStart, Image(f, v))
  {
    if f.Repeated() {
      var p, image := ElemsMean(step, n, f, v.vs, f.repeatCount, data);
    } else {
      PutsNothing(step, data, f.bitStart);
      if FieldStmts(f, v) == [] {
        NextBlank(step, [], data, f.bitStart, [], f.Width());
        assert [] + Ones(f.Width()) == Ones(f.Width());
      } else {
        SingleMeans(step, n, f, FieldStmts(f, v)[0], data);
      }
    }
  }

  lemma SingleMeans(step: Step, n: nat, f: FieldDef, st: Stmt, data: Bits)
    requires Splices(step, n) && |data| == 8 * n && f.Windowed() && f.End() <= n && !f.Repeated()
    requires st.start == f.bitStart && st.bits == f.bits && PutsImage(step, [], data, f.bitStart, [])
    ensures PutsImage(step, [st], data, f.bitStart, ToBits(st.v, st.bits))
  {
    ElementEnds(f, 0);
    assert f.ElemFits(0) && f.ElemStart(0) == f.bitStart;
    NextStmt(step, n, [], st, data, f.bitStart, []);
    assert [] + [st] == [st] && [] + ToBits(st.v, st.bits) == ToBits(st.v, st.bits);
  }

  lemma Settled(before: Bits, image: Bits, size: nat)
    requires |before| + |image| <= size
    ensures Blank(before + Ones(size - |before|), |before|, |before| + |image|)
    ensures Splice(before + Ones(size - |before|), |before|, image) == before + image + Ones(size - |before| - |image|)
  {
  }

  /** What a buffer of `size` bits shows of an image: the image and ones behind it, or as much of it
      as there is room for. */
  function Shown(image: Bits, size: nat): (b: Bits)
    ensures |b| == size
  {
    if |image| <= size then image + Ones(size - |image|) else image[..size]
  }

  /** These writes turn `size` ones into what such a buffer shows of `image`. */
  ghost predicate PutsAll(step: Step, p: seq<Stmt>, size: nat, image: Bits) {
    Exec(step, p, Ones(size)) == Shown(image, size)
  }

  lemma PutsAllNothing(step: Step, size: nat)
    ensures PutsAll(step, [], size, [])
  {
    assert [] + Ones(size) == Ones(size);
  }

  lemma ThenField(step: Step, p: seq<Stmt>, q: seq<Stmt>, size: nat, before: Bits, image: Bits)
    requires |before| + |image| <= size && PutsAll(step, p, size, before)
    requires PutsImage(step, q, before + Ones(size - |before|), |before|, image)
    ensures PutsAll(step, p + q, size, before + image)
  {
    ExecConcat(step, p, q, Ones(size));
    Settled(before, image, size);
  }

  /** A skipped field shows as ones, wherever the buffer ends. */
  lemma ThenNothing(step: Step, p: seq<Stmt>, size: nat, before: Bits, width: nat)
    requires PutsAll(step, p, size, before)
    ensures PutsAll(step, p + [], size, before + Ones(width))
  {
    assert p + [] == p;
    assert Shown(before + Ones(width), size) == Shown(before, size);
  }

  /** The first `k` fields' writes put their images one behind the other. */
  ghost predicate PutsFields(step: Step, n: nat, fs: seq<FieldDef>, m: seq<Value>, k: nat)
    requires AllTyped(fs, m) && k <= |fs|
  {
    PutsAll(step, Program(fs, m, k), 8 * n, Images(fs, m, k))
  }

  /** The program of a packet, run on ones, yields the images of the fields one behind the other. */
  lemma {:induction false} ProgramMeans(step: Step, n: nat, fs: seq<FieldDef>, m: seq<Value>, k: nat)
    requires Splices(step, n) && Packet(fs, m) && Roomy(fs, n) && k <= |fs|
    ensures PutsFields(step, n, fs, m, k)
  {
    if k == 0 {
      PutsNone(step, n, fs, m);
    } else {
      ProgramMeans(step, n, fs, m, k - 1);
      PutsNext(step, n, fs, m, k);
    }
  }

  lemma PutsNone(step: Step, n: nat, fs: seq<FieldDef>, m: seq<Value>)
    requires AllTyped(fs, m)
    ensures PutsFields(step, n, fs, m, 0)
  {
    PutsAllNothing(step, 8 * n);
  }

  lemma PutsNext(step: Step, n: nat, fs: seq<FieldDef>, m: seq<Value>, k: nat)
    requires Splices(step, n) && Packet(fs, m) && Roomy(fs, n) && 0 < k <= |fs| && PutsFields(step, n, fs, m, k - 1)
    ensures PutsFields(step, n, fs, m, k)
  {
    var p, image := Program(fs, m, k - 1), Images(fs, m, k - 1);
    StartOfImages(fs, m, k - 1, image);
    var q, more := AddNext(step, n, fs, m, k - 1, p, image);
    NextProgram(fs, m, k, p, q, image, more);
  }

  lemma StartOfImages(fs: seq<FieldDef>, m: seq<Value>, k: nat, image: Bits)
    requires AllTyped(fs, m) && k < |fs| && image == Images(fs, m, k)
    ensures Typed(fs[k], m[k]) && |image| == StartOf(fs, k)
  {
  }

  lemma NextProgram(fs: seq<FieldDef>, m: seq<Value>, k: nat, p: seq<Stmt>, q: seq<Stmt>, image: Bits, more: Bits)
    requires AllTyped(fs, m) && 0 < k <= |fs| && Typed(fs[k - 1], m[k - 1])
    requires p == Program(fs, m, k - 1) && q == p + FieldStmts(fs[k - 1], m[k - 1])
    requires image == Images(fs, m, k - 1) && more == image + Image(fs[k - 1], m[k - 1])
    ensures q == Program(fs, m, k) && more == Images(fs, m, k)
  {
  }

  lemma AddNext(step: Step, n: nat, fs: seq<FieldDef>, m: seq<Value>, k: nat, p: seq<Stmt>, image: Bits)
    returns (q: seq<Stmt>, more: Bits)
    requires Splices(step, n) && Packet(fs, m) && Roomy(fs, n) && k < |fs| && Typed(fs[k], m[k])
    requires |image| == StartOf(fs, k) && PutsAll(step, p, 8 * n, image)
    ensures q == p + FieldStmts(fs[k], m[k]) && more == image + Image(fs[k], m[k])
    ensures PutsAll(step, q, 8 * n, more)
  {
    q, more := p + FieldStmts(fs[k], m[k]), image + Image(fs[k], m[k]);
    assert fs[k].Supported();
    if fs[k].Skipped() {
      ThenNothing(step, p, 8 * n, image, fs[k].Width());
    } else {
      FieldInside(fs, k, n);
      AddField(step, n, fs[k], m[k], p, image);
    }
  }

  /** A field that is accessed lies within the buffer. */
  lemma FieldInside(fs: seq<FieldDef>, k: nat, n: nat)
    requires Layout(fs) && Roomy(fs, n) && k < |fs| && !fs[k].Skipped()
    ensures fs[k].bitStart == StartOf(fs, k) && fs[k].bitStart + fs[k].Width() <= 8 * n
  {
    assert StartsAt(fs, k) && fs[k].Supported() && fs[k].End() <= n;
    EndCovers(fs[k], n);
  }

  lemma EndCovers(f: FieldDef, n: nat)
    requires f.Windowed() && f.End() <= n
    ensures f.bitStart + f.Width() <= 8 * n
  {
    var last := f.Count() - 1;
    ElemBound(f, last);
    assert f.ElemFits(last);
    EndMirrorsAccess(f.ElemStart(last), f.bits);
    ElemBound(f, f.Count());
  }

  lemma AddField(step: Step, n: nat, f: FieldDef, v: Value, p: seq<Stmt>, image: Bits)
    requires Splices(step, n) && f.Windowed() && !f.Skipped() && Typed(f, v) && f.End() <= n
    requires f.bitStart == |image| && |image| + f.Width() <= 8 * n && PutsAll(step, p, 8 * n, image)
    ensures PutsAll(step, p + FieldStmts(f, v), 8 * n, image + Image(f, v))
  {
    var mine, q := Image(f, v), FieldStmts(f, v);
    Settled(image, mine, 8 * n);
    FieldMeans(step, n, f, v, image + Ones(8 * n - |image|));
    ThenField(step, p, q, 8 * n, image, mine);
  }

  /** `Encode` of the generated code: the emitted writes on a buffer filled with ones. */
  function Encode(fs: seq<FieldDef>, m: seq<Value>, n: nat): Bits
    requires AllTyped(fs, m)
  {
    Exec(Runner(), Program(fs, m, |fs|), Ones(8 * n))
  }

  /** It yields every field's bits at its place, and ones elsewhere; a skipped field too wide for the
      buffer is cut off. */
  lemma EncodeMeans(fs: seq<FieldDef>, m: seq<Value>, n: nat)
    requires Packet(fs, m) && Roomy(fs, n)
    ensures Encode(fs, m, n) == Shown(Images(fs, m, |fs|), 8 * n)
  {
    RunnerSplices(n);
    ProgramMeans(Runner(), n, fs, m, |fs|);
  }

  // ---- The decoder ----

  function ReadBits(data: Bits, start: nat, bits: nat): nat
    requires 8 * FieldReadEnd(start, bits) <= |data|
  {
    EndMirrorsAccess(start, bits);
    FromBits(RunRead(Emit(start, bits), data))
  }

  lemma ReadBitsMeans(data: Bits, start: nat, bits: nat)
    requires Fits(start, bits) && 8 * FieldReadEnd(start, bits) <= |data|
    ensures start + bits <= |data| && ReadBits(data, start, bits) == FromBits(data[start..start + bits])
  {
    EndMirrorsAccess(start, bits);
    ReadMeans(start, bits, data);
    Widened(data[start..start + bits], Emit(start, bits).width);
  }

  /** All reads of a field stay within the buffer. */
  ghost predicate Reach(f: FieldDef, data: Bits) {
    !f.Skipped() ==> forall i :: 0 <= i < f.Count() ==> 8 * FieldReadEnd(f.ElemStart(i), f.bits) <= |data|
  }

  /** The emitted reads of a field, by way of how each reads `bits` bits at `start`. */
  function DecodeWith(read: (nat, nat) -> nat, f: FieldDef): Value {
    if f.Skipped() then NoValue
    else if f.Repeated() then
      List(seq<nat>(f.repeatCount, i requires 0 <= i < f.repeatCount => read(f.ElemStart(i), f.bits)))
    else
      var v := read(f.ElemStart(0), f.bits);
      if f.Nullable() && v == Pow2(f.bits) - 1 then Missing else Num(v)
  }

  /** Running the emitted code. */
  function Emitted(data: Bits): (nat, nat) -> nat {
    (start: nat, bits: nat) => if 8 * FieldReadEnd(start, bits) <= |data| then ReadBits(data, start, bits) else 0
  }

  function Slice(data: Bits, start: nat, bits: nat): nat {
    if start + bits <= |data| then FromBits(data[start..start + bits]) else 0
  }

  /** Taking the number in the field's bits. */
  function Sliced(data: Bits): (nat, nat) -> nat {
    (start: nat, bits: nat) => Slice(data, start, bits)
  }

  function DecodeField(f: FieldDef, data: Bits): Value
    requires Reach(f, data)
  {
    DecodeWith(Emitted(data), f)
  }

  /** A payload shorter than the packet is filled up with ones. */
  function Padded(payload: Bits, n: nat): (data: Bits)
    ensures |data| >= 8 * n
  {
    if |payload| < 8 * n then payload + Ones(8 * n - |payload|) else payload
  }

  lemma SizeReaches(fs: seq<FieldDef>, n: nat, data: Bits, k: nat)
    requires Layout(fs) && Roomy(fs, n) && |data| >= 8 * n && k < |fs|
    ensures Reach(fs[k], data)
  {
    assert fs[k].Supported();
    if !fs[k].Skipped() {
      forall i | 0 <= i < fs[k].Count() ensures 8 * FieldReadEnd(fs[k].ElemStart(i), fs[k].bits) <= |data| {
        ElementEnds(fs[k], i);
      }
    }
  }

  ghost function Decode(fs: seq<FieldDef>, payload: Bits, n: nat): (m: seq<Value>)
    requires Layout(fs) && Roomy(fs, n)
    ensures |m| == |fs|
  {
    var data := Padded(payload, n);
    seq(|fs|, k requires 0 <= k < |fs| => SizeReaches(fs, n, data, k); DecodeField(fs[k], data))
  }

  // ---- The round trip ----

  /** A value the packet can carry: in range, not the sentinel if the field is nullable, the
      discriminator's own value, all elements of a repeated field there. */
  predicate Carried(f: FieldDef, v: Value)
    requires Typed(f, v)
  {
    if f.Skipped() || v == Missing then true
    else if f.Repeated() then |v.vs| == f.repeatCount && forall i :: 0 <= i < |v.vs| ==> v.vs[i] < Pow2(f.bits)
    else if f.matchValue.Some? then v.v == f.matchValue.value
    else if f.Nullable() then v.v < Pow2(f.bits) - 1
    else v.v < Pow2(f.bits)
  }

  ghost predicate AllCarried(fs: seq<FieldDef>, m: seq<Value>)
    requires AllTyped(fs, m)
  {
    forall k | 0 <= k < |fs| :: Typed(fs[k], m[k]) && Carried(fs[k], m[k])
  }

  /** `b` lies in `data` from `start` on. */
  ghost predicate At(data: Bits, start: nat, b: Bits) {
    start + |b| <= |data| && forall j {:trigger b[j]} :: 0 <= j < |b| ==> data[start + j] == b[j]
  }

  lemma AtPart(data: Bits, start: nat, whole: Bits, at: nat, b: Bits)
    requires At(data, start, whole) && At(whole, at, b)
    ensures At(data, start + at, b)
  {
    forall j | 0 <= j < |b| ensures data[start + at + j] == b[j] {
      assert whole[at + j] == b[j];
    }
  }

  lemma AtSlice(data: Bits, start: nat, b: Bits)
    requires At(data, start, b)
    ensures data[start..start + |b|] == b
  {
  }

  lemma AtFront(a: Bits, b: Bits)
    ensures At(a + b, 0, a) && At(a + b, |a|, b)
  {
  }

  lemma {:induction false} ElemIn(bits: nat, vs: seq<nat>, n: nat, i: nat)
    requires i < n
    ensures At(ElemsImage(bits, vs, n), Times(bits, i), ElemImage(bits, vs, i))
  {
    var front, last := ElemsImage(bits, vs, n - 1), ElemImage(bits, vs, n - 1);
    AtFront(front, last);
    if i < n - 1 {
      ElemIn(bits, vs, n - 1, i);
      AtPart(front + last, 0, front, Times(bits, i), ElemImage(bits, vs, i));
    }
  }

  lemma SameReads(a: (nat, nat) -> nat, b: (nat, nat) -> nat, f: FieldDef)
    requires forall i :: 0 <= i < f.Count() ==> a(f.ElemStart(i), f.bits) == b(f.ElemStart(i), f.bits)
    ensures DecodeWith(a, f) == DecodeWith(b, f)
  {
    if !f.Skipped() && f.Repeated() {
      forall i | 0 <= i < f.repeatCount ensures DecodeWith(a, f).vs[i] == DecodeWith(b, f).vs[i] {
        assert a(f.ElemStart(i), f.bits) == b(f.ElemStart(i), f.bits);
      }
    } else {
      assert a(f.ElemStart(0), f.bits) == b(f.ElemStart(0), f.bits);
    }
  }

  lemma EmittedIsSliced(data: Bits, start: nat, bits: nat)
    requires Fits(start, bits) && 8 * FieldReadEnd(start, bits) <= |data|
    ensures start + bits <= |data| && Emitted(data)(start, bits) == Sliced(data)(start, bits)
  {
    ReadBitsMeans(data, start, bits);
  }

  /** The emitted reads mean the numbers in the field's bits. */
  lemma DecodeIsSlice(f: FieldDef, data: Bits)
    requires f.Windowed() && !f.Skipped() && Reach(f, data)
    ensures f.bitStart + f.Width() <= |data| && DecodeField(f, data) == DecodeWith(Sliced(data), f)
  {
    forall i | 0 <= i < f.Count()
      ensures Emitted(data)(f.ElemStart(i), f.bits) == Sliced(data)(f.ElemStart(i), f.bits)
      ensures f.ElemStart(i) + f.bits <= |data|
    {
      assert f.ElemFits(i);
      EmittedIsSliced(data, f.ElemStart(i), f.bits);
    }
    SameReads(Emitted(data), Sliced(data), f);
    ElemBound(f, f.Count() - 1);
    ElemBound(f, f.Count());
  }

  lemma ElemRead(start: nat, bits: nat, vs: seq<nat>, count: nat, data: Bits, i: nat)
    requires i < count && At(data, start, ElemsImage(bits, vs, count))
    ensures i < |vs| ==> (Slice(data, start + Times(bits, i), bits) == vs[i] <==> vs[i] < Pow2(bits))
  {
    if i < |vs| {
      ElemIn(bits, vs, count, i);
      AtPart(data, start, ElemsImage(bits, vs, count), Times(bits, i), ElemImage(bits, vs, i));
      AtSlice(data, start + Times(bits, i), ToBits(vs[i], bits));
      FromTo(vs[i], bits);
    }
  }

  lemma DecodeRepeated(f: FieldDef, vs: seq<nat>, data: Bits)
    requires !f.Skipped() && f.Repeated() && At(data, f.bitStart, ElemsImage(f.bits, vs, f.Count()))
    ensures DecodeWith(Sliced(data), f) == List(vs) <==> Carried(f, List(vs))
  {
    var read := Sliced(data);
    forall i | 0 <= i < f.repeatCount
      ensures i < |vs| ==> (read(f.ElemStart(i), f.bits) == vs[i] <==> vs[i] < Pow2(f.bits))
    {
      ElemRead(f.bitStart, f.bits, vs, f.Count(), data, i);
    }
    ListIff(read, f, vs);
  }

  lemma ListIff(read: (nat, nat) -> nat, f: FieldDef, vs: seq<nat>)
    requires !f.Skipped() && f.Repeated()
    requires forall i :: 0 <= i < f.repeatCount && i < |vs| ==>
             (read(f.ElemStart(i), f.bits) == vs[i] <==> vs[i] < Pow2(f.bits))
    ensures DecodeWith(read, f) == List(vs) <==> Carried(f, List(vs))
  {
    var got := DecodeWith(read, f).vs;
    assert forall i :: 0 <= i < f.repeatCount ==> got[i] == read(f.ElemStart(i), f.bits);
    if Carried(f, List(vs)) {
      assert got == vs;
    }
  }

  lemma DecodeSingle(f: FieldDef, v: Value, data: Bits)
    requires !f.Skipped() && !f.Repeated() && Typed(f, v) && At(data, f.bitStart, Image(f, v))
    requires f.matchValue.Some? ==> f.matchValue.value < Pow2(f.bits)
    ensures DecodeWith(Sliced(data), f) == v <==> Carried(f, v)
  {
    assert f.ElemStart(0) == f.bitStart && f.Width() == f.bits;
    AtSlice(data, f.bitStart, Image(f, v));
    if v == Missing {
      AllOnes(Ones(f.bits));
    } else {
      FromTo(if f.matchValue.Some? then f.matchValue.value else v.v, f.bits);
    }
  }

  /** Decoding a field whose image is in the buffer returns its value exactly if it can be carried. */
  lemma DecodeMeans(f: FieldDef, v: Value, data: Bits)
    requires f.Supported() && Typed(f, v) && Reach(f, data) && (f.Skipped() || At(data, f.bitStart, Image(f, v)))
    ensures DecodeField(f, data) == v <==> Carried(f, v)
  {
    if !f.Skipped() {
      DecodeIsSlice(f, data);
      if f.Repeated() {
        DecodeRepeated(f, v.vs, data);
      } else {
        DecodeSingle(f, v, data);
      }
    }
  }

  lemma {:induction false} ImageAt(fs: seq<FieldDef>, m: seq<Value>, k: nat, n: nat) returns (all: Bits, mine: Bits)
    requires AllTyped(fs, m) && k < n <= |fs| && Typed(fs[k], m[k])
    ensures all == Images(fs, m, n) && mine == Image(fs[k], m[k]) && At(all, StartOf(fs, k), mine)
  {
    assert Typed(fs[n - 1], m[n - 1]);
    var front, last := Images(fs, m, n - 1), Image(fs[n - 1], m[n - 1]);
    AtFront(front, last);
    all := front + last;
    if k < n - 1 {
      front, mine := ImageAt(fs, m, k, n - 1);
      AtPart(all, 0, front, StartOf(fs, k), mine);
    } else {
      mine := last;
    }
  }

  /** What is wholly shown can be found where the image has it. */
  lemma ShownAt(image: Bits, size: nat, start: nat, b: Bits)
    requires At(image, start, b) && start + |b| <= size
    ensures At(Shown(image, size), start, b)
  {
    forall j | 0 <= j < |b| ensures Shown(image, size)[start + j] == b[j] {
      assert image[start + j] == b[j];
    }
  }

  lemma FieldRoundTrip(fs: seq<FieldDef>, m: seq<Value>, n: nat, k: nat, data: Bits)
    requires Packet(fs, m) && Roomy(fs, n) && k < |fs| && Typed(fs[k], m[k])
    requires data == Shown(Images(fs, m, |fs|), 8 * n)
    ensures Decode(fs, data, n)[k] == m[k] <==> Carried(fs[k], m[k])
  {
    assert fs[k].Supported();
    if !fs[k].Skipped() {
      var all, mine := ImageAt(fs, m, k, |fs|);
      FieldInside(fs, k, n);
      ShownAt(all, 8 * n, StartOf(fs, k), mine);
    }
    SizeReaches(fs, n, data, k);
    DecodeMeans(fs[k], m[k], data);
  }

  lemma SeqIff(got: seq<Value>, fs: seq<FieldDef>, m: seq<Value>)
    requires |got| == |m| && AllTyped(fs, m)
    requires forall k | 0 <= k < |fs| :: Typed(fs[k], m[k]) && (got[k] == m[k] <==> Carried(fs[k], m[k]))
    ensures got == m <==> AllCarried(fs, m)
  {
  }

  /** Running the emitted writes and then the emitted reads gives back the message if and only if
      every field's value can be carried. */
  lemma RoundTripIff(fs: seq<FieldDef>, m: seq<Value>, n: nat)
    requires Packet(fs, m) && Roomy(fs, n)
    ensures Decode(fs, Encode(fs, m, n), n) == m <==> AllCarried(fs, m)
  {
    EncodeMeans(fs, m, n);
    var data := Encode(fs, m, n);
    forall k | 0 <= k < |fs| ensures Typed(fs[k], m[k]) && (Decode(fs, data, n)[k] == m[k] <==> Carried(fs[k], m[k])) {
      assert Typed(fs[k], m[k]);
      FieldRoundTrip(fs, m, n, k, data);
    }
    SeqIff(Decode(fs, data, n), fs, m);
  }

  lemma OnesAreMissing(f: FieldDef, data: Bits)
    requires f.Nullable() && !f.Skipped() && f.bitStart + f.bits <= |data|
    requires data[f.bitStart..f.bitStart + f.bits] == Ones(f.bits)
    ensures DecodeWith(Sliced(data), f) == Missing
  {
    assert f.ElemStart(0) == f.bitStart;
    AllOnes(Ones(f.bits));
  }

  lemma PaddedBeyond(payload: Bits, n: nat, start: nat, bits: nat)
    requires |payload| <= start && start + bits <= |Padded(payload, n)|
    ensures Padded(payload, n)[start..start + bits] == Ones(bits)
  {
  }

  /** Two buffers with the same bits in a field give it the same value. */
  lemma SameBits(f: FieldDef, a: Bits, b: Bits)
    requires f.Windowed() && f.bitStart + f.Width() <= |a| && f.bitStart + f.Width() <= |b|
    requires forall j :: f.bitStart <= j < f.bitStart + f.Width() ==> a[j] == b[j]
    ensures DecodeWith(Sliced(a), f) == DecodeWith(Sliced(b), f)
  {
    forall i | 0 <= i < f.Count() ensures Sliced(a)(f.ElemStart(i), f.bits) == Sliced(b)(f.ElemStart(i), f.bits) {
      ElemBound(f, i);
      var start := f.ElemStart(i);
      assert a[start..start + f.bits] == b[start..start + f.bits];
    }
    SameReads(Sliced(a), Sliced(b), f);
  }

  lemma PaddedAgrees(payload: Bits, n: nat, j: nat)
    requires j < 8 * n
    ensures Padded(payload, n)[j] == if j < |payload| then payload[j] else true
  {
  }

  /** A payload of any length decodes like the payload with ones behind it. */
  lemma DecodeShort(fs: seq<FieldDef>, payload: Bits, n: nat, k: nat)
    requires Layout(fs) && Roomy(fs, n) && k < |fs| && !fs[k].Skipped()
    ensures Decode(fs, payload, n)[k] == DecodeWith(Sliced(payload + Ones(8 * n)), fs[k])
  {
    var f, data := fs[k], Padded(payload, n);
    SizeReaches(fs, n, data, k);
    assert f.Supported();
    DecodeIsSlice(f, data);
    FieldInside(fs, k, n);
    forall j | f.bitStart <= j < f.bitStart + f.Width() ensures data[j] == (payload + Ones(8 * n))[j] {
      PaddedAgrees(payload, n, j);
    }
    SameBits(f, data, payload + Ones(8 * n));
  }

  /** A field that lies wholly in the payload decodes to what is there, however short the rest. */
  lemma DecodePresent(fs: seq<FieldDef>, payload: Bits, n: nat, k: nat)
    requires Layout(fs) && Roomy(fs, n) && k < |fs| && !fs[k].Skipped() && fs[k].bitStart + fs[k].Width() <= |payload|
    ensures Decode(fs, payload, n)[k] == DecodeWith(Sliced(payload), fs[k])
  {
    DecodeShort(fs, payload, n, k);
    assert fs[k].Supported();
    SameBits(fs[k], payload + Ones(8 * n), payload);
  }

  /** The value that the bits of a single field stand for. */
  function ValueOf(f: FieldDef, bits: Bits): Value {
    var v := FromBits(bits);
    if f.Nullable() && v == Pow2(f.bits) - 1 then Missing else Num(v)
  }

  /** A single field that is only partly there decodes from the bits that are, followed by ones. */
  lemma DecodePartly(fs: seq<FieldDef>, payload: Bits, n: nat, k: nat)
    requires Layout(fs) && Roomy(fs, n) && k < |fs| && !fs[k].Skipped() && !fs[k].Repeated()
    requires fs[k].bitStart < |payload| < fs[k].bitStart + fs[k].bits
    ensures Decode(fs, payload, n)[k] ==
            ValueOf(fs[k], payload[fs[k].bitStart..] + Ones(fs[k].bitStart + fs[k].bits - |payload|))
  {
    var there := PartlyThere(payload, 8 * n, fs[k].bitStart, fs[k].bits);
    DecodeShort(fs, payload, n, k);
    FieldInside(fs, k, n);
    SingleSlice(fs[k], payload + Ones(8 * n), there);
  }

  lemma SingleSlice(f: FieldDef, data: Bits, there: Bits)
    requires !f.Skipped() && !f.Repeated()
    requires f.bitStart + f.bits <= |data| && data[f.bitStart..f.bitStart + f.bits] == there
    ensures DecodeWith(Sliced(data), f) == ValueOf(f, there)
  {
    assert f.ElemStart(0) == f.bitStart;
  }

  lemma PartlyThere(payload: Bits, n: nat, start: nat, bits: nat) returns (there: Bits)
    requires start < |payload| < start + bits
    ensures there == payload[start..] + Ones(start + bits - |payload|)
    ensures start + bits <= n ==> (payload + Ones(n))[start..start + bits] == there
  {
    there := payload[start..] + Ones(start + bits - |payload|);
  }

  /** A nullable field that the payload does not reach is missing. */
  lemma BeyondPayload(fs: seq<FieldDef>, payload: Bits, n: nat, k: nat)
    requires Layout(fs) && Roomy(fs, n) && k < |fs| && fs[k].Nullable() && !fs[k].Skipped()
    requires |payload| <= fs[k].bitStart
    ensures Decode(fs, payload, n)[k] == Missing
  {
    var f, data := fs[k], Padded(payload, n);
    SizeReaches(fs, n, data, k);
    assert f.Supported();
    DecodeIsSlice(f, data);
    PaddedBeyond(payload, n, f.bitStart, f.bits);
    OnesAreMissing(f, data);
  }

  /** A skipped field counts for the buffer although nothing accesses it: one of 48 bits at byte 2, say,
      makes the buffer of an eight-byte packet ten bytes long. */
  lemma SkippedWidensBuffer(f: FieldDef, n: nat)
    requires f.Skipped() && !f.Repeated() && f.bitStart % 8 == 0 && 32 < f.bits < 64 && Roomy([f], n)
    ensures 8 * n >= f.bitStart + f.bits + (64 - f.bits)
  {
    assert f.ElemStart(0) == f.bitStart;
    assert [f][0].End() <= n;
  }
}
