/** Filter expressions: trees, their printed form, and what they mean. */
module FilterSyntax {
  import opened Options

  datatype CompOp = Eq | Ne | Lt | Gt | Le | Ge

  /** `subName` is empty for a plain field. */
  datatype FieldRef = FieldRef(name: string, subName: string)

  datatype Literal = IntLit(i: int) | FloatLit(f: real) | StrLit(s: string)

  datatype Node =
    | OrNode(left: Node, right: Node)
    | AndNode(left: Node, right: Node)
    | NotNode(expr: Node)
    | CompNode(field: FieldRef, op: CompOp, value: Literal)

  /** Printing and reading of floating-point literals, as the library does it. */
  datatype Floats = Floats(format: real -> string, parse: string -> Option<real>)

  // ---- Printing ----

  function Digits(n: nat): (s: string)
    ensures |s| >= 1
  {
    if n < 10 then [DigitChar(n)] else Digits(n / 10) + [DigitChar(n % 10)]
  }

  function DigitChar(d: nat): (c: char)
    requires d < 10
    ensures '0' <= c <= '9'
  {
    '0' + d as char
  }

  function FormatInt(i: int): string {
    if i < 0 then "-" + Digits(-i) else Digits(i)
  }

  function FormatLiteral(l: Literal, fl: Floats): string {
    match l
    case StrLit(s) => "\"" + (s + "\"")
    case FloatLit(f) => fl.format(f)
    case IntLit(i) => FormatInt(i)
  }

  function OpText(op: CompOp): string {
    match op
    case Eq => "==" case Ne => "!=" case Lt => "<" case Gt => ">" case Le => "<=" case Ge => ">="
  }

  function FieldText(f: FieldRef): string {
    if f.subName != "" then f.name + ("." + f.subName) else f.name
  }

  function Format(n: Node, fl: Floats): string {
    match n
    case OrNode(l, r) => "(" + (Format(l, fl) + (" || " + (Format(r, fl) + ")")))
    case AndNode(l, r) => "(" + (Format(l, fl) + (" && " + (Format(r, fl) + ")")))
    case NotNode(e) => "!" + Format(e, fl)
    case CompNode(f, op, v) => FieldText(f) + (" " + (OpText(op) + (" " + FormatLiteral(v, fl))))
  }

  // ---- Meaning ----

  /** What an expression is evaluated against. `field` stands for the comparison of a field of a
      decoded packet; without a packet every such comparison is false. */
  datatype Context = Context(pgn: nat, src: nat, dst: nat, prio: nat, lookups: Option<map<string, string>>,
                             decoded: Option<(string, CompOp, Literal) -> bool>)

  predicate IsHeader(name: string) {
    name == "pgn" || name == "src" || name == "dst" || name == "prio"
  }

  predicate NeedsDecode(n: Node) {
    match n
    case OrNode(l, r) => NeedsDecode(l) || NeedsDecode(r)
    case AndNode(l, r) => NeedsDecode(l) || NeedsDecode(r)
    case NotNode(e) => NeedsDecode(e)
    case CompNode(f, _, _) => !IsHeader(f.name)
  }

  predicate Less(a: string, b: string) {
    b != "" && (a == "" || a[0] < b[0] || (a[0] == b[0] && Less(a[1..], b[1..])))
  }

  predicate CompareNumeric(v: real, op: CompOp, l: Literal) {
    if l.StrLit? then false
    else
      var w := if l.IntLit? then l.i as real else l.f;
      match op
      case Eq => v == w case Ne => v != w case Lt => v < w case Gt => v > w case Le => v <= w case Ge => v >= w
  }

  predicate CompareString(v: string, op: CompOp, l: Literal, fl: Floats) {
    var w := match l case StrLit(s) => s case IntLit(i) => FormatInt(i) case FloatLit(f) => fl.format(f);
    match op
    case Eq => v == w case Ne => v != w case Lt => Less(v, w) case Gt => Less(w, v)
    case Le => !Less(w, v) case Ge => !Less(v, w)
  }

  predicate EvalComp(f: FieldRef, op: CompOp, l: Literal, ctx: Context, fl: Floats) {
    if f.subName == "" && IsHeader(f.name) then
      var v :=
        if f.name == "pgn" then ctx.pgn
        else if f.name == "src" then ctx.src
        else if f.name == "dst" then ctx.dst
        else ctx.prio;
      CompareNumeric(v as real, op, l)
    else if f.subName != "" then
      var key := if IsHeader(f.name) then FieldText(f) else f.name;
      ctx.lookups.Some? && key in ctx.lookups.value && CompareString(ctx.lookups.value[key], op, l, fl)
    else ctx.decoded.Some? && ctx.decoded.value(f.name, op, l)
  }

  predicate Eval(n: Node, ctx: Context, fl: Floats) {
    match n
    case OrNode(l, r) => Eval(l, ctx, fl) || Eval(r, ctx, fl)
    case AndNode(l, r) => Eval(l, ctx, fl) && Eval(r, ctx, fl)
    case NotNode(e) => !Eval(e, ctx, fl)
    case CompNode(f, op, v) => EvalComp(f, op, v, ctx, fl)
  }

  /** An expression that does not ask for decoding gives the same answer whatever is decoded. */
  lemma {:induction false} UndecodedSuffices(n: Node, ctx: Context, other: Context, fl: Floats)
    requires !NeedsDecode(n) && other == ctx.(decoded := other.decoded)
    ensures Eval(n, ctx, fl) == Eval(n, other, fl)
  {
    match n
    case OrNode(l, r) => UndecodedSuffices(l, ctx, other, fl); UndecodedSuffices(r, ctx, other, fl);
    case AndNode(l, r) => UndecodedSuffices(l, ctx, other, fl); UndecodedSuffices(r, ctx, other, fl);
    case NotNode(e) => UndecodedSuffices(e, ctx, other, fl);
    case CompNode(f, op, v) =>
  }

  function FieldsOf(n: Node): set<FieldRef> {
    match n
    case OrNode(l, r) => FieldsOf(l) + FieldsOf(r)
    case AndNode(l, r) => FieldsOf(l) + FieldsOf(r)
    case NotNode(e) => FieldsOf(e)
    case CompNode(f, _, _) => {f}
  }

  /** Decoding is asked for exactly if some comparison is of a field that is none of the header's. */
  lemma {:induction false} NeedsDecodeIff(n: Node)
    ensures NeedsDecode(n) <==> exists f :: f in FieldsOf(n) && f.name !in {"pgn", "src", "dst", "prio"}
  {
    match n
    case OrNode(l, r) => NeedsDecodeIff(l); NeedsDecodeIff(r);
    case AndNode(l, r) => NeedsDecodeIff(l); NeedsDecodeIff(r);
    case NotNode(e) => NeedsDecodeIff(e);
    case CompNode(f, op, v) => assert f in FieldsOf(n);
  }

  /** The header's fields are compared by their own names. */
  lemma HeaderMeans(ctx: Context, i: int, fl: Floats)
    ensures Holds(FieldRef("pgn", ""), Eq, IntLit(i), ctx, fl) <==> ctx.pgn == i
    ensures Holds(FieldRef("src", ""), Eq, IntLit(i), ctx, fl) <==> ctx.src == i
    ensures Holds(FieldRef("dst", ""), Eq, IntLit(i), ctx, fl) <==> ctx.dst == i
    ensures Holds(FieldRef("prio", ""), Eq, IntLit(i), ctx, fl) <==> ctx.prio == i
    ensures Holds(FieldRef("prio", ""), Lt, IntLit(i), ctx, fl) <==> ctx.prio < i
  {
    assert ctx.pgn as real == i as real <==> ctx.pgn == i;
    assert ctx.src as real == i as real <==> ctx.src == i;
    assert ctx.dst as real == i as real <==> ctx.dst == i;
    assert ctx.prio as real == i as real <==> ctx.prio == i;
    assert (ctx.prio as real) < (i as real) <==> ctx.prio < i;
  }

  // ---- Negation ----

  function Opposite(op: CompOp): CompOp {
    match op
    case Eq => Ne case Ne => Eq case Lt => Ge case Ge => Lt case Gt => Le case Le => Gt
  }

  /** A comparison of a header field or a lookup has something to compare. Of a decoded field this is up to
      the packet. */
  predicate Comparable(f: FieldRef, l: Literal, ctx: Context) {
    if f.subName == "" then IsHeader(f.name) && !l.StrLit?
    else ctx.lookups.Some? && (if IsHeader(f.name) then FieldText(f) else f.name) in ctx.lookups.value
  }

  lemma {:induction false} LessOrder(a: string, b: string)
    ensures !(Less(a, b) && Less(b, a)) && (Less(a, b) || a == b || Less(b, a)) && !Less(a, a)
    decreases |a|
  {
    if a != "" && b != "" {
      LessOrder(a[1..], b[1..]);
      assert a[0] == b[0] && a[1..] == b[1..] ==> a == [a[0]] + a[1..] == [b[0]] + b[1..] == b;
    }
    if a != "" {
      LessSelf(a);
    }
  }

  lemma {:induction false} LessSelf(a: string)
    ensures !Less(a, a)
    decreases |a|
  {
    if a != "" {
      LessSelf(a[1..]);
    }
  }

  predicate Holds(f: FieldRef, op: CompOp, l: Literal, ctx: Context, fl: Floats) {
    Eval(CompNode(f, op, l), ctx, fl)
  }

  /** With something to compare, exactly one of less, equal and greater holds, and the other three operators
      are their negations; with nothing, none of the six holds. */
  lemma Trichotomy(f: FieldRef, l: Literal, ctx: Context, fl: Floats)
    requires f.subName != "" || IsHeader(f.name)
    ensures Comparable(f, l, ctx) ==>
              && (Holds(f, Lt, l, ctx, fl) || Holds(f, Eq, l, ctx, fl) || Holds(f, Gt, l, ctx, fl))
              && !(Holds(f, Lt, l, ctx, fl) && Holds(f, Eq, l, ctx, fl))
              && !(Holds(f, Gt, l, ctx, fl) && Holds(f, Eq, l, ctx, fl))
              && !(Holds(f, Lt, l, ctx, fl) && Holds(f, Gt, l, ctx, fl))
    ensures forall op: CompOp :: Holds(f, Opposite(op), l, ctx, fl) <==>
            Comparable(f, l, ctx) && !Holds(f, op, l, ctx, fl)
    ensures forall op: CompOp :: Holds(f, op, l, ctx, fl) ==> Comparable(f, l, ctx)
  {
    if f.subName != "" && Comparable(f, l, ctx) {
      var v := ctx.lookups.value[if IsHeader(f.name) then FieldText(f) else f.name];
      var w := match l case StrLit(s) => s case IntLit(i) => FormatInt(i) case FloatLit(r) => fl.format(r);
      LessOrder(v, w);
      LessSelf(v);
    }
  }

  predicate AllComparable(n: Node, ctx: Context) {
    match n
    case OrNode(l, r) => AllComparable(l, ctx) && AllComparable(r, ctx)
    case AndNode(l, r) => AllComparable(l, ctx) && AllComparable(r, ctx)
    case NotNode(e) => AllComparable(e, ctx)
    case CompNode(f, _, v) => Comparable(f, v, ctx)
  }

  /** The negation of an expression without a negation around it. */
  function Negated(n: Node): Node {
    match n
    case OrNode(l, r) => AndNode(Negated(l), Negated(r))
    case AndNode(l, r) => OrNode(Negated(l), Negated(r))
    case NotNode(e) => e
    case CompNode(f, op, v) => CompNode(f, Opposite(op), v)
  }

  /** Negation may be moved inwards as long as every comparison has something to compare. */
  lemma {:induction false} NegatedMeans(n: Node, ctx: Context, fl: Floats)
    requires AllComparable(n, ctx)
    ensures Eval(Negated(n), ctx, fl) == Eval(NotNode(n), ctx, fl)
  {
    match n
    case OrNode(l, r) => NegatedMeans(l, ctx, fl); NegatedMeans(r, ctx, fl);
    case AndNode(l, r) => NegatedMeans(l, ctx, fl); NegatedMeans(r, ctx, fl);
    case NotNode(e) =>
    case CompNode(f, op, v) =>
      Trichotomy(f, v, ctx, fl);
      assert Holds(f, Opposite(op), v, ctx, fl) <==> !Holds(f, op, v, ctx, fl);
  }

  // ---- Numbers ----

  predicate IsDigit(c: char) {
    '0' <= c <= '9'
  }

  predicate AllDigits(s: string) {
    forall i :: 0 <= i < |s| ==> IsDigit(s[i])
  }

  function DigitValue(c: char): (d: nat)
    requires IsDigit(c)
    ensures d < 10
  {
    var zero := '0' as int;
    (c as int) - zero
  }

  function ParseNat(s: string): nat
    requires AllDigits(s)
  {
    if s == "" then 0 else 10 * ParseNat(s[..|s| - 1]) + DigitValue(s[|s| - 1])
  }

  /** Decimal, in 64 bits. */
  function ParseInt(s: string): Option<int> {
    var neg := s != "" && s[0] == '-';
    var ds := if neg then s[1..] else s;
    if ds == "" || !AllDigits(ds) then None
    else
      var m: int := ParseNat(ds);
      var v := if neg then -m else m;
      if -0x8000_0000_0000_0000 <= v < 0x8000_0000_0000_0000 then Some(v) else None
  }

  lemma {:induction false} ParseDigits(n: nat)
    ensures AllDigits(Digits(n)) && ParseNat(Digits(n)) == n
  {
    if n >= 10 {
      ParseDigits(n / 10);
      var s := Digits(n);
      assert s[..|s| - 1] == Digits(n / 10);
    } else {
      assert Digits(n)[..0] == "";
    }
  }

  lemma ParseFormatInt(i: int)
    requires -0x8000_0000_0000_0000 <= i < 0x8000_0000_0000_0000
    ensures ParseInt(FormatInt(i)) == Some(i)
  {
    var n: nat := if i < 0 then -i else i;
    ParseDigits(n);
    ParseSigned(i < 0, Digits(n), n);
  }

  lemma ParseSigned(neg: bool, ds: string, n: nat)
    requires ds != "" && AllDigits(ds) && ParseNat(ds) == n <= 0x8000_0000_0000_0000
    requires neg || n < 0x8000_0000_0000_0000
    ensures var m: int := n; ParseInt(if neg then "-" + ds else ds) == Some(if neg then -m else m)
  {
    assert IsDigit(ds[0]);
    assert ("-" + ds)[1..] == ds;
  }
}
