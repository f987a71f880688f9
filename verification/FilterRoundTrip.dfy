/** Printing a filter tree and parsing the text: when the same tree comes back. */
module FilterRoundTrip {
  import opened Options
  import opened FilterSyntax
  import opened FilterParsing

  predicate GoodName(s: string) {
    && s != "" && IsIdentStart(s[0]) && (forall i :: 0 <= i < |s| ==> IsIdentPart(s[i]))
    && s != "and" && s != "or" && s != "not"
  }

  /** A tree over proper names and literals other than floating-point ones. */
  predicate Plain(n: Node) {
    match n
    case OrNode(l, r) => Plain(l) && Plain(r)
    case AndNode(l, r) => Plain(l) && Plain(r)
    case NotNode(e) => Plain(e)
    case CompNode(f, op, v) =>
      && GoodName(f.name) && (f.subName == "" || GoodName(f.subName))
      && !v.FloatLit? && (v.IntLit? ==> -0x8000_0000_0000_0000 <= v.i < 0x8000_0000_0000_0000)
  }

  predicate CleanString(s: string) {
    '"' !in s && '\\' !in s
  }

  /** No string in the tree has a double quote or a backslash. */
  predicate Clean(n: Node) {
    match n
    case OrNode(l, r) => Clean(l) && Clean(r)
    case AndNode(l, r) => Clean(l) && Clean(r)
    case NotNode(e) => Clean(e)
    case CompNode(f, op, v) => v.StrLit? ==> CleanString(v.s)
  }

  // ---- The tokens of a tree ----

  function LitToken(v: Literal): Token
    requires !v.FloatLit?
  {
    if v.StrLit? then StrTok(v.s) else IntTok(FormatInt(v.i))
  }

  function FieldTokens(f: FieldRef): seq<Token> {
    if f.subName != "" then [Ident(f.name)] + ([Dot] + [Ident(f.subName)]) else [Ident(f.name)]
  }

  function TokensOf(n: Node): seq<Token>
    requires Plain(n)
  {
    match n
    case OrNode(l, r) => [LParen] + (TokensOf(l) + ([Or] + (TokensOf(r) + [RParen])))
    case AndNode(l, r) => [LParen] + (TokensOf(l) + ([And] + (TokensOf(r) + [RParen])))
    case NotNode(e) => [Not] + TokensOf(e)
    case CompNode(f, op, v) => FieldTokens(f) + ([OpTok(op)] + [LitToken(v)])
  }

  // ---- Parsing them ----

  lemma Peel(t: Token, a: seq<Token>, rest: seq<Token>)
    ensures ([t] + a + rest)[0] == t && ([t] + a + rest)[1..] == a + rest
  {
  }

  lemma Regroup(a: seq<Token>, b: seq<Token>, c: seq<Token>)
    ensures a + b + c == a + (b + c)
  {
  }

  /** The tokens of a tree parse as that tree, whatever follows. */
  lemma {:induction false} ParseBack(n: Node, rest: seq<Token>, fl: Floats)
    requires Plain(n)
    ensures ParseUnary(TokensOf(n) + rest, fl) == Done(n, rest)
    decreases n
  {
    match n
    case OrNode(l, r) =>
      var inner := TokensOf(l) + ([Or] + (TokensOf(r) + [RParen]));
      Peel(LParen, inner, rest);
      OrInside(l, r, rest, fl);
    case AndNode(l, r) =>
      var inner := TokensOf(l) + ([And] + (TokensOf(r) + [RParen]));
      Peel(LParen, inner, rest);
      AndInside(l, r, rest, fl);
    case NotNode(e) =>
      Peel(Not, TokensOf(e), rest);
      ParseBack(e, rest, fl);
    case CompNode(f, op, v) =>
      CompareBack(f, op, v, rest, fl);
  }

  lemma OrInside(l: Node, r: Node, rest: seq<Token>, fl: Floats)
    requires Plain(l) && Plain(r)
    ensures ParseOr(TokensOf(l) + ([Or] + (TokensOf(r) + [RParen])) + rest, fl) == Done(OrNode(l, r), [RParen] + rest)
    decreases OrNode(l, r), 0
  {
    var tail := TokensOf(r) + ([RParen] + rest);
    Regroup(TokensOf(l), [Or] + (TokensOf(r) + [RParen]), rest);
    assert [Or] + (TokensOf(r) + [RParen]) + rest == [Or] + tail;
    ParseBack(l, [Or] + tail, fl);
    AndOfUnary(TokensOf(l) + ([Or] + tail), fl);
    assert ([Or] + tail)[1..] == tail;
    ParseBack(r, [RParen] + rest, fl);
    AndOfUnary(tail, fl);
    OrGoesOn(l, tail, r, [RParen] + rest, fl);
  }

  lemma OrGoesOn(l: Node, tail: seq<Token>, r: Node, end: seq<Token>, fl: Floats)
    requires ParseAnd(tail, fl) == Done(r, end) && Current(end) == RParen
    ensures OrLoop(l, [Or] + tail, fl) == Done(OrNode(l, r), end)
  {
    assert ([Or] + tail)[1..] == tail;
  }

  lemma AndInside(l: Node, r: Node, rest: seq<Token>, fl: Floats)
    requires Plain(l) && Plain(r)
    ensures ParseOr(TokensOf(l) + ([And] + (TokensOf(r) + [RParen])) + rest, fl) == Done(AndNode(l, r), [RParen] + rest)
    decreases AndNode(l, r), 0
  {
    var tail := TokensOf(r) + ([RParen] + rest);
    Regroup(TokensOf(l), [And] + (TokensOf(r) + [RParen]), rest);
    assert [And] + (TokensOf(r) + [RParen]) + rest == [And] + tail;
    ParseBack(l, [And] + tail, fl);
    assert ([And] + tail)[1..] == tail;
    ParseBack(r, [RParen] + rest, fl);
    assert AndLoop(l, [And] + tail, fl) == AndLoop(AndNode(l, r), [RParen] + rest, fl);
  }

  /** Where no conjunction or alternative goes on, a negation is a whole expression. */
  lemma AndOfUnary(ts: seq<Token>, fl: Floats)
    ensures var r := ParseUnary(ts, fl); r.Done? && Current(r.rest) != And ==> ParseAnd(ts, fl) == r
    ensures var r := ParseUnary(ts, fl); r.Done? && Current(r.rest) != And && Current(r.rest) != Or ==>
            ParseOr(ts, fl) == r
  {
  }

  // ---- Precedence ----

  predicate AllPlain(ns: seq<Node>) {
    ns == [] || (Plain(ns[0]) && AllPlain(ns[1..]))
  }

  /** Trees joined by `&&` without parentheses: the first one, and what follows it. */
  function AndTokens(ns: seq<Node>): seq<Token>
    requires ns != [] && AllPlain(ns)
  {
    TokensOf(ns[0]) + AndTail(ns[1..])
  }

  function AndTail(ns: seq<Node>): seq<Token>
    requires AllPlain(ns)
    decreases |ns|
  {
    if ns == [] then [] else [And] + (TokensOf(ns[0]) + AndTail(ns[1..]))
  }

  /** What they should mean: conjunctions nested to the left. */
  function AndFold(left: Node, ns: seq<Node>): Node
    decreases |ns|
  {
    if ns == [] then left else AndFold(AndNode(left, ns[0]), ns[1..])
  }

  function AndAll(ns: seq<Node>): Node
    requires ns != []
  {
    AndFold(ns[0], ns[1..])
  }

  predicate AllGroups(gs: seq<seq<Node>>) {
    gs == [] || (gs[0] != [] && AllPlain(gs[0]) && AllGroups(gs[1..]))
  }

  /** Such groups joined by `||`. */
  function OrTail(gs: seq<seq<Node>>): seq<Token>
    requires AllGroups(gs)
    decreases |gs|
  {
    if gs == [] then [] else [Or] + (AndTokens(gs[0]) + OrTail(gs[1..]))
  }

  function OrFold(left: Node, gs: seq<seq<Node>>): Node
    requires AllGroups(gs)
    decreases |gs|
  {
    if gs == [] then left else OrFold(OrNode(left, AndAll(gs[0])), gs[1..])
  }

  lemma {:induction false} AndLoopFolds(left: Node, ns: seq<Node>, rest: seq<Token>, fl: Floats)
    requires AllPlain(ns) && Current(rest) != And
    ensures AndLoop(left, AndTail(ns) + rest, fl) == Done(AndFold(left, ns), rest)
    decreases |ns|
  {
    if ns == [] {
      assert [] + rest == rest;
    } else {
      var more := AndTail(ns[1..]) + rest;
      Regroup(TokensOf(ns[0]), AndTail(ns[1..]), rest);
      Peel(And, TokensOf(ns[0]) + AndTail(ns[1..]), rest);
      ParseBack(ns[0], more, fl);
      AndLoopFolds(AndNode(left, ns[0]), ns[1..], rest, fl);
    }
  }

  lemma GroupParses(ns: seq<Node>, rest: seq<Token>, fl: Floats)
    requires ns != [] && AllPlain(ns) && Current(rest) != And
    ensures ParseAnd(AndTokens(ns) + rest, fl) == Done(AndAll(ns), rest)
  {
    Regroup(TokensOf(ns[0]), AndTail(ns[1..]), rest);
    ParseBack(ns[0], AndTail(ns[1..]) + rest, fl);
    AndLoopFolds(ns[0], ns[1..], rest, fl);
  }

  lemma {:induction false} OrLoopFolds(left: Node, gs: seq<seq<Node>>, rest: seq<Token>, fl: Floats)
    requires AllGroups(gs) && Current(rest) != And && Current(rest) != Or
    ensures OrLoop(left, OrTail(gs) + rest, fl) == Done(OrFold(left, gs), rest)
    decreases |gs|
  {
    if gs == [] {
      assert [] + rest == rest;
    } else {
      var more := OrTail(gs[1..]) + rest;
      Regroup(AndTokens(gs[0]), OrTail(gs[1..]), rest);
      Peel(Or, AndTokens(gs[0]) + OrTail(gs[1..]), rest);
      GroupParses(gs[0], more, fl);
      OrLoopFolds(OrNode(left, AndAll(gs[0])), gs[1..], rest, fl);
    }
  }

  /** Without parentheses, `&&` binds before `||`, and both nest to the left. */
  lemma Precedence(first: seq<Node>, gs: seq<seq<Node>>, rest: seq<Token>, fl: Floats)
    requires first != [] && AllPlain(first) && AllGroups(gs)
    requires Current(rest) != And && Current(rest) != Or
    ensures ParseOr(AndTokens(first) + (OrTail(gs) + rest), fl) == Done(OrFold(AndAll(first), gs), rest)
  {
    assert gs == [] ==> OrTail(gs) + rest == rest;
    assert gs != [] ==> Current(OrTail(gs) + rest) == Or;
    GroupParses(first, OrTail(gs) + rest, fl);
    OrLoopFolds(AndAll(first), gs, rest, fl);
  }

  lemma CompareBack(f: FieldRef, op: CompOp, v: Literal, rest: seq<Token>, fl: Floats)
    requires Plain(CompNode(f, op, v))
    ensures ParseUnary(TokensOf(CompNode(f, op, v)) + rest, fl) == Done(CompNode(f, op, v), rest)
  {
    var ts, after := TokensOf(CompNode(f, op, v)) + rest, [OpTok(op), LitToken(v)] + rest;
    assert ts == FieldTokens(f) + after;
    FieldBack(f, after);
    if v.IntLit? {
      ParseFormatInt(v.i);
    }
    ComparisonOf(ts, f, after, v, fl);
    assert after[2..] == rest;
  }

  lemma ComparisonOf(ts: seq<Token>, f: FieldRef, after: seq<Token>, v: Literal, fl: Floats)
    requires ParseField(ts) == GotField(f, after) && |after| >= 2 && after[0].OpTok?
    requires ParseValue(after[1], fl) == Some(v)
    ensures ParseUnary(ts, fl) == Done(CompNode(f, after[0].op, v), after[2..])
  {
    assert Current(after[1..]) == after[1];
  }

  lemma FieldBack(f: FieldRef, after: seq<Token>)
    requires Current(after) != Dot
    ensures ParseField(FieldTokens(f) + after) == GotField(f, after)
  {
    var ts := FieldTokens(f) + after;
    if f.subName != "" {
      assert ts[1..][0] == Dot && ts[2..][0] == Ident(f.subName) && ts[3..] == after;
    } else {
      assert ts[1..] == after;
    }
  }

  // ---- Lexing the printed text ----

  /** `text` in front of `rest` lexes as `ts`, and then `rest`. */
  ghost predicate Reads(one: OneLexer, text: string, ts: seq<Token>, rest: string) {
    LexAll(one, text + rest) == Prepend(ts, LexAll(one, rest))
  }

  lemma ReadsConcat(one: OneLexer, a: string, ta: seq<Token>, b: string, tb: seq<Token>, rest: string)
    requires Reads(one, a, ta, b + rest) && Reads(one, b, tb, rest)
    ensures Reads(one, a + b, ta + tb, rest)
  {
    assert a + b + rest == a + (b + rest);
    PrependConcat(ta, tb, LexAll(one, rest));
  }

  lemma ReadsToken(one: OneLexer, text: string, t: Token, rest: string)
    requires text != "" && !IsSpace(text[0]) && one(text + rest) == Tok(t, |text|)
    ensures Reads(one, text, [t], rest)
  {
    assert (text + rest)[|text|..] == rest;
  }

  lemma ReadsSpace(one: OneLexer, rest: string)
    ensures Reads(one, " ", [], rest)
  {
    assert (" " + rest)[1..] == rest;
    PrependNothing(LexAll(one, rest));
  }

  /** Text that can follow a literal. */
  predicate Ends(rest: string) {
    rest == "" || rest[0] == ' ' || rest[0] == ')'
  }

  lemma {:induction false} SpanOf(s: string, p: char -> bool, rest: string)
    requires (forall i :: 0 <= i < |s| ==> p(s[i])) && (rest == "" || !p(rest[0]))
    ensures Span(s + rest, p) == |s|
  {
    if s != "" {
      SpanOf(s[1..], p, rest);
      assert (s + rest)[1..] == s[1..] + rest;
    } else {
      assert s + rest == rest;
    }
  }

  lemma LexIdent(name: string, rest: string)
    requires GoodName(name) && (rest == "" || !IsIdentPart(rest[0]))
    ensures LexOne(name + rest) == Tok(Ident(name), |name|)
  {
    SpanOf(name, IsIdentPart, rest);
    assert (name + rest)[..|name|] == name;
  }

  lemma LexInt(i: int, rest: string)
    requires Ends(rest)
    ensures LexOne(FormatInt(i) + rest) == Tok(IntTok(FormatInt(i)), |FormatInt(i)|)
    ensures !IsSpace(FormatInt(i)[0])
  {
    var text, ds := FormatInt(i), Digits(if i < 0 then -i else i);
    ParseDigits(if i < 0 then -i else i);
    SpanOf(ds, IsNumberPart, rest);
    if i < 0 {
      assert (text + rest)[1..] == ds + rest;
    } else {
      assert IsDigit(text[0]);
    }
    assert '.' !in ds;
    LexNumber(text, rest);
  }

  lemma LexNumber(text: string, rest: string)
    requires text != "" && (text[0] == '-' || IsDigit(text[0])) && NumberLen(text + rest) == |text|
    ensures LexOne(text + rest) == Tok(NumberToken(text), |text|)
  {
    assert (text + rest)[..|text|] == text;
  }

  lemma {:induction false} ScanClean(s: string, rest: string)
    requires CleanString(s)
    ensures ScanStr(s + "\"" + rest, '"') == StrScan(s, |s| + 1)
  {
    if s != "" {
      ScanClean(s[1..], rest);
      assert (s + "\"" + rest)[1..] == s[1..] + "\"" + rest;
    } else {
      assert s + "\"" + rest == "\"" + rest;
    }
  }

  lemma LexStr(s: string, rest: string)
    requires CleanString(s)
    ensures LexOne("\"" + (s + "\"") + rest) == Tok(StrTok(s), |s| + 2)
  {
    ScanClean(s, rest);
    assert ("\"" + (s + "\"") + rest)[1..] == s + "\"" + rest;
  }

  lemma LexOp(op: CompOp, rest: string)
    requires rest != "" && rest[0] == ' '
    ensures LexOne(OpText(op) + rest) == Tok(OpTok(op), |OpText(op)|) && !IsSpace(OpText(op)[0])
  {
    var s := OpText(op) + rest;
    assert |OpText(op)| == 1 ==> s[1] == ' ';
  }

  lemma LiteralReads(one: OneLexer, v: Literal, rest: string, fl: Floats)
    requires one == LexFn() && !v.FloatLit? && (v.StrLit? ==> CleanString(v.s)) && Ends(rest)
    ensures Reads(one, FormatLiteral(v, fl), [LitToken(v)], rest)
  {
    if v.StrLit? {
      LexStr(v.s, rest);
    } else {
      LexInt(v.i, rest);
    }
    ReadsToken(one, FormatLiteral(v, fl), LitToken(v), rest);
  }

  lemma NameReads(one: OneLexer, name: string, rest: string)
    requires one == LexFn() && GoodName(name) && (rest == "" || !IsIdentPart(rest[0]))
    ensures Reads(one, name, [Ident(name)], rest)
  {
    LexIdent(name, rest);
    ReadsToken(one, name, Ident(name), rest);
  }

  lemma FieldReads(one: OneLexer, f: FieldRef, rest: string)
    requires one == LexFn() && GoodName(f.name) && (f.subName == "" || GoodName(f.subName)) && rest != ""
    requires rest[0] == ' '
    ensures Reads(one, FieldText(f), FieldTokens(f), rest)
  {
    if f.subName == "" {
      NameReads(one, f.name, rest);
    } else {
      NameReads(one, f.subName, rest);
      ReadsToken(one, ".", Dot, f.subName + rest);
      ReadsConcat(one, ".", [Dot], f.subName, [Ident(f.subName)], rest);
      NameReads(one, f.name, "." + f.subName + rest);
      ReadsConcat(one, f.name, [Ident(f.name)], "." + f.subName, [Dot] + [Ident(f.subName)], rest);
    }
  }

  /** Everything of a comparison before its literal. */
  lemma HeadReads(one: OneLexer, f: FieldRef, op: CompOp, rest: string)
    requires one == LexFn() && GoodName(f.name) && (f.subName == "" || GoodName(f.subName))
    ensures Reads(one, FieldText(f) + (" " + (OpText(op) + " ")), FieldTokens(f) + [OpTok(op)], rest)
  {
    ReadsSpace(one, rest);
    LexOp(op, " " + rest);
    ReadsToken(one, OpText(op), OpTok(op), " " + rest);
    ReadsConcat(one, OpText(op), [OpTok(op)], " ", [], rest);
    ReadsSpace(one, OpText(op) + " " + rest);
    ReadsConcat(one, " ", [], OpText(op) + " ", [OpTok(op)] + [], rest);
    assert [] + ([OpTok(op)] + []) == [OpTok(op)];
    FieldReads(one, f, " " + (OpText(op) + " ") + rest);
    ReadsConcat(one, FieldText(f), FieldTokens(f), " " + (OpText(op) + " "), [OpTok(op)], rest);
  }

  lemma CompText(f: FieldRef, op: CompOp, v: Literal, fl: Floats)
    ensures Format(CompNode(f, op, v), fl) == FieldText(f) + (" " + (OpText(op) + " ")) + FormatLiteral(v, fl)
  {
  }

  /** What is printed first is never an equals sign. */
  lemma FormatStart(n: Node, fl: Floats)
    requires Plain(n)
    ensures Format(n, fl) != "" && Format(n, fl)[0] != '='
  {
  }

  lemma PairReads(one: OneLexer, lt: string, l: seq<Token>, mid: string, t: Token, rt: string, r: seq<Token>,
                  rest: string)
    requires one == LexFn() && ((mid == " || " && t == Or) || (mid == " && " && t == And))
    requires Reads(one, lt, l, mid + (rt + ")") + rest) && Reads(one, rt, r, ")" + rest)
    ensures Reads(one, "(" + (lt + (mid + (rt + ")"))), [LParen] + (l + ([t] + (r + [RParen]))), rest)
  {
    RightReads(one, mid, t, rt, r, rest);
    var text, tokens := mid + (rt + ")"), [t] + (r + [RParen]);
    ReadsConcat(one, lt, l, text, tokens, rest);
    OpenReads(one, lt + text, l + tokens, rest);
  }

  /** From the operator to the closing parenthesis. */
  lemma RightReads(one: OneLexer, mid: string, t: Token, rt: string, r: seq<Token>, rest: string)
    requires one == LexFn() && ((mid == " || " && t == Or) || (mid == " && " && t == And))
    requires Reads(one, rt, r, ")" + rest)
    ensures Reads(one, mid + (rt + ")"), [t] + (r + [RParen]), rest)
  {
    ReadsToken(one, ")", RParen, rest);
    ReadsConcat(one, rt, r, ")", [RParen], rest);
    MidReads(one, mid, t, rt + ")" + rest);
    ReadsConcat(one, mid, [t], rt + ")", r + [RParen], rest);
  }

  lemma OpenReads(one: OneLexer, text: string, tokens: seq<Token>, rest: string)
    requires one == LexFn() && Reads(one, text, tokens, rest)
    ensures Reads(one, "(" + text, [LParen] + tokens, rest)
  {
    ReadsToken(one, "(", LParen, text + rest);
    ReadsConcat(one, "(", [LParen], text, tokens, rest);
  }

  lemma MidReads(one: OneLexer, mid: string, t: Token, rest: string)
    requires one == LexFn() && ((mid == " || " && t == Or) || (mid == " && " && t == And))
    ensures Reads(one, mid, [t], rest)
  {
    var word := if t == Or then "||" else "&&";
    ReadsSpace(one, rest);
    ReadsToken(one, word, t, " " + rest);
    ReadsConcat(one, word, [t], " ", [], rest);
    ReadsSpace(one, word + " " + rest);
    ReadsConcat(one, " ", [], word + " ", [t] + [], rest);
    assert mid == " " + (word + " ") && [] + ([t] + []) == [t];
  }

  /** The printed text of a clean tree lexes as its tokens. */
  lemma {:induction false} FormatReads(one: OneLexer, n: Node, rest: string, fl: Floats)
    requires one == LexFn() && Plain(n) && Clean(n) && Ends(rest)
    ensures Reads(one, Format(n, fl), TokensOf(n), rest)
    decreases n
  {
    match n
    case OrNode(l, r) =>
      FormatReads(one, r, ")" + rest, fl);
      FormatReads(one, l, " || " + (Format(r, fl) + ")") + rest, fl);
      PairReads(one, Format(l, fl), TokensOf(l), " || ", Or, Format(r, fl), TokensOf(r), rest);
    case AndNode(l, r) =>
      FormatReads(one, r, ")" + rest, fl);
      FormatReads(one, l, " && " + (Format(r, fl) + ")") + rest, fl);
      PairReads(one, Format(l, fl), TokensOf(l), " && ", And, Format(r, fl), TokensOf(r), rest);
    case NotNode(e) =>
      FormatReads(one, e, rest, fl);
      NotReads(one, e, rest, fl);
      ReadsConcat(one, "!", [Not], Format(e, fl), TokensOf(e), rest);
    case CompNode(f, op, v) =>
      LiteralReads(one, v, rest, fl);
      HeadReads(one, f, op, FormatLiteral(v, fl) + rest);
      ReadsConcat(one, FieldText(f) + (" " + (OpText(op) + " ")), FieldTokens(f) + [OpTok(op)],
                  FormatLiteral(v, fl), [LitToken(v)], rest);
      CompText(f, op, v, fl);
      assert FieldTokens(f) + [OpTok(op)] + [LitToken(v)] == TokensOf(n);
  }

  lemma NotReads(one: OneLexer, e: Node, rest: string, fl: Floats)
    requires one == LexFn() && Plain(e)
    ensures Reads(one, "!", [Not], Format(e, fl) + rest)
  {
    FormatStart(e, fl);
    var s := "!" + (Format(e, fl) + rest);
    assert Peek(s) == Format(e, fl)[0];
    ReadsToken(one, "!", Not, Format(e, fl) + rest);
  }

  /** Printing and parsing gives back the same tree. */
  lemma RoundTrip(n: Node, fl: Floats)
    requires Plain(n) && Clean(n)
    ensures Parse(Format(n, fl), fl) == Some(n)
  {
    FormatReads(LexFn(), n, "", fl);
    assert Format(n, fl) + "" == Format(n, fl);
    ParseBack(n, [EOF], fl);
    AndOfUnary(TokensOf(n) + [EOF], fl);
  }

  // ---- Other ways to write ----

  /** A string with its quotes and backslashes escaped. */
  function Escaped(s: string, quote: char): string {
    if s == "" then "" else EscapedChar(s[0], quote) + Escaped(s[1..], quote)
  }

  function EscapedChar(c: char, quote: char): string {
    if c == quote || c == '\\' then ['\\', c] else [c]
  }

  /** Any string can be written as a literal: escaped, it scans as itself, whatever follows. */
  lemma {:induction false} EscapedScans(s: string, quote: char, rest: string)
    requires quote != '\\'
    ensures ScanStr(Escaped(s, quote) + ([quote] + rest), quote) == StrScan(s, |Escaped(s, quote)| + 1)
    decreases |s|
  {
    if s == "" {
      assert "" + ([quote] + rest) == [quote] + rest;
    } else {
      var tail := Escaped(s[1..], quote) + ([quote] + rest);
      EscapedScans(s[1..], quote, rest);
      CharScans(s[0], quote, tail, s[1..], |Escaped(s[1..], quote)| + 1);
      Behind(EscapedChar(s[0], quote), Escaped(s[1..], quote), [quote] + rest);
      assert s == [s[0]] + s[1..];
    }
  }

  lemma CharScans(c: char, quote: char, tail: string, s: string, n: nat)
    requires quote != '\\' && ScanStr(tail, quote) == StrScan(s, n)
    ensures ScanStr(EscapedChar(c, quote) + tail, quote) == StrScan([c] + s, |EscapedChar(c, quote)| + n)
  {
    var text := EscapedChar(c, quote) + tail;
    assert text[|EscapedChar(c, quote)|..] == tail;
  }

  lemma Behind(a: string, b: string, c: string)
    ensures a + (b + c) == a + b + c
  {
  }

  /** The operators can be written as words, which end where an identifier would. */
  lemma WordsRead(word: string, rest: string)
    requires word == "and" || word == "or" || word == "not"
    requires rest == "" || !IsIdentPart(rest[0])
    ensures LexOne(word + rest) == Tok(if word == "and" then And else if word == "or" then Or else Not, |word|)
  {
    SpanOf(word, IsIdentPart, rest);
    assert (word + rest)[..|word|] == word;
  }

  // ---- Trees that do not come back ----

  /** The string literals of a tree, and of tokens, in order. */
  function Strs(n: Node): seq<string> {
    match n
    case OrNode(l, r) => Strs(l) + Strs(r)
    case AndNode(l, r) => Strs(l) + Strs(r)
    case NotNode(e) => Strs(e)
    case CompNode(_, _, v) => if v.StrLit? then [v.s] else []
  }

  function StrToks(ts: seq<Token>): seq<string> {
    if ts == [] then [] else (if ts[0].StrTok? then [ts[0].val] else []) + StrToks(ts[1..])
  }

  lemma {:induction false} StrToksConcat(a: seq<Token>, b: seq<Token>)
    ensures StrToks(a + b) == StrToks(a) + StrToks(b)
    decreases |a|
  {
    if a == [] {
      assert a + b == b;
    } else {
      StrToksConcat(a[1..], b);
      FirstStays(a, b);
      Grouped(if a[0].StrTok? then [a[0].val] else [], StrToks(a[1..]), StrToks(b));
    }
  }

  lemma FirstStays(a: seq<Token>, b: seq<Token>)
    requires a != []
    ensures (a + b)[1..] == a[1..] + b && (a + b)[0] == a[0]
  {
  }

  lemma Grouped(a: seq<string>, b: seq<string>, c: seq<string>)
    ensures a + (b + c) == a + b + c
  {
  }

  /** A parsed tree holds exactly the strings of the tokens it was parsed from. */
  ghost predicate Keeps(ts: seq<Token>, r: Parsed) {
    r.Done? ==> StrToks(ts) == Strs(r.n) + StrToks(r.rest)
  }

  lemma {:induction false} OrKeeps(ts: seq<Token>, fl: Floats)
    ensures Keeps(ts, ParseOr(ts, fl))
    decreases |ts|, 4
  {
    AndKeeps(ts, fl);
    match ParseAnd(ts, fl)
    case Fail =>
    case Done(left, rest) => OrLoopKeeps(ts, left, rest, fl);
  }

  lemma {:induction false} OrLoopKeeps(all: seq<Token>, left: Node, ts: seq<Token>, fl: Floats)
    requires StrToks(all) == Strs(left) + StrToks(ts)
    ensures Keeps(all, OrLoop(left, ts, fl))
    decreases |ts|, 3
  {
    if Current(ts) == Or {
      AndKeeps(ts[1..], fl);
      match ParseAnd(ts[1..], fl)
      case Fail =>
      case Done(right, rest) =>
        assert StrToks(all) == Strs(left) + (Strs(right) + StrToks(rest)) == Strs(OrNode(left, right)) + StrToks(rest);
        OrLoopKeeps(all, OrNode(left, right), rest, fl);
    }
  }

  lemma {:induction false} AndKeeps(ts: seq<Token>, fl: Floats)
    ensures Keeps(ts, ParseAnd(ts, fl))
    decreases |ts|, 2
  {
    UnaryKeeps(ts, fl);
    match ParseUnary(ts, fl)
    case Fail =>
    case Done(left, rest) => AndLoopKeeps(ts, left, rest, fl);
  }

  lemma {:induction false} AndLoopKeeps(all: seq<Token>, left: Node, ts: seq<Token>, fl: Floats)
    requires StrToks(all) == Strs(left) + StrToks(ts)
    ensures Keeps(all, AndLoop(left, ts, fl))
    decreases |ts|, 1
  {
    if Current(ts) == And {
      UnaryKeeps(ts[1..], fl);
      match ParseUnary(ts[1..], fl)
      case Fail =>
      case Done(right, rest) =>
        assert StrToks(all) == Strs(left) + (Strs(right) + StrToks(rest)) == Strs(AndNode(left, right)) + StrToks(rest);
        AndLoopKeeps(all, AndNode(left, right), rest, fl);
    }
  }

  lemma {:induction false} UnaryKeeps(ts: seq<Token>, fl: Floats)
    ensures Keeps(ts, ParseUnary(ts, fl))
    decreases |ts|, 1
  {
    if Current(ts) == Not {
      UnaryKeeps(ts[1..], fl);
    } else if Current(ts) == LParen {
      OrKeeps(ts[1..], fl);
    } else {
      ComparisonKeeps(ts, fl);
    }
  }

  lemma ComparisonKeeps(ts: seq<Token>, fl: Floats)
    ensures Keeps(ts, ParseComparison(ts, fl))
  {
    match ParseField(ts)
    case BadField =>
    case GotField(f, rest) =>
      FieldKeeps(ts);
      if ParseComparison(ts, fl).Done? {
        assert rest[1..][0] == rest[1] && rest[1..][1..] == rest[2..];
      }
  }

  lemma FieldKeeps(ts: seq<Token>)
    ensures ParseField(ts).GotField? ==> StrToks(ts) == StrToks(ParseField(ts).rest)
  {
    if ParseField(ts).GotField? && Current(ts[1..]) == Dot {
      assert ts[1..][1..] == ts[2..] && ts[2..][1..] == ts[3..];
      assert StrToks(ts) == StrToks(ts[1..]) && StrToks(ts[1..]) == StrToks(ts[2..]) &&
             StrToks(ts[2..]) == StrToks(ts[3..]);
    }
  }

  // The first unclean string is lexed as something else.

  function Backslashes(d: nat): string {
    seq(d, _ => '\\')
  }

  /** With `d` backslashes still owed, what is scanned can no longer make up for them. */
  lemma {:induction false} NeverCatchesUp(s: string, d: nat, rest: string)
    requires d >= 1
    ensures var r := ScanStr(s + "\"" + rest, '"'); r.StrScan? ==> r.val != Backslashes(d) + s
    decreases |s|
  {
    var x := s + "\"" + rest;
    var owed := Backslashes(d) + s;
    assert owed[0] == '\\';
    if s == "" {
      assert x[0] == '"';
    } else if s[0] == '\\' && |s| >= 2 && s[1] == '\\' {
      NeverCatchesUp(s[2..], d + 1, rest);
      assert x[2..] == s[2..] + "\"" + rest;
      assert owed[1..] == Backslashes(d + 1) + s[2..];
      var r := ScanStr(x, '"');
      assert r.StrScan? ==> r.val[1..] == ScanStr(x[2..], '"').val;
    } else {
      assert |s| == 1 ==> x[1] == '"';
    }
  }

  /** A string with a quote or a backslash is never scanned as itself. */
  lemma {:induction false} ScanUnclean(s: string, rest: string)
    requires !CleanString(s)
    ensures var r := ScanStr(s + "\"" + rest, '"'); r.StrScan? ==> r.val != s
    decreases |s|
  {
    var x := s + "\"" + rest;
    if s[0] == '\\' {
      if |s| >= 2 && s[1] == '\\' {
        NeverCatchesUp(s[2..], 1, rest);
        assert x[2..] == s[2..] + "\"" + rest;
        assert s[1..] == Backslashes(1) + s[2..];
        var r := ScanStr(x, '"');
        assert r.StrScan? ==> r.val[1..] == ScanStr(x[2..], '"').val;
      } else {
        assert |s| == 1 ==> x[1] == '"';
      }
    } else if s[0] != '"' {
      ScanUnclean(s[1..], rest);
      assert x[1..] == s[1..] + "\"" + rest;
      var r := ScanStr(x, '"');
      assert r.StrScan? ==> r.val[1..] == ScanStr(x[1..], '"').val;
    }
  }

  /** The string literals lexed do not begin with those of the tree. */
  ghost predicate Derails(r: LexResult, strs: seq<string>) {
    r.Tokens? ==> !(strs <= StrToks(r.ts))
  }

  lemma LiteralDerails(one: OneLexer, v: Literal, rest: string, fl: Floats)
    requires one == LexFn() && v.StrLit? && !CleanString(v.s)
    ensures Derails(LexAll(one, FormatLiteral(v, fl) + rest), [v.s])
  {
    var text := "\"" + (v.s + "\"") + rest;
    assert text[1..] == v.s + "\"" + rest;
    ScanUnclean(v.s, rest);
    var r := ScanStr(v.s + "\"" + rest, '"');
    var all := LexAll(one, text);
    if all.Tokens? {
      assert LexOne(text) == Tok(StrTok(r.val), r.size + 1);
      assert all.ts[0] == StrTok(r.val);
      HeadDiffers(v.s, r.val, StrToks(all.ts[1..]));
    }
  }

  lemma HeadDiffers(s: string, t: string, more: seq<string>)
    requires s != t
    ensures !([s] <= [t] + more)
  {
    assert ([t] + more)[0] == t;
  }

  /** In front of a derailing rest, tokens that are read properly do not help. */
  lemma DerailsAfter(one: OneLexer, text: string, ts: seq<Token>, rest: string, strs: seq<string>)
    requires Reads(one, text, ts, rest) && Derails(LexAll(one, rest), strs)
    ensures Derails(LexAll(one, text + rest), StrToks(ts) + strs)
  {
    var r := LexAll(one, rest);
    if r.Tokens? {
      StrToksConcat(ts, r.ts);
      PrefixAfter(StrToks(ts), strs, StrToks(r.ts));
    }
  }

  lemma PrefixAfter(a: seq<string>, b: seq<string>, c: seq<string>)
    ensures a + b <= a + c ==> b <= c
    ensures a + b <= c ==> a <= c
  {
    if a + b <= a + c {
      forall i | 0 <= i < |b| ensures b[i] == c[i] {
        assert (a + b)[|a| + i] == (a + c)[|a| + i];
      }
    }
    if a + b <= c {
      assert a == c[..|a|];
    }
  }

  lemma DerailsEarlier(r: LexResult, a: seq<string>, b: seq<string>)
    requires Derails(r, a)
    ensures Derails(r, a + b)
  {
    if r.Tokens? {
      PrefixAfter(a, b, StrToks(r.ts));
    }
  }

  lemma {:induction false} TokenStrs(n: Node)
    requires Plain(n)
    ensures StrToks(TokensOf(n)) == Strs(n)
  {
    match n
    case OrNode(l, r) =>
      TokenStrs(l); TokenStrs(r);
      PairStrs(LParen, TokensOf(l), Or, TokensOf(r), RParen);
    case AndNode(l, r) =>
      TokenStrs(l); TokenStrs(r);
      PairStrs(LParen, TokensOf(l), And, TokensOf(r), RParen);
    case NotNode(e) =>
      TokenStrs(e);
      StrToksConcat([Not], TokensOf(e));
    case CompNode(f, op, v) =>
      StrToksConcat(FieldTokens(f), [OpTok(op)] + [LitToken(v)]);
      StrToksConcat([OpTok(op)], [LitToken(v)]);
      FieldHasNone(f);
  }

  lemma FieldHasNone(f: FieldRef)
    ensures StrToks(FieldTokens(f)) == []
  {
    StrToksConcat([Ident(f.name)], [Dot] + [Ident(f.subName)]);
    StrToksConcat([Dot], [Ident(f.subName)]);
  }

  lemma PairStrs(a: Token, l: seq<Token>, b: Token, r: seq<Token>, c: Token)
    requires !a.StrTok? && !b.StrTok? && !c.StrTok?
    ensures StrToks([a] + (l + ([b] + (r + [c])))) == StrToks(l) + StrToks(r)
  {
    NoString(a, l + ([b] + (r + [c])));
    StrToksConcat(l, [b] + (r + [c]));
    NoString(b, r + [c]);
    StrToksConcat(r, [c]);
    NoString(c, []);
  }

  lemma NoString(t: Token, ts: seq<Token>)
    requires !t.StrTok?
    ensures StrToks([t] + ts) == StrToks(ts)
    ensures ts == [] ==> StrToks([t]) == []
  {
    assert ([t] + ts)[1..] == ts;
    assert [t][1..] == [];
  }

  /** Up to its first unclean string the text of a tree is lexed as its tokens; there it derails. */
  lemma {:induction false} FormatDerails(one: OneLexer, n: Node, rest: string, fl: Floats)
    requires one == LexFn() && Plain(n) && !Clean(n) && Ends(rest)
    ensures Derails(LexAll(one, Format(n, fl) + rest), Strs(n))
    decreases n, 1
  {
    match n
    case OrNode(l, r) => PairDerails(one, n, " || ", Or, rest, fl);
    case AndNode(l, r) => PairDerails(one, n, " && ", And, rest, fl);
    case NotNode(e) =>
      FormatDerails(one, e, rest, fl);
      NotReads(one, e, rest, fl);
      TokenThenDerails(one, "!", Not, Format(e, fl) + rest, Strs(e));
      assert "!" + (Format(e, fl) + rest) == Format(n, fl) + rest;
    case CompNode(f, op, v) => CompDerails(one, f, op, v, rest, fl);
  }

  lemma TokenThenDerails(one: OneLexer, text: string, t: Token, rest: string, strs: seq<string>)
    requires Reads(one, text, [t], rest) && Derails(LexAll(one, rest), strs) && !t.StrTok?
    ensures Derails(LexAll(one, text + rest), strs)
  {
    DerailsAfter(one, text, [t], rest, strs);
    assert StrToks([t]) == [] && [] + strs == strs;
  }

  lemma CompDerails(one: OneLexer, f: FieldRef, op: CompOp, v: Literal, rest: string, fl: Floats)
    requires one == LexFn() && Plain(CompNode(f, op, v)) && v.StrLit? && !CleanString(v.s)
    ensures Derails(LexAll(one, Format(CompNode(f, op, v), fl) + rest), [v.s])
  {
    var head, text := FieldText(f) + (" " + (OpText(op) + " ")), FormatLiteral(v, fl);
    LiteralDerails(one, v, rest, fl);
    HeadReads(one, f, op, text + rest);
    DerailsAfter(one, head, FieldTokens(f) + [OpTok(op)], text + rest, [v.s]);
    FieldHasNone(f);
    StrToksConcat(FieldTokens(f), [OpTok(op)]);
    assert StrToks(FieldTokens(f) + [OpTok(op)]) == [] && [] + [v.s] == [v.s];
    CompText(f, op, v, fl);
    Rejoin(head, text, rest);
  }

  lemma Rejoin(a: string, b: string, c: string)
    ensures a + (b + c) == a + b + c
  {
  }

  lemma PairDerails(one: OneLexer, n: Node, mid: string, t: Token, rest: string, fl: Floats)
    requires one == LexFn() && Plain(n) && !Clean(n) && Ends(rest)
    requires (n.OrNode? && mid == " || " && t == Or) || (n.AndNode? && mid == " && " && t == And)
    ensures Derails(LexAll(one, Format(n, fl) + rest), Strs(n))
    decreases n, 0
  {
    var l, r := n.left, n.right;
    var lt, rt := Format(l, fl), Format(r, fl);
    var tail := mid + (rt + (")" + rest));
    if !Clean(l) {
      FormatDerails(one, l, tail, fl);
      DerailsEarlier(LexAll(one, lt + tail), Strs(l), Strs(r));
    } else {
      FormatReads(one, l, tail, fl);
      FormatDerails(one, r, ")" + rest, fl);
      MidReads(one, mid, t, rt + (")" + rest));
      RightDerails(one, lt, l, mid, t, rt + (")" + rest), Strs(r));
    }
    OpenDerails(one, lt + tail, Strs(l) + Strs(r));
    PairText(lt, mid, rt, rest);
  }

  lemma OpenDerails(one: OneLexer, text: string, strs: seq<string>)
    requires one == LexFn() && Derails(LexAll(one, text), strs)
    ensures Derails(LexAll(one, "(" + text), strs)
  {
    ReadsToken(one, "(", LParen, text);
    TokenThenDerails(one, "(", LParen, text, strs);
  }

  lemma RightDerails(one: OneLexer, lt: string, l: Node, mid: string, t: Token, rest: string, strs: seq<string>)
    requires Plain(l) && Reads(one, lt, TokensOf(l), mid + rest) && Reads(one, mid, [t], rest) && !t.StrTok?
    requires Derails(LexAll(one, rest), strs)
    ensures Derails(LexAll(one, lt + (mid + rest)), Strs(l) + strs)
  {
    TokenThenDerails(one, mid, t, rest, strs);
    DerailsAfter(one, lt, TokensOf(l), mid + rest, strs);
    TokenStrs(l);
  }

  lemma PairText(lt: string, mid: string, rt: string, rest: string)
    ensures "(" + (lt + (mid + (rt + (")" + rest)))) == "(" + (lt + (mid + (rt + ")"))) + rest
  {
    Rejoin(rt, ")", rest);
    Rejoin(mid, rt + ")", rest);
    Rejoin(lt, mid + (rt + ")"), rest);
    Rejoin("(", lt + (mid + (rt + ")")), rest);
  }

  /** A tree over proper names and integer or string literals comes back from its printed form if
      and only if none of its strings has a double quote or a backslash. */
  lemma RoundTripIff(n: Node, fl: Floats)
    requires Plain(n)
    ensures Parse(Format(n, fl), fl) == Some(n) <==> Clean(n)
  {
    if Clean(n) {
      RoundTrip(n, fl);
    } else {
      FormatDerails(LexFn(), n, "", fl);
      assert Format(n, fl) + "" == Format(n, fl);
      var r := LexAll(LexFn(), Format(n, fl));
      if r.Tokens? {
        OrKeeps(r.ts, fl);
      }
    }
  }
}
