/** The lexer and the recursive-descent parser of filter expressions. */
module FilterParsing {
  import opened Options
  import opened FilterSyntax

  datatype Token =
    | EOF | Ident(val: string) | IntTok(val: string) | FloatTok(val: string) | StrTok(val: string)
    | LParen | RParen | Dot | OpTok(op: CompOp) | And | Or | Not

  // ---- Lexer, as a function of what is left of the input ----

  predicate IsSpace(c: char) {
    c == ' ' || '\U{09}' <= c <= '\U{0D}' || c == '\U{85}' || c == '\U{A0}'
  }

  predicate IsIdentStart(c: char) {
    'a' <= c <= 'z' || 'A' <= c <= 'Z' || c == '_'
  }

  predicate IsIdentPart(c: char) {
    IsIdentStart(c) || IsDigit(c)
  }

  predicate IsNumberPart(c: char) {
    IsDigit(c) || c == '.'
  }

  /** How many characters at the start satisfy `p`. */
  function Span(s: string, p: char -> bool): (n: nat)
    ensures n <= |s| && (n < |s| ==> !p(s[n]))
    ensures forall i :: 0 <= i < n ==> p(s[i])
  {
    if s == "" || !p(s[0]) then 0 else 1 + Span(s[1..], p)
  }

  datatype StrScan = Unterminated | StrScan(val: string, size: nat)

  /** The rest of a string literal after its opening quote; `size` counts the closing one. */
  function ScanStr(s: string, quote: char): (r: StrScan)
    ensures r.StrScan? ==> 1 <= r.size <= |s|
  {
    if s == "" then Unterminated
    else if s[0] == '\\' && |s| >= 2 then Longer(s[1], ScanStr(s[2..], quote), 2)
    else if s[0] == quote then StrScan("", 1)
    else Longer(s[0], ScanStr(s[1..], quote), 1)
  }

  function Longer(c: char, r: StrScan, k: nat): StrScan {
    match r
    case Unterminated => Unterminated
    case StrScan(v, n) => StrScan([c] + v, n + k)
  }

  datatype LexStep = LexError | Tok(t: Token, size: nat)

  function Peek(s: string): char {
    if |s| > 1 then s[1] else '\0'
  }

  function NumberLen(s: string): (n: nat)
    requires s != ""
    ensures n <= |s|
    ensures s[0] == '-' || IsDigit(s[0]) ==> n >= 1
  {
    if s[0] == '-' then 1 + Span(s[1..], IsNumberPart) else Span(s, IsNumberPart)
  }

  function NumberToken(text: string): Token {
    if '.' in text then FloatTok(text) else IntTok(text)
  }

  function IdentToken(text: string): Token {
    if text == "and" then And else if text == "or" then Or else if text == "not" then Not else Ident(text)
  }

  /** The token at the start of `s`. */
  function LexOne(s: string): (r: LexStep)
    requires s != ""
    ensures r.Tok? ==> 1 <= r.size <= |s|
  {
    var c, next := s[0], Peek(s);
    if c == '(' then Tok(LParen, 1)
    else if c == ')' then Tok(RParen, 1)
    else if c == '.' then Tok(Dot, 1)
    else if c == '!' && next == '=' then Tok(OpTok(Ne), 2)
    else if c == '!' then Tok(Not, 1)
    else if c == '=' && next == '=' then Tok(OpTok(Eq), 2)
    else if c == '<' && next == '=' then Tok(OpTok(Le), 2)
    else if c == '<' then Tok(OpTok(Lt), 1)
    else if c == '>' && next == '=' then Tok(OpTok(Ge), 2)
    else if c == '>' then Tok(OpTok(Gt), 1)
    else if c == '&' && next == '&' then Tok(And, 2)
    else if c == '|' && next == '|' then Tok(Or, 2)
    else if c == '"' || c == '\'' then
      match ScanStr(s[1..], c)
      case Unterminated => LexError
      case StrScan(v, n) => Tok(StrTok(v), n + 1)
    else if c == '-' || IsDigit(c) then Tok(NumberToken(s[..NumberLen(s)]), NumberLen(s))
    else if IsIdentStart(c) then Tok(IdentToken(s[..Span(s, IsIdentPart)]), Span(s, IsIdentPart))
    else LexError
  }

  datatype LexResult = BadText | Tokens(ts: seq<Token>)

  function Prepend(ts: seq<Token>, r: LexResult): LexResult {
    match r
    case BadText => BadText
    case Tokens(more) => Tokens(ts + more)
  }

  type OneLexer = string -> LexStep

  function LexFn(): OneLexer {
    s => if s == "" then LexError else LexOne(s)
  }

  function LexAll(one: OneLexer, s: string): LexResult
    decreases |s|
  {
    if s == "" then Tokens([EOF])
    else if IsSpace(s[0]) then LexAll(one, s[1..])
    else
      match one(s)
      case LexError => BadText
      case Tok(t, n) => if 1 <= n <= |s| then Prepend([t], LexAll(one, s[n..])) else BadText
  }

  // ---- Lexer, advancing through the input ----

  class Lexer {
    const input: string
    var pos: nat
    var tokens: seq<Token>

    constructor (input: string)
      ensures this.input == input && pos == 0 && tokens == []
    {
      this.input := input;
      pos, tokens := 0, [];
    }

    /** Advances over characters that satisfy `p`. */
    method SkipWhile(p: char -> bool)
      requires pos <= |input|
      modifies this`pos
      ensures pos == old(pos) + Span(input[old(pos)..], p) <= |input|
    {
      while pos < |input| && p(input[pos])
        invariant old(pos) <= pos <= |input|
        invariant old(pos) + Span(input[old(pos)..], p) == pos + Span(input[pos..], p)
      {
        assert input[pos..][1..] == input[pos + 1..];
        pos := pos + 1;
      }
    }

    method Emit(t: Token, size: nat)
      modifies this
      ensures pos == old(pos) + size && tokens == old(tokens) + [t]
    {
      tokens := tokens + [t];
      pos := pos + size;
    }

    method ScanString(quote: char) returns (ok: bool)
      requires pos < |input|
      modifies this
      ensures match ScanStr(input[old(pos) + 1..], quote)
              case Unterminated => !ok && tokens == old(tokens)
              case StrScan(v, n) => ok && pos == old(pos) + 1 + n && tokens == old(tokens) + [StrTok(v)]
    {
      ghost var all := ScanStr(input[pos + 1..], quote);
      ghost var start := pos + 1;
      var at := pos + 1;
      var text := "";
      while at < |input|
        invariant start <= at <= |input| && pos == old(pos) && tokens == old(tokens)
        invariant all == After(text, at - start, ScanStr(input[at..], quote))
      {
        var c := input[at];
        AfterNext(text, at - start, input[at..], quote);
        if c == '\\' && at + 1 < |input| {
          assert input[at..][2..] == input[at + 2..];
          text := text + [input[at + 1]];
          at := at + 2;
        } else if c == quote {
          Emit(StrTok(text), at + 1 - pos);
          return true;
        } else {
          assert input[at..][1..] == input[at + 1..];
          text := text + [c];
          at := at + 1;
        }
      }
      return false;
    }

    /** The number or identifier of this length, as a token. */
    method ScanNumber()
      requires pos < |input|
      modifies this
      ensures var n := NumberLen(input[old(pos)..]);
              pos == old(pos) + n <= |input| && tokens == old(tokens) + [NumberToken(input[old(pos)..][..n])]
    {
      var start := pos;
      if input[pos] == '-' {
        pos := pos + 1;
      }
      assert input[start..][1..] == input[start + 1..];
      SkipWhile(IsNumberPart);
      assert input[start..][..pos - start] == input[start..pos];
      tokens := tokens + [NumberToken(input[start..pos])];
    }

    method ScanIdent()
      requires pos < |input|
      modifies this
      ensures var n := Span(input[old(pos)..], IsIdentPart);
              pos == old(pos) + n <= |input| && tokens == old(tokens) + [IdentToken(input[old(pos)..][..n])]
    {
      var start := pos;
      SkipWhile(IsIdentPart);
      assert input[start..][..pos - start] == input[start..pos];
      tokens := tokens + [IdentToken(input[start..pos])];
    }

    /** One token, at a position that is not white space. */
    method ScanToken() returns (ok: bool)
      requires pos < |input|
      modifies this
      ensures match LexOne(input[old(pos)..])
              case LexError => !ok
              case Tok(t, n) => ok && pos == old(pos) + n && tokens == old(tokens) + [t]
    {
      var c := input[pos];
      var next := if pos + 1 < |input| then input[pos + 1] else '\0';
      assert next == Peek(input[pos..]) && input[pos..][1..] == input[pos + 1..];
      ok := true;
      if c == '(' {
        Emit(LParen, 1);
      } else if c == ')' {
        Emit(RParen, 1);
      } else if c == '.' {
        Emit(Dot, 1);
      } else if c == '!' && next == '=' {
        Emit(OpTok(Ne), 2);
      } else if c == '!' {
        Emit(Not, 1);
      } else if c == '=' && next == '=' {
        Emit(OpTok(Eq), 2);
      } else if c == '<' && next == '=' {
        Emit(OpTok(Le), 2);
      } else if c == '<' {
        Emit(OpTok(Lt), 1);
      } else if c == '>' && next == '=' {
        Emit(OpTok(Ge), 2);
      } else if c == '>' {
        Emit(OpTok(Gt), 1);
      } else if c == '&' && next == '&' {
        Emit(And, 2);
      } else if c == '|' && next == '|' {
        Emit(Or, 2);
      } else if c == '"' || c == '\'' {
        ok := ScanString(c);
      } else if c == '-' || IsDigit(c) {
        ScanNumber();
      } else if IsIdentStart(c) {
        ScanIdent();
      } else {
        ok := false;
      }
    }

    method SkipSpaces(ghost one: OneLexer)
      requires pos <= |input|
      modifies this`pos
      ensures old(pos) <= pos <= |input| && (pos < |input| ==> !IsSpace(input[pos]))
      ensures LexAll(one, input[old(pos)..]) == LexAll(one, input[pos..])
    {
      while pos < |input| && IsSpace(input[pos])
        invariant old(pos) <= pos <= |input|
        invariant LexAll(one, input[old(pos)..]) == LexAll(one, input[pos..])
      {
        assert input[pos..][1..] == input[pos + 1..];
        pos := pos + 1;
      }
    }

    /** The next token, if there is one behind the white space. */
    method ScanNext(ghost one: OneLexer) returns (ok: bool)
      requires pos < |input| && one == LexFn()
      modifies this
      ensures ok ==> old(pos) < pos <= |input|
      ensures ok ==> Prepend(old(tokens), LexAll(one, input[old(pos)..])) == Prepend(tokens, LexAll(one, input[pos..]))
      ensures !ok ==> LexAll(one, input[old(pos)..]) == BadText
    {
      SkipSpaces(one);
      if pos >= |input| {
        return true;
      }
      ghost var at := pos;
      ghost var step := LexOne(input[pos..]);
      LexNext(one, input, at, step);
      ok := ScanToken();
      if ok {
        PrependTwice(old(tokens), step.t, LexAll(one, input[pos..]));
      }
    }

    method Scan() returns (ok: bool)
      requires pos == 0 && tokens == []
      modifies this
      ensures LexAll(LexFn(), input) == if ok then Tokens(tokens) else BadText
    {
      ghost var one := LexFn();
      ghost var all := LexAll(one, input);
      PrependNothing(all);
      while pos < |input|
        invariant pos <= |input|
        invariant all == Prepend(tokens, LexAll(one, input[pos..]))
        decreases |input| - pos
      {
        ok := ScanNext(one);
        if !ok {
          return false;
        }
      }
      tokens := tokens + [EOF];
      return true;
    }
  }

  lemma LexNext(one: OneLexer, s: string, at: nat, step: LexStep)
    requires at < |s| && !IsSpace(s[at]) && one == LexFn() && step == LexOne(s[at..])
    ensures step == LexError ==> LexAll(one, s[at..]) == BadText
    ensures step.Tok? ==>
              1 <= step.size <= |s| - at && LexAll(one, s[at..]) == Prepend([step.t], LexAll(one, s[at + step.size..]))
  {
    if step.Tok? {
      assert s[at..][step.size..] == s[at + step.size..];
    }
  }

  function After(text: string, n: nat, r: StrScan): StrScan {
    match r
    case Unterminated => Unterminated
    case StrScan(v, m) => StrScan(text + v, n + m)
  }

  lemma AfterNext(text: string, n: nat, s: string, quote: char)
    requires s != ""
    ensures After(text, n, ScanStr(s, quote)) ==
            if s[0] == '\\' && |s| >= 2 then After(text + [s[1]], n + 2, ScanStr(s[2..], quote))
            else if s[0] == quote then StrScan(text, n + 1)
            else After(text + [s[0]], n + 1, ScanStr(s[1..], quote))
  {
    if s[0] == '\\' && |s| >= 2 {
      var r := ScanStr(s[2..], quote);
      if r.StrScan? {
        assert text + ([s[1]] + r.val) == text + [s[1]] + r.val;
      }
    } else if s[0] == quote {
      assert text + "" == text;
    } else {
      var r := ScanStr(s[1..], quote);
      if r.StrScan? {
        assert text + ([s[0]] + r.val) == text + [s[0]] + r.val;
      }
    }
  }

  lemma PrependNothing(r: LexResult)
    ensures Prepend([], r) == r
  {
    match r
    case BadText =>
    case Tokens(ts) => assert [] + ts == ts;
  }

  lemma PrependTwice(a: seq<Token>, t: Token, r: LexResult)
    ensures Prepend(a, Prepend([t], r)) == Prepend(a + [t], r)
  {
    match r
    case BadText =>
    case Tokens(ts) => assert a + ([t] + ts) == a + [t] + ts;
  }

  lemma PrependConcat(a: seq<Token>, b: seq<Token>, r: LexResult)
    ensures Prepend(a, Prepend(b, r)) == Prepend(a + b, r)
  {
    match r
    case BadText =>
    case Tokens(ts) => assert a + (b + ts) == a + b + ts;
  }

  // ---- Parser, as a function of the tokens left ----

  datatype Parsed = Fail | Done(n: Node, rest: seq<Token>)

  function Current(ts: seq<Token>): Token {
    if ts == [] then EOF else ts[0]
  }

  /** An expression, and the tokens behind it. */
  function ParseOr(ts: seq<Token>, fl: Floats): (r: Parsed)
    ensures r.Done? ==> |r.rest| < |ts|
    decreases |ts|, 4
  {
    match ParseAnd(ts, fl)
    case Fail => Fail
    case Done(left, rest) => OrLoop(left, rest, fl)
  }

  function OrLoop(left: Node, ts: seq<Token>, fl: Floats): (r: Parsed)
    ensures r.Done? ==> |r.rest| <= |ts|
    decreases |ts|, 3
  {
    if Current(ts) != Or then Done(left, ts)
    else match ParseAnd(ts[1..], fl)
      case Fail => Fail
      case Done(right, rest) => OrLoop(OrNode(left, right), rest, fl)
  }

  function ParseAnd(ts: seq<Token>, fl: Floats): (r: Parsed)
    ensures r.Done? ==> |r.rest| < |ts|
    decreases |ts|, 2
  {
    match ParseUnary(ts, fl)
    case Fail => Fail
    case Done(left, rest) => AndLoop(left, rest, fl)
  }

  function AndLoop(left: Node, ts: seq<Token>, fl: Floats): (r: Parsed)
    ensures r.Done? ==> |r.rest| <= |ts|
    decreases |ts|, 1
  {
    if Current(ts) != And then Done(left, ts)
    else match ParseUnary(ts[1..], fl)
      case Fail => Fail
      case Done(right, rest) => AndLoop(AndNode(left, right), rest, fl)
  }

  function ParseUnary(ts: seq<Token>, fl: Floats): (r: Parsed)
    ensures r.Done? ==> |r.rest| < |ts|
    decreases |ts|, 1
  {
    if Current(ts) == Not then
      match ParseUnary(ts[1..], fl)
      case Fail => Fail
      case Done(e, rest) => Done(NotNode(e), rest)
    else ParsePrimary(ts, fl)
  }

  function ParsePrimary(ts: seq<Token>, fl: Floats): (r: Parsed)
    ensures r.Done? ==> |r.rest| < |ts|
    decreases |ts|, 0
  {
    if Current(ts) == LParen then
      match ParseOr(ts[1..], fl)
      case Fail => Fail
      case Done(e, rest) => if Current(rest) == RParen then Done(e, rest[1..]) else Fail
    else ParseComparison(ts, fl)
  }

  datatype FieldParse = BadField | GotField(f: FieldRef, rest: seq<Token>)

  function ParseField(ts: seq<Token>): (r: FieldParse)
    ensures r.GotField? ==> |r.rest| < |ts|
  {
    if !Current(ts).Ident? then BadField
    else if Current(ts[1..]) != Dot then GotField(FieldRef(ts[0].val, ""), ts[1..])
    else if Current(ts[2..]).Ident? then GotField(FieldRef(ts[0].val, ts[2].val), ts[3..])
    else BadField
  }

  function ParseComparison(ts: seq<Token>, fl: Floats): (r: Parsed)
    ensures r.Done? ==> |r.rest| < |ts|
  {
    match ParseField(ts)
    case BadField => Fail
    case GotField(f, rest) =>
      if !Current(rest).OpTok? then Fail
      else
        match ParseValue(Current(rest[1..]), fl)
        case None => Fail
        case Some(v) => Done(CompNode(f, rest[0].op, v), rest[2..])
  }

  function ParseValue(t: Token, fl: Floats): (r: Option<Literal>)
    ensures r.Some? ==> t != EOF
  {
    match t
    case IntTok(val) => (match ParseInt(val) case Some(i) => Some(IntLit(i)) case None => None)
    case FloatTok(val) => (match fl.parse(val) case Some(f) => Some(FloatLit(f)) case None => None)
    case StrTok(val) => Some(StrLit(val))
    case _ => None
  }

  function ParseTokens(ts: seq<Token>, fl: Floats): Option<Node> {
    match ParseOr(ts, fl)
    case Fail => None
    case Done(n, rest) => if Current(rest) == EOF then Some(n) else None
  }

  function Parse(input: string, fl: Floats): Option<Node> {
    match LexAll(LexFn(), input)
    case BadText => None
    case Tokens(ts) => ParseTokens(ts, fl)
  }

  // ---- Parser, advancing through the tokens ----

  class Parser {
    const tokens: seq<Token>
    const fl: Floats
    var pos: nat

    constructor (tokens: seq<Token>, fl: Floats)
      ensures this.tokens == tokens && this.fl == fl && pos == 0
    {
      this.tokens, this.fl := tokens, fl;
      pos := 0;
    }

    function Left(): seq<Token>
      reads this
    {
      if pos <= |tokens| then tokens[pos..] else []
    }

    method Advance()
      requires pos <= |tokens|
      modifies this
      ensures old(pos) <= pos <= |tokens| && (old(pos) < |tokens| ==> pos == old(pos) + 1 && Left() == old(Left())[1..])
    {
      if pos < |tokens| {
        pos := pos + 1;
      }
    }

    method ParseExpr() returns (ok: bool, n: Node)
      requires pos <= |tokens|
      modifies this
      ensures pos <= |tokens| && ParseOr(old(Left()), fl) == if ok then Done(n, Left()) else Fail
      decreases |tokens| - pos, 4
    {
      ok, n := ParseConjunction();
      while ok && Current(Left()) == Or
        invariant pos <= |tokens|
        invariant ok ==> |Left()| < |old(Left())|
        invariant ParseOr(old(Left()), fl) == if ok then OrLoop(n, Left(), fl) else Fail
        decreases ok, |tokens| - pos
      {
        Advance();
        var right;
        ok, right := ParseConjunction();
        n := OrNode(n, right);
      }
    }

    method ParseConjunction() returns (ok: bool, n: Node)
      requires pos <= |tokens|
      modifies this
      ensures pos <= |tokens| && ParseAnd(old(Left()), fl) == if ok then Done(n, Left()) else Fail
      decreases |tokens| - pos, 2
    {
      ok, n := ParseNegation();
      while ok && Current(Left()) == And
        invariant pos <= |tokens|
        invariant ok ==> |Left()| < |old(Left())|
        invariant ParseAnd(old(Left()), fl) == if ok then AndLoop(n, Left(), fl) else Fail
        decreases ok, |tokens| - pos
      {
        Advance();
        var right;
        ok, right := ParseNegation();
        n := AndNode(n, right);
      }
    }

    method ParseNegation() returns (ok: bool, n: Node)
      requires pos <= |tokens|
      modifies this
      ensures pos <= |tokens| && ParseUnary(old(Left()), fl) == if ok then Done(n, Left()) else Fail
      decreases |tokens| - pos, 1
    {
      if Current(Left()) == Not {
        Advance();
        ok, n := ParseNegation();
        n := NotNode(n);
      } else {
        ok, n := ParseAtom();
      }
    }

    method ParseAtom() returns (ok: bool, n: Node)
      requires pos <= |tokens|
      modifies this
      ensures pos <= |tokens| && ParsePrimary(old(Left()), fl) == if ok then Done(n, Left()) else Fail
      decreases |tokens| - pos, 0
    {
      if Current(Left()) == LParen {
        Advance();
        ok, n := ParseExpr();
        if ok {
          if Current(Left()) == RParen {
            Advance();
          } else {
            ok := false;
          }
        }
      } else {
        ok, n := ParseCompare();
      }
    }

    method ParseFieldRef() returns (ok: bool, f: FieldRef)
      requires pos <= |tokens|
      modifies this
      ensures pos <= |tokens| && ParseField(old(Left())) == if ok then GotField(f, Left()) else BadField
    {
      f := FieldRef("", "");
      if !Current(Left()).Ident? {
        return false, f;
      }
      f := FieldRef(Current(Left()).val, "");
      Advance();
      if Current(Left()) == Dot {
        Advance();
        if !Current(Left()).Ident? {
          return false, f;
        }
        f := f.(subName := Current(Left()).val);
        Advance();
      }
      return true, f;
    }

    method ParseCompare() returns (ok: bool, n: Node)
      requires pos <= |tokens|
      modifies this
      ensures pos <= |tokens| && ParseComparison(old(Left()), fl) == if ok then Done(n, Left()) else Fail
    {
      var f;
      n := CompNode(FieldRef("", ""), Eq, IntLit(0));
      ok, f := ParseFieldRef();
      if !ok || !Current(Left()).OpTok? {
        return false, n;
      }
      var op := Current(Left()).op;
      Advance();
      var v := ParseValue(Current(Left()), fl);
      if v.None? {
        return false, n;
      }
      Advance();
      return true, CompNode(f, op, v.value);
    }
  }

  /** Lexes and parses the whole input. */
  method ParseInput(input: string, fl: Floats) returns (r: Option<Node>)
    ensures r == Parse(input, fl)
  {
    var l := new Lexer(input);
    var lexed := l.Scan();
    if !lexed {
      return None;
    }
    var p := new Parser(l.tokens, fl);
    var ok, n := p.ParseExpr();
    if !ok || Current(p.Left()) != EOF {
      return None;
    }
    return Some(n);
  }
}
