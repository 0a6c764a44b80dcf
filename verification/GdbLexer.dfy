/** From gdb's text to tokens, and the round trip through both.

The alternatives are tried in the source's order, each taking as much as its
expression allows. Proved: any spelling of the tokens, with any white space,
is read back as long as a word is not followed directly by something it would
swallow; and texts of the value grammar never violate that. */
module GdbLexer {
  import opened Digits
  import opened GdbParser
  import opened Scan

  datatype Lexeme = NoMatch | Skip(len: nat) | Token(len: nat, tok: Tok)

  /** The five expressions for gdb's error messages, which become exceptions. */
  type Messages = string -> Lexeme

  /** Their common beginnings. */
  ghost predicate OnlyMessages(m: Messages) {
    forall t: string :: m(t) != NoMatch ==>
      && (m(t).Token? && 0 < m(t).len <= |t| && m(t).tok.Exc?)
      && ("Could not " <= t || "Cannot access " <= t || "Cannot insert " <= t || "No symbol " <= t)
  }

  predicate IsPunct(c: char) { c == ',' || c == '{' || c == '}' || c == '=' }
  predicate IsLetter(c: char) { 'a' <= c <= 'z' || 'A' <= c <= 'Z' }
  predicate IsWordChar(c: char) { IsLetter(c) || IsDigit(c) }
  predicate NotQuote(c: char) { c != '"' }

  predicate Fits(r: Lexeme, t: string) {
    r != NoMatch ==> 0 < r.len <= |t|
  }

  // ----- one token ---------------------------------------------------------

  function MinusLen(t: string): nat {
    if t != "" && t[0] == '-' then 1 else 0
  }

  /** The digits after an optional minus sign. */
  function SignedDigits(t: string): nat {
    MinusLen(t) + Span(t[MinusLen(t)..], IsDigit)
  }

  function HexLexeme(t: string): (r: Lexeme)
    ensures Fits(r, t)
  {
    if !("0x" <= t) then NoMatch
    else
      var n := Span(t[2..], IsHex);
      if n == 0 then NoMatch else Token(2 + n, Num(ValueIn(t[2..2 + n], 16)))
  }

  /** The exponent of a float, which may be missing. */
  function ExponentLen(x: string): (n: nat)
    ensures n <= |x|
  {
    if |x| > 2 && x[0] == 'e' && (x[1] == '-' || x[1] == '+') && Span(x[2..], IsDigit) > 0 then 2 + Span(x[2..], IsDigit)
    else 0
  }

  /** A float whose `f` digits behind the dot begin at `lo`. */
  function FloatOf(t: string, lo: nat, f: nat): (r: Lexeme)
    requires 0 < lo && lo + f <= |t|
    ensures Fits(r, t)
  {
    if f == 0 then NoMatch
    else
      var len := lo + f + ExponentLen(t[lo + f..]);
      Token(len, Flt(t[..len]))
  }

  /** A float whose dot is at `d`. */
  function FloatAt(t: string, d: nat): (r: Lexeme)
    requires d <= |t|
    ensures Fits(r, t)
  {
    if d == |t| || t[d] != '.' then NoMatch else FloatOf(t, d + 1, Span(t[d + 1..], IsDigit))
  }

  function FloatLexeme(t: string): (r: Lexeme)
    ensures Fits(r, t)
  {
    FloatAt(t, SignedDigits(t))
  }

  function IntLexeme(t: string): (r: Lexeme)
    ensures Fits(r, t)
  {
    var m, d := MinusLen(t), SignedDigits(t);
    if d == m then NoMatch
    else
      var n := ValueIn(t[m..d], 10);
      Token(d, Num(if m == 1 then 0 - n else n))
  }

  const NAN := Str("nan")

  /** The rest of a nan behind its sign. */
  function NanAt(t: string, m: nat): (r: Lexeme)
    requires m <= |t|
    ensures Fits(r, t)
  {
    if !("nan(0x" <= t[m..]) then NoMatch
    else
      var n := Span(t[m + 6..], IsLowHex);
      var e := m + 6 + n;
      if n == 0 || e == |t| || t[e] != ')' then NoMatch else Token(e + 1, NAN)
  }

  function NanLexeme(t: string): (r: Lexeme)
    ensures Fits(r, t)
  {
    NanAt(t, MinusLen(t))
  }

  function RepeatsLexeme(t: string): (r: Lexeme)
    ensures Fits(r, t)
  {
    if !("<repeats " <= t) then NoMatch
    else
      var n := Span(t[9..], IsDigit);
      if n == 0 || !(" times>" <= t[9 + n..]) then NoMatch
      else Token(9 + n + 7, Rep(ValueIn(t[9..9 + n], 10)))
  }

  function QuotedLexeme(t: string): (r: Lexeme)
    ensures Fits(r, t)
  {
    if t == "" || t[0] != '"' then NoMatch
    else
      var n := Span(t[1..], NotQuote);
      if 1 + n == |t| then NoMatch else Token(n + 2, Str(t[1..1 + n]))
  }

  function NameLexeme(t: string): (r: Lexeme)
    ensures Fits(r, t)
  {
    if t == "" || !IsLetter(t[0]) then NoMatch
    else
      var n := 1 + Span(t[1..], IsWordChar);
      Token(n, Str(t[..n]))
  }

  function Or(first: Lexeme, second: Lexeme): Lexeme {
    if first != NoMatch then first else second
  }

  function SpaceOrPunct(t: string): (r: Lexeme)
    ensures Fits(r, t)
  {
    if t == "" then NoMatch
    else if IsSpace(t[0]) then Skip(Span(t, IsSpace))
    else if IsPunct(t[0]) then Token(1, Str(t[..1]))
    else NoMatch
  }

  function NumberLexeme(t: string): (r: Lexeme)
    ensures Fits(r, t)
  {
    Or(HexLexeme(t), Or(FloatLexeme(t), IntLexeme(t)))
  }

  function PhraseLexeme(t: string, m: Messages): (r: Lexeme)
    ensures OnlyMessages(m) ==> Fits(r, t)
  {
    Or(NanLexeme(t), Or(RepeatsLexeme(t), m(t)))
  }

  /** The alternatives in order. */
  function NextLexeme(t: string, m: Messages): (r: Lexeme)
    ensures OnlyMessages(m) ==> Fits(r, t)
  {
    Or(SpaceOrPunct(t), Or(NumberLexeme(t), Or(PhraseLexeme(t, m), Or(QuotedLexeme(t), NameLexeme(t)))))
  }

  // ----- all tokens --------------------------------------------------------

  /** A choice of one lexeme at the beginning of a text. */
  type Chooser = string -> Lexeme

  ghost predicate Advances(next: Chooser) {
    forall t: string :: Fits(next(t), t)
  }

  function Lex(t: string, next: Chooser): Result<seq<Tok>>
    requires Advances(next)
    decreases |t|
  {
    if t == "" then Ok([])
    else
      var r := next(t);
      assert Fits(r, t);
      if r == NoMatch then Err(NoToken)
      else if r.Skip? then Lex(t[r.len..], next)
      else Prepend([r.tok], Lex(t[r.len..], next))
  }

  function Prepend(tokens: seq<Tok>, r: Result<seq<Tok>>): Result<seq<Tok>> {
    if r.Err? then r else Ok(tokens + r.value)
  }

  lemma PrependNothing(a: seq<Tok>, r: Result<seq<Tok>>)
    ensures Prepend([], r) == r && Prepend(a, Ok([])) == Ok(a)
  {
    if r.Ok? {
      assert [] + r.value == r.value;
    }
    assert a + [] == a;
  }

  lemma PrependTwice(a: seq<Tok>, b: seq<Tok>, r: Result<seq<Tok>>)
    ensures Prepend(a, Prepend(b, r)) == Prepend(a + b, r)
  {
    if r.Ok? {
      assert a + (b + r.value) == a + b + r.value;
    }
  }

  method Tokenize(text: string, next: Chooser) returns (r: Result<seq<Tok>>)
    requires Advances(next)
    ensures r == Lex(text, next)
  {
    var index, tokens: seq<Tok> := 0, [];
    ghost var rest := text;
    PrependNothing([], Lex(text, next));
    while index < |text|
      invariant 0 <= index <= |text| && rest == text[index..]
      invariant Lex(text, next) == Prepend(tokens, Lex(rest, next))
      decreases |text| - index
    {
      var lexeme := next(text[index..]);
      assert Fits(lexeme, rest);
      if lexeme == NoMatch {
        return Err(NoToken);
      }
      rest := rest[lexeme.len..];
      index := index + lexeme.len;
      if lexeme.Token? {
        PrependTwice(tokens, [lexeme.tok], Lex(rest, next));
        tokens := tokens + [lexeme.tok];
      }
    }
    PrependNothing(tokens, Ok([]));
    return Ok(tokens);
  }

  /** The chooser of `tokenize`. */
  function Gdb(m: Messages): (next: Chooser)
    requires OnlyMessages(m)
    ensures Advances(next) && forall t :: next(t) == NextLexeme(t, m)
  {
    (t: string) => NextLexeme(t, m)
  }

  function ReadText(text: string, next: Chooser): Result<Value>
    requires Advances(next)
  {
    var tokens := Lex(text, next);
    if tokens.Err? then Err(tokens.error) else ParseAll(tokens.value)
  }

  method ParseRhs(text: string, next: Chooser) returns (r: Result<Value>)
    requires Advances(next)
    ensures r == ReadText(text, next)
  {
    var tokens := Tokenize(text, next);
    if tokens.Err? {
      return Err(tokens.error);
    }
    var parser := new Parser(tokens.value);
    r := parser.ParseTokens();
    if r.Ok? && |parser.tokens| > 0 {
      return Err(UnexpectedInput);
    }
  }

  // ----- spellings ---------------------------------------------------------

  /** The ways to write a token. `digits` are the significant characters. */
  datatype Spelling =
    | AsPunct(c: char)
    | AsHex(digits: string)
    | AsInt(negative: bool, digits: string)
    | AsFloat(negative: bool, whole: string, frac: string, exponent: string)
    | AsNan(negative: bool, digits: string)
    | AsRepeats(digits: string)
    | AsQuoted(text: string)
    | AsName(name: string)

  predicate Legal(s: Spelling) {
    match s
    case AsPunct(c) => IsPunct(c)
    case AsHex(d) => d != "" && All(d, IsHex)
    case AsInt(_, d) => d != "" && All(d, IsDigit)
    case AsFloat(_, whole, frac, exponent) => All(whole, IsDigit) && frac != "" && All(frac, IsDigit) && LegalExponent(exponent)
    case AsNan(_, d) => d != "" && All(d, IsLowHex)
    case AsRepeats(d) => d != "" && All(d, IsDigit)
    case AsQuoted(t) => All(t, NotQuote)
    case AsName(n) => n != "" && IsLetter(n[0]) && All(n, IsWordChar)
  }

  predicate LegalExponent(x: string) {
    x == "" || (|x| > 2 && x[0] == 'e' && (x[1] == '-' || x[1] == '+') && All(x[2..], IsDigit))
  }

  function Sign(negative: bool): string {
    if negative then "-" else ""
  }

  function Text(s: Spelling): string {
    match s
    case AsPunct(c) => [c]
    case AsHex(d) => "0x" + d
    case AsInt(negative, d) => Sign(negative) + d
    case AsFloat(negative, whole, frac, exponent) => Sign(negative) + whole + "." + frac + exponent
    case AsNan(negative, d) => Sign(negative) + "nan(0x" + d + ")"
    case AsRepeats(d) => "<repeats " + d + " times>"
    case AsQuoted(t) => "\"" + t + "\""
    case AsName(n) => n
  }

  function TokenOf(s: Spelling): Tok
    requires Legal(s)
  {
    match s
    case AsPunct(c) => Str([c])
    case AsHex(d) => Num(ValueIn(d, 16))
    case AsInt(negative, d) => Num(if negative then 0 - ValueIn(d, 10) else ValueIn(d, 10))
    case AsFloat(_, _, _, _) => Flt(Text(s))
    case AsNan(_, _) => NAN
    case AsRepeats(d) => Rep(ValueIn(d, 10))
    case AsQuoted(t) => Str(t)
    case AsName(n) => Str(n)
  }

  /** Numbers and names take what they can from what follows, or from a word before. */
  predicate Word(s: Spelling) {
    s.AsHex? || s.AsInt? || s.AsFloat? || s.AsNan? || s.AsName?
  }

  /** What may follow a word: white space, a delimiter, or the end. */
  predicate Boundary(rest: string) {
    rest == "" || IsSpace(rest[0]) || IsPunct(rest[0]) || rest[0] == '<' || rest[0] == '"'
  }

  /** After the white space that follows a word there is no letter, so no message
      of gdb can begin here. */
  predicate NoMessage(rest: string) {
    var gap := Span(rest, IsSpace);
    gap == |rest| || !IsLetter(rest[gap])
  }

  // ----- each spelling is read back ----------------------------------------

  predicate ReadBack(s: Spelling, rest: string, m: Messages)
    requires Legal(s)
  {
    NextLexeme(Text(s) + rest, m) == Token(|Text(s)|, TokenOf(s))
  }

  lemma PunctIsRead(c: char, rest: string, m: Messages)
    requires IsPunct(c)
    ensures ReadBack(AsPunct(c), rest, m)
  {
    var t := [c] + rest;
    assert t[..1] == [c];
  }

  /** The choice between the groups, by the first character. */
  lemma Groups(t: string, m: Messages)
    requires t != "" && !IsSpace(t[0]) && !IsPunct(t[0])
    ensures NumberLexeme(t) != NoMatch ==> NextLexeme(t, m) == NumberLexeme(t)
    ensures NumberLexeme(t) == NoMatch && PhraseLexeme(t, m) != NoMatch ==> NextLexeme(t, m) == PhraseLexeme(t, m)
    ensures NumberLexeme(t) == NoMatch && PhraseLexeme(t, m) == NoMatch ==>
              NextLexeme(t, m) == Or(QuotedLexeme(t), NameLexeme(t))
  {
  }

  /** A text that begins with neither a digit, a sign nor a dot is no number. */
  lemma NotNumeric(t: string)
    requires t != "" && !IsDigit(t[0]) && t[0] != '-' && t[0] != '.'
    ensures NumberLexeme(t) == NoMatch
  {
  }

  lemma NumbersComeFirst(t: string, m: Messages)
    requires t != "" && NumberLexeme(t) != NoMatch
    ensures NextLexeme(t, m) == NumberLexeme(t)
  {
    if IsSpace(t[0]) || IsPunct(t[0]) {
      NotNumeric(t);
    } else {
      Groups(t, m);
    }
  }

  lemma NotAPhrase(t: string, m: Messages)
    requires OnlyMessages(m) && t != "" && t[0] == '"'
    ensures PhraseLexeme(t, m) == NoMatch
  {
    assert !("nan(0x" <= t[MinusLen(t)..]);
  }

  lemma BoundaryEnds(rest: string)
    requires Boundary(rest) && rest != ""
    ensures !IsHex(rest[0]) && !IsWordChar(rest[0]) && rest[0] != '.'
  {
  }

  lemma Behind(a: string, b: string)
    ensures a <= a + b && (a + b)[|a|..] == b && (a + b)[..|a|] == a
  {
  }

  lemma Slices(t: string, k: nat, a: string, b: string)
    requires k <= |t| && t[k..] == a + b
    ensures k + |a| <= |t| && t[k..k + |a|] == a && t[k + |a|..] == b
  {
    assert t[k..k + |a|] == t[k..][..|a|];
    assert t[k + |a|..] == t[k..][|a|..];
  }

  /** Moving parentheses to the right. */
  lemma ToTheRight(a: string, b: string, c: string, d: string)
    ensures a + b + c == a + (b + c)
    ensures a + b + c + d == a + (b + (c + d))
  {
    assert a + b + c == a + (b + c);
    assert a + (b + c) + d == a + (b + c + d);
    assert b + c + d == b + (c + d);
  }

  lemma HexTail(t: string, d: string, rest: string)
    requires "0x" <= t && t[2..] == d + rest
    requires d != "" && All(d, IsHex) && Span(d + rest, IsHex) == |d|
    ensures HexLexeme(t) == Token(2 + |d|, Num(ValueIn(d, 16)))
  {
    Slices(t, 2, d, rest);
  }

  lemma HexLexemeIs(d: string, rest: string)
    requires d != "" && All(d, IsHex) && Boundary(rest)
    ensures HexLexeme("0x" + d + rest) == Token(2 + |d|, Num(ValueIn(d, 16)))
  {
    ToTheRight("0x", d, rest, "");
    Behind("0x", d + rest);
    if rest != "" {
      BoundaryEnds(rest);
    }
    SpanOf(d, rest, IsHex);
    HexTail("0x" + (d + rest), d, rest);
  }

  lemma HexIsRead(d: string, rest: string, m: Messages)
    requires d != "" && All(d, IsHex) && Boundary(rest)
    ensures ReadBack(AsHex(d), rest, m)
  {
    var t := "0x" + d + rest;
    HexLexemeIs(d, rest);
    assert t[0] == '0';
    assert NumberLexeme(t) == HexLexeme(t);
    Groups(t, m);
  }

  lemma SignIs(t: string, negative: bool, tail: string)
    requires tail != "" && tail[0] != '-' && t == Sign(negative) + tail
    ensures MinusLen(t) == |Sign(negative)| <= |t| && t[|Sign(negative)|..] == tail
    ensures t[0] == if negative then '-' else tail[0]
  {
  }

  lemma DigitsAre(negative: bool, d: string, rest: string)
    requires d != "" && All(d, IsDigit) && Boundary(rest)
    ensures var sign := Sign(negative);
            var t := sign + d + rest;
            && MinusLen(t) == |sign| && SignedDigits(t) == |sign| + |d|
            && t[|sign|..|sign| + |d|] == d
            && (|sign| + |d| == |t| || t[|sign| + |d|] == rest[0])
  {
    var t, k := Sign(negative) + d + rest, |Sign(negative)|;
    ToTheRight(Sign(negative), d, rest, "");
    SignIs(t, negative, d + rest);
    SpanOf(d, rest, IsDigit);
    Slices(t, k, d, rest);
    assert k + |d| < |t| ==> t[k + |d|] == t[k + |d|..][0];
  }

  lemma IntLexemeIs(negative: bool, d: string, rest: string)
    requires d != "" && All(d, IsDigit) && Boundary(rest)
    ensures var s := AsInt(negative, d);
            IntLexeme(Text(s) + rest) == Token(|Text(s)|, TokenOf(s))
  {
    DigitsAre(negative, d, rest);
  }

  lemma IntIsNoFloat(negative: bool, d: string, rest: string)
    requires d != "" && All(d, IsDigit) && Boundary(rest)
    ensures FloatLexeme(Text(AsInt(negative, d)) + rest) == NoMatch
  {
    var t := Sign(negative) + d + rest;
    DigitsAre(negative, d, rest);
    if rest != "" {
      BoundaryEnds(rest);
    }
    NoDotNoFloat(t);
  }

  lemma NoDotNoFloat(t: string)
    requires SignedDigits(t) < |t| ==> t[SignedDigits(t)] != '.'
    ensures FloatLexeme(t) == NoMatch
  {
  }

  lemma HexStart(t: string)
    ensures HexLexeme(t) != NoMatch ==> |t| > 1 && t[0] == '0' && t[1] == 'x'
  {
  }

  lemma IntIsNotHex(negative: bool, d: string, rest: string)
    requires d != "" && All(d, IsDigit) && Boundary(rest)
    ensures HexLexeme(Text(AsInt(negative, d)) + rest) == NoMatch
  {
    var text := Text(AsInt(negative, d));
    var t := text + rest;
    HexStart(t);
    assert t[0] == text[0];
    if |text| > 1 {
      assert t[1] == text[1];
    } else {
      assert |t| > 1 ==> t[1] == rest[0];
    }
  }

  lemma IntIsNumber(negative: bool, d: string, rest: string)
    requires d != "" && All(d, IsDigit) && Boundary(rest)
    ensures var s := AsInt(negative, d);
            NumberLexeme(Text(s) + rest) == Token(|Text(s)|, TokenOf(s))
  {
    IntIsNotHex(negative, d, rest);
    IntIsNoFloat(negative, d, rest);
    IntLexemeIs(negative, d, rest);
  }

  lemma IntIsRead(negative: bool, d: string, rest: string, m: Messages)
    requires d != "" && All(d, IsDigit) && Boundary(rest)
    ensures ReadBack(AsInt(negative, d), rest, m)
  {
    IntIsNumber(negative, d, rest);
    NumbersComeFirst(Text(AsInt(negative, d)) + rest, m);
  }

  // ----- floats ------------------------------------------------------------

  lemma DotTail(t: string, d: nat, frac: string, exponent: string, rest: string)
    requires frac != "" && All(frac, IsDigit) && LegalExponent(exponent) && Boundary(rest)
    requires d < |t| && t[d + 1..] == frac + (exponent + rest)
    ensures Span(t[d + 1..], IsDigit) == |frac|
    ensures d + 1 + |frac| + |exponent| <= |t| && t[d + 1 + |frac|..] == exponent + rest
  {
    if exponent + rest != "" {
      assert (exponent + rest)[0] == if exponent != "" then 'e' else rest[0];
    }
    SpanOf(frac, exponent + rest, IsDigit);
    Slices(t, d + 1, frac, exponent + rest);
  }

  lemma ExponentIs(exponent: string, rest: string)
    requires LegalExponent(exponent) && Boundary(rest)
    ensures ExponentLen(exponent + rest) == |exponent|
  {
    var x := exponent + rest;
    if exponent == "" {
      assert x == rest;
    } else {
      assert x[0] == exponent[0] && x[1] == exponent[1] && x[2..] == exponent[2..] + rest;
      SpanOf(exponent[2..], rest, IsDigit);
    }
  }

  lemma FloatTail(t: string, d: nat, frac: string, exponent: string, rest: string)
    requires frac != "" && All(frac, IsDigit) && LegalExponent(exponent) && Boundary(rest)
    requires d < |t| && t[d] == '.' && t[d + 1..] == frac + (exponent + rest)
    ensures var len := d + 1 + |frac| + |exponent|;
            len <= |t| && FloatAt(t, d) == Token(len, Flt(t[..len]))
  {
    DotTail(t, d, frac, exponent, rest);
    ExponentIs(exponent, rest);
    FloatOfIs(t, d + 1, |frac|, |exponent|);
  }

  lemma FloatOfIs(t: string, lo: nat, f: nat, x: nat)
    requires 0 < lo && 0 < f && lo + f <= |t| && ExponentLen(t[lo + f..]) == x
    ensures lo + f + x <= |t| && FloatOf(t, lo, f) == Token(lo + f + x, Flt(t[..lo + f + x]))
  {
  }

  lemma FloatHead(t: string, negative: bool, whole: string, after: string)
    requires All(whole, IsDigit) && t == Sign(negative) + (whole + ("." + after))
    ensures var d := |Sign(negative)| + |whole|;
            SignedDigits(t) == d < |t| && t[d] == '.' && t[d + 1..] == after
  {
    var tail := whole + ("." + after);
    assert tail[0] == if whole == "" then '.' else whole[0];
    SignIs(t, negative, tail);
    SpanOf(whole, "." + after, IsDigit);
    AfterDot(t, |Sign(negative)|, whole, after);
  }

  lemma AfterDot(t: string, m: nat, whole: string, after: string)
    requires m <= |t| && t[m..] == whole + ("." + after)
    ensures m + |whole| < |t| && t[m + |whole|] == '.' && t[m + |whole| + 1..] == after
  {
    Slices(t, m, whole, "." + after);
    Slices(t, m + |whole|, ".", after);
  }

  lemma FloatText(s: Spelling, after: string, rest: string)
    requires s.AsFloat? && after == s.frac + (s.exponent + rest)
    ensures Text(s) + rest == Sign(s.negative) + (s.whole + ("." + after))
    ensures |Text(s)| == |Sign(s.negative)| + |s.whole| + 1 + |s.frac| + |s.exponent|
  {
  }

  lemma ComposedIsFloat(t: string, negative: bool, whole: string, after: string, frac: string, exponent: string,
                        rest: string, d: nat, len: nat)
    requires All(whole, IsDigit) && frac != "" && All(frac, IsDigit) && LegalExponent(exponent) && Boundary(rest)
    requires t == Sign(negative) + (whole + ("." + after)) && after == frac + (exponent + rest)
    requires d == |Sign(negative)| + |whole| && len == d + 1 + |frac| + |exponent|
    ensures len <= |t| && d == SignedDigits(t) && d <= |t| && FloatAt(t, d) == Token(len, Flt(t[..len]))
  {
    FloatHead(t, negative, whole, after);
    FloatTail(t, d, frac, exponent, rest);
  }

  lemma SecondIsNoX(s: Spelling)
    requires s.AsFloat? && Legal(s)
    ensures |Text(s)| > 1 && Text(s)[1] != 'x'
  {
    var tail := s.whole + ("." + (s.frac + s.exponent));
    assert Text(s) == Sign(s.negative) + tail;
    assert tail[0] == if s.whole == "" then '.' else s.whole[0];
    assert tail[1] == if s.whole == "" then s.frac[0] else if |s.whole| == 1 then '.' else s.whole[1];
  }

  lemma FloatIsNotHex(s: Spelling, rest: string)
    requires s.AsFloat? && Legal(s)
    ensures HexLexeme(Text(s) + rest) == NoMatch
  {
    HexStart(Text(s) + rest);
    SecondIsNoX(s);
    assert (Text(s) + rest)[1] == Text(s)[1];
  }

  lemma FloatLexemeIs(t: string, text: string, d: nat)
    requires text <= t && d == SignedDigits(t) && d <= |t| && FloatAt(t, d) == Token(|text|, Flt(t[..|text|]))
    ensures FloatLexeme(t) == Token(|text|, Flt(text))
  {
    assert t[..|text|] == text;
  }

  lemma FloatIsLexeme(t: string, text: string, negative: bool, whole: string, after: string, frac: string,
                      exponent: string, rest: string)
    requires All(whole, IsDigit) && frac != "" && All(frac, IsDigit) && LegalExponent(exponent) && Boundary(rest)
    requires t == Sign(negative) + (whole + ("." + after)) && after == frac + (exponent + rest)
    requires text <= t && |text| == |Sign(negative)| + |whole| + 1 + |frac| + |exponent|
    ensures FloatLexeme(t) == Token(|text|, Flt(text))
  {
    var d := |Sign(negative)| + |whole|;
    ComposedIsFloat(t, negative, whole, after, frac, exponent, rest, d, |text|);
    FloatLexemeIs(t, text, d);
  }

  lemma FloatIsRead(s: Spelling, rest: string, m: Messages)
    requires s.AsFloat? && Legal(s) && Boundary(rest)
    ensures ReadBack(s, rest, m)
  {
    var t := Text(s) + rest;
    var after := s.frac + (s.exponent + rest);
    FloatText(s, after, rest);
    Behind(Text(s), rest);
    FloatIsLexeme(t, Text(s), s.negative, s.whole, after, s.frac, s.exponent, rest);
    FloatIsNotHex(s, rest);
    assert NumberLexeme(t) == FloatLexeme(t);
    NumbersComeFirst(t, m);
    IsReadBack(s, rest, m, t);
  }

  lemma IsReadBack(s: Spelling, rest: string, m: Messages, t: string)
    requires Legal(s) && t == Text(s) + rest && NextLexeme(t, m) == Token(|Text(s)|, TokenOf(s))
    ensures ReadBack(s, rest, m)
  {
  }

  lemma NanTail(t: string, k: nat, d: string, rest: string)
    requires d != "" && All(d, IsLowHex) && k <= |t| && t[k..] == "nan(0x" + (d + (")" + rest))
    ensures NanAt(t, k) == Token(k + 7 + |d|, NAN)
  {
    Behind("nan(0x", d + (")" + rest));
    Slices(t, k, "nan(0x", d + (")" + rest));
    SpanOf(d, ")" + rest, IsLowHex);
    Slices(t, k + 6, d, ")" + rest);
    Slices(t, k + 6 + |d|, ")", rest);
  }

  lemma NanIsNoNumber(t: string, k: nat)
    requires MinusLen(t) == k < |t| && t[k] == 'n' && (k == 0 || t[0] == '-')
    ensures NumberLexeme(t) == NoMatch
  {
    assert t[k..][0] == 'n';
    HexStart(t);
    NoDotNoFloat(t);
  }

  lemma NanText(negative: bool, d: string, rest: string)
    ensures Text(AsNan(negative, d)) + rest == Sign(negative) + ("nan(0x" + (d + (")" + rest)))
    ensures |Text(AsNan(negative, d))| == |Sign(negative)| + 7 + |d|
  {
  }

  /** Every NaN is the same word, so that it equals itself. */
  lemma NanIsRead(negative: bool, d: string, rest: string, m: Messages)
    requires d != "" && All(d, IsLowHex)
    ensures ReadBack(AsNan(negative, d), rest, m) && TokenOf(AsNan(negative, d)) == Str("nan")
  {
    var tail := "nan(0x" + (d + (")" + rest));
    NanText(negative, d, rest);
    NanIsPhrase(Text(AsNan(negative, d)) + rest, negative, tail, d, rest, m);
    IsReadAs(AsNan(negative, d), Text(AsNan(negative, d)), NAN, rest, m);
  }

  lemma IsReadAs(s: Spelling, text: string, tok: Tok, rest: string, m: Messages)
    requires Legal(s) && text == Text(s) && tok == TokenOf(s) && NextLexeme(text + rest, m) == Token(|text|, tok)
    ensures ReadBack(s, rest, m)
  {
  }

  lemma NanIsPhrase(t: string, negative: bool, tail: string, d: string, rest: string, m: Messages)
    requires d != "" && All(d, IsLowHex) && t == Sign(negative) + tail && tail == "nan(0x" + (d + (")" + rest))
    ensures NextLexeme(t, m) == Token(|Sign(negative)| + 7 + |d|, NAN)
  {
    var k := |Sign(negative)|;
    SignIs(t, negative, tail);
    NanTail(t, k, d, rest);
    assert t[k] == tail[0];
    NanIsNoNumber(t, k);
    NanComesFirst(t, m, k, Token(|Sign(negative)| + 7 + |d|, NAN));
  }

  lemma NanComesFirst(t: string, m: Messages, k: nat, r: Lexeme)
    requires NumberLexeme(t) == NoMatch && t != "" && (t[0] == '-' || t[0] == 'n')
    requires MinusLen(t) == k <= |t| && NanAt(t, k) == r != NoMatch
    ensures NextLexeme(t, m) == r
  {
    Groups(t, m);
  }

  lemma RepeatsTail(t: string, d: string, tail: string)
    requires "<repeats " <= t && t[9..] == d + tail && " times>" <= tail
    requires d != "" && All(d, IsDigit) && Span(t[9..], IsDigit) == |d|
    ensures RepeatsLexeme(t) == Token(16 + |d|, Rep(ValueIn(d, 10)))
  {
    Slices(t, 9, d, tail);
  }

  lemma RepeatsLexemeIs(d: string, rest: string)
    requires d != "" && All(d, IsDigit)
    ensures RepeatsLexeme("<repeats " + d + " times>" + rest) == Token(16 + |d|, Rep(ValueIn(d, 10)))
  {
    var tail := " times>" + rest;
    ToTheRight("<repeats ", d, " times>", rest);
    Behind("<repeats ", d + tail);
    Behind(" times>", rest);
    SpanOf(d, tail, IsDigit);
    RepeatsTail("<repeats " + (d + tail), d, tail);
  }

  lemma RepeatsIsRead(d: string, rest: string, m: Messages)
    requires d != "" && All(d, IsDigit)
    ensures NextLexeme("<repeats " + d + " times>" + rest, m) == Token(16 + |d|, Rep(ValueIn(d, 10)))
  {
    var t := "<repeats " + d + " times>" + rest;
    RepeatsLexemeIs(d, rest);
    assert t[0] == '<';
    NotNumeric(t);
    assert !("nan(0x" <= t[MinusLen(t)..]);
    assert PhraseLexeme(t, m) == RepeatsLexeme(t);
    Groups(t, m);
  }

  lemma QuotedLexemeIs(q: string, rest: string)
    requires All(q, NotQuote)
    ensures QuotedLexeme("\"" + q + "\"" + rest) == Token(2 + |q|, Str(q))
  {
    var tail := "\"" + rest;
    var t := "\"" + q + "\"" + rest;
    assert t == "\"" + (q + tail);
    assert t[0] == '"' && t[1..] == q + tail;
    SpanOf(q, tail, NotQuote);
    assert t[1..1 + |q|] == q;
  }

  lemma QuotedIsRead(q: string, rest: string, m: Messages)
    requires All(q, NotQuote) && OnlyMessages(m)
    ensures NextLexeme("\"" + q + "\"" + rest, m) == Token(2 + |q|, Str(q))
  {
    var t := "\"" + q + "\"" + rest;
    QuotedLexemeIs(q, rest);
    assert t[0] == '"';
    NotNumeric(t);
    NotAPhrase(t, m);
    Groups(t, m);
  }

  lemma NameLexemeIs(n: string, rest: string)
    requires n != "" && IsLetter(n[0]) && All(n, IsWordChar) && Boundary(rest)
    ensures NameLexeme(n + rest) == Token(|n|, Str(n)) && QuotedLexeme(n + rest) == NoMatch
  {
    var t := n + rest;
    assert t[0] == n[0] && t[1..] == n[1..] + rest && t[..|n|] == n;
    SpanOf(n[1..], rest, IsWordChar);
  }

  lemma NameIsRead(n: string, rest: string, m: Messages)
    requires n != "" && IsLetter(n[0]) && All(n, IsWordChar) && Boundary(rest) && NoMessage(rest) && OnlyMessages(m)
    ensures NextLexeme(n + rest, m) == Token(|n|, Str(n))
  {
    var t := n + rest;
    assert t[0] == n[0];
    NameIsNoPhrase(n, rest, m);
    NameLexemeIs(n, rest);
    NamesComeLast(t, m);
  }

  lemma NamesComeLast(t: string, m: Messages)
    requires t != "" && IsLetter(t[0]) && PhraseLexeme(t, m) == NoMatch && QuotedLexeme(t) == NoMatch
    ensures NextLexeme(t, m) == NameLexeme(t)
  {
    NotNumeric(t);
    Groups(t, m);
  }

  lemma NameIsNoPhrase(n: string, rest: string, m: Messages)
    requires n != "" && IsLetter(n[0]) && All(n, IsWordChar) && Boundary(rest) && NoMessage(rest) && OnlyMessages(m)
    ensures PhraseLexeme(n + rest, m) == NoMatch
  {
    var t := n + rest;
    assert t[0] == n[0];
    NotNan(n, rest);
    NotAMessage(n, rest, m);
    assert !("<repeats " <= t);
  }

  lemma NotNan(n: string, rest: string)
    requires n != "" && IsLetter(n[0]) && All(n, IsWordChar) && Boundary(rest)
    ensures NanLexeme(n + rest) == NoMatch
  {
    var t := n + rest;
    assert t[0] == n[0] && t[0..] == t && MinusLen(t) == 0;
    WordEnds(n, rest, "nan(0x", 3);
  }

  /** A phrase whose first k characters are letters, followed by something that
      neither continues a word nor ends one, cannot be a beginning. */
  lemma WordEnds(n: string, rest: string, phrase: string, k: nat)
    requires All(n, IsWordChar) && Boundary(rest)
    requires k < |phrase| && !IsWordChar(phrase[k]) && !Boundary([phrase[k]]) && All(phrase[..k], IsLetter)
    ensures !(phrase <= n + rest)
  {
    var t := n + rest;
    if k < |n| {
      assert t[k] == n[k];
    } else if |t| > |n| {
      assert t[|n|] == rest[0];
      assert |n| < k ==> phrase[|n|] == phrase[..k][|n|];
    }
  }

  predicate TwoWords(phrase: string, k: nat) {
    k + 1 < |phrase| && phrase[k] == ' ' && IsLetter(phrase[k + 1]) && All(phrase[..k], IsLetter)
  }

  lemma MessagesAreTwoWords()
    ensures TwoWords("Could not ", 5) && TwoWords("Cannot access ", 6)
    ensures TwoWords("Cannot insert ", 6) && TwoWords("No symbol ", 2)
  {
  }

  /** A phrase that is a word of k letters, a blank and a letter cannot be a
      beginning if no letter follows the blanks. */
  lemma NotThisMessage(n: string, rest: string, phrase: string, k: nat)
    requires All(n, IsWordChar) && Boundary(rest) && NoMessage(rest)
    requires TwoWords(phrase, k)
    ensures !(phrase <= n + rest)
  {
    var t := n + rest;
    if k < |n| {
      assert t[k] == n[k];
    } else if |n| < k {
      if |t| > |n| {
        assert t[|n|] == rest[0] && phrase[|n|] == phrase[..k][|n|];
      }
    } else if |rest| > 1 {
      assert t[k] == rest[0] && t[k + 1] == rest[1];
      if rest[0] == ' ' && !IsSpace(rest[1]) {
        SpanOf([' '], rest[1..], IsSpace);
        assert [' '] + rest[1..] == rest;
      }
    }
  }

  lemma NotAMessage(n: string, rest: string, m: Messages)
    requires All(n, IsWordChar) && Boundary(rest) && NoMessage(rest) && OnlyMessages(m)
    ensures m(n + rest) == NoMatch
  {
    MessagesAreTwoWords();
    NotThisMessage(n, rest, "Could not ", 5);
    NotThisMessage(n, rest, "Cannot access ", 6);
    NotThisMessage(n, rest, "Cannot insert ", 6);
    NotThisMessage(n, rest, "No symbol ", 2);
  }

  // ----- whole texts -------------------------------------------------------

  /** A spelled token and the white space behind it. */
  datatype Piece = Piece(s: Spelling, gap: string)

  predicate LegalPieces(ps: seq<Piece>) {
    forall i :: 0 <= i < |ps| ==> Legal(ps[i].s) && All(ps[i].gap, IsSpace)
  }

  /** No word directly before another. */
  predicate WordsApart(ps: seq<Piece>) {
    forall i :: 0 < i < |ps| ==> !(Word(ps[i - 1].s) && Word(ps[i].s))
  }

  function TextOf(ps: seq<Piece>): string {
    if ps == [] then "" else Text(ps[0].s) + (ps[0].gap + TextOf(ps[1..]))
  }

  function TokensOf(ps: seq<Piece>): (ts: seq<Tok>)
    requires LegalPieces(ps)
    ensures |ts| == |ps| && forall i :: 0 <= i < |ps| ==> ts[i] == TokenOf(ps[i].s)
  {
    if ps == [] then [] else [TokenOf(ps[0].s)] + TokensOf(ps[1..])
  }

  lemma SpellingIsRead(s: Spelling, rest: string, m: Messages)
    requires Legal(s) && OnlyMessages(m) && (Word(s) ==> Boundary(rest) && NoMessage(rest))
    ensures ReadBack(s, rest, m)
  {
    match s {
      case AsPunct(c) => PunctIsRead(c, rest, m);
      case AsHex(d) => HexIsRead(d, rest, m);
      case AsInt(negative, d) => IntIsRead(negative, d, rest, m);
      case AsFloat(_, _, _, _) => FloatIsRead(s, rest, m);
      case AsNan(negative, d) => NanIsRead(negative, d, rest, m);
      case AsRepeats(d) => RepeatsReadBack(d, rest, m);
      case AsQuoted(t) => QuotedReadBack(t, rest, m);
      case AsName(n) => NameIsRead(n, rest, m);
    }
  }

  lemma RepeatsReadBack(d: string, rest: string, m: Messages)
    requires Legal(AsRepeats(d))
    ensures ReadBack(AsRepeats(d), rest, m)
  {
    RepeatsIsRead(d, rest, m);
    assert |Text(AsRepeats(d))| == 16 + |d|;
  }

  lemma QuotedReadBack(q: string, rest: string, m: Messages)
    requires Legal(AsQuoted(q)) && OnlyMessages(m)
    ensures ReadBack(AsQuoted(q), rest, m)
  {
    QuotedIsRead(q, rest, m);
    assert |Text(AsQuoted(q))| == 2 + |q|;
  }

  /** How a text of legal pieces begins. */
  lemma FirstChar(ps: seq<Piece>)
    requires LegalPieces(ps) && ps != []
    ensures TextOf(ps) != "" && !IsSpace(TextOf(ps)[0])
    ensures !Word(ps[0].s) ==> !IsLetter(TextOf(ps)[0]) && Boundary(TextOf(ps))
  {
    var text := Text(ps[0].s);
    assert Legal(ps[0].s);
    TextStarts(ps[0].s);
    assert TextOf(ps)[0] == text[0];
  }

  lemma TextStarts(s: Spelling)
    requires Legal(s)
    ensures Text(s) != "" && !IsSpace(Text(s)[0])
    ensures !Word(s) ==> !IsLetter(Text(s)[0]) && Boundary(Text(s))
  {
    if s.AsFloat? && !s.negative {
      assert Text(s)[0] == if s.whole == "" then '.' else s.whole[0];
    }
  }

  lemma AfterGap(gap: string, ps: seq<Piece>)
    requires All(gap, IsSpace) && LegalPieces(ps)
    ensures Span(gap + TextOf(ps), IsSpace) == |gap|
    ensures (ps == [] || !Word(ps[0].s)) ==> Boundary(gap + TextOf(ps)) && NoMessage(gap + TextOf(ps))
  {
    if ps != [] {
      FirstChar(ps);
    }
    SpanOf(gap, TextOf(ps), IsSpace);
    var t := gap + TextOf(ps);
    if gap != "" {
      assert t[0] == gap[0];
    } else {
      assert t == TextOf(ps);
    }
    if |gap| < |t| {
      assert t[|gap|] == TextOf(ps)[0];
    }
  }

  lemma GapIsSkipped(gap: string, ps: seq<Piece>, m: Messages)
    requires All(gap, IsSpace) && LegalPieces(ps) && OnlyMessages(m)
    ensures Lex(gap + TextOf(ps), Gdb(m)) == Lex(TextOf(ps), Gdb(m))
  {
    var t := gap + TextOf(ps);
    if gap == "" {
      assert t == TextOf(ps);
    } else {
      AfterGap(gap, ps);
      assert t[0] == gap[0];
      assert SpaceOrPunct(t) == Skip(|gap|);
      assert Gdb(m)(t) == NextLexeme(t, m) == Skip(|gap|);
      assert t[|gap|..] == TextOf(ps);
    }
  }

  lemma {:induction false} PiecesAreRead(ps: seq<Piece>, m: Messages)
    requires LegalPieces(ps) && WordsApart(ps) && OnlyMessages(m)
    ensures Lex(TextOf(ps), Gdb(m)) == Ok(TokensOf(ps))
  {
    if ps != [] {
      FirstPieceIsRead(ps, m);
      GapIsSkipped(ps[0].gap, ps[1..], m);
      WordsApartTail(ps);
      PiecesAreRead(ps[1..], m);
    }
  }

  lemma WordsApartTail(ps: seq<Piece>)
    requires WordsApart(ps) && ps != []
    ensures WordsApart(ps[1..])
  {
    forall i | 0 < i < |ps[1..]|
      ensures !(Word(ps[1..][i - 1].s) && Word(ps[1..][i].s))
    {
      assert ps[1..][i - 1] == ps[i] && ps[1..][i] == ps[i + 1];
    }
  }

  lemma LexOne(text: string, rest: string, tok: Tok, next: Chooser)
    requires Advances(next) && text != "" && next(text + rest) == Token(|text|, tok)
    ensures Lex(text + rest, next) == Prepend([tok], Lex(rest, next))
  {
    assert (text + rest)[|text|..] == rest;
  }

  lemma FirstPieceIsRead(ps: seq<Piece>, m: Messages)
    requires LegalPieces(ps) && WordsApart(ps) && OnlyMessages(m) && ps != []
    ensures Lex(TextOf(ps), Gdb(m)) == Prepend([TokenOf(ps[0].s)], Lex(ps[0].gap + TextOf(ps[1..]), Gdb(m)))
  {
    var s, more := ps[0].s, ps[1..];
    assert Legal(ps[0].s) && All(ps[0].gap, IsSpace);
    var rest := ps[0].gap + TextOf(more);
    assert |ps| > 1 ==> !(Word(ps[0].s) && Word(ps[1].s));
    AfterGap(ps[0].gap, more);
    SpellingIsRead(s, rest, m);
    assert Text(s) != "" && TextOf(ps) == Text(s) + rest;
    assert Gdb(m)(Text(s) + rest) == NextLexeme(Text(s) + rest, m);
    LexOne(Text(s), rest, TokenOf(s), Gdb(m));
  }

  // ----- texts of the value grammar ----------------------------------------

  predicate Wordy(t: Tok) {
    !t.Rep? && t != OPEN && t != CLOSE && t != COMMA && t != EQUALS
  }

  predicate WordyApart(ts: seq<Tok>) {
    forall i :: 0 < i < |ts| ==> !(Wordy(ts[i - 1]) && Wordy(ts[i]))
  }

  lemma WordyApartConcat(a: seq<Tok>, b: seq<Tok>)
    requires WordyApart(a) && WordyApart(b)
    requires a == [] || b == [] || !Wordy(a[|a| - 1]) || !Wordy(b[0])
    ensures WordyApart(a + b)
  {
    var ts := a + b;
    forall i | 0 < i < |ts|
      ensures !(Wordy(ts[i - 1]) && Wordy(ts[i]))
    {
      if i < |a| {
        assert ts[i - 1] == a[i - 1] && ts[i] == a[i];
      } else if i > |a| {
        assert ts[i - 1] == b[i - |a| - 1] && ts[i] == b[i - |a|];
      }
    }
  }

  lemma {:induction false} RunsAlternate(runs: Runs)
    ensures WordyApart(RunsTokens(runs)) && RunsTokens(runs) != []
  {
    if runs.MoreRuns? {
      RunsAlternate(runs.more);
      WordyApartConcat([COMMA], RunsTokens(runs.more));
      WordyApartConcat(RunTokens(runs.run), [COMMA] + RunsTokens(runs.more));
    } else {
      WordyApartConcat(RunTokens(runs.run), [CLOSE]);
    }
  }

  lemma {:induction false} FieldsAlternate(fields: Fields)
    ensures WordyApart(FieldsTokens(fields))
  {
    SrcAlternates(fields.value);
    var tail := [CLOSE];
    if fields.MoreFields? {
      FieldsAlternate(fields.more);
      tail := [COMMA] + FieldsTokens(fields.more);
      WordyApartConcat([COMMA], FieldsTokens(fields.more));
    }
    WordyApartConcat(Tokens(fields.value), tail);
    WordyApartConcat([fields.key, EQUALS], Tokens(fields.value) + tail);
  }

  lemma {:induction false} SrcAlternates(s: Src)
    ensures WordyApart(Tokens(s))
  {
    match s {
      case SrcScalar(t) =>
      case SrcList(runs) =>
        RunsAlternate(runs);
        WordyApartConcat([OPEN], RunsTokens(runs));
      case SrcDict(fields) =>
        FieldsAlternate(fields);
        WordyApartConcat([OPEN], FieldsTokens(fields));
    }
  }

  lemma WordsAreWordy(s: Spelling)
    requires Legal(s) && Word(s)
    ensures Wordy(TokenOf(s))
  {
    if s.AsName? {
      assert TokenOf(s).text[0] == s.name[0];
    }
  }

  /** `parse_rhs` on a printed value: whatever the nesting, the repeat counts,
      the white space, the number bases and the use of quotes, it returns the
      value and consumes everything. */
  lemma PrintedValueIsRead(s: Src, lead: string, ps: seq<Piece>, m: Messages)
    requires WellFormed(s) && OnlyMessages(m)
    requires All(lead, IsSpace) && LegalPieces(ps) && TokensOf(ps) == Tokens(s)
    ensures ReadText(lead + TextOf(ps), Gdb(m)) == Ok(Meaning(s))
  {
    SrcAlternates(s);
    forall i | 0 < i < |ps|
      ensures !(Word(ps[i - 1].s) && Word(ps[i].s))
    {
      var ts := Tokens(s);
      assert ts[i - 1] == TokenOf(ps[i - 1].s) && ts[i] == TokenOf(ps[i].s);
      if Word(ps[i - 1].s) { WordsAreWordy(ps[i - 1].s); }
      if Word(ps[i].s) { WordsAreWordy(ps[i].s); }
    }
    PiecesAreRead(ps, m);
    GapIsSkipped(lead, ps, m);
    AcceptedIffWellFormed(Tokens(s), Meaning(s));
  }

  // ----- a printer ---------------------------------------------------------

  const DIGITS := "0123456789abcdef"

  predicate Denotes(d: string, n: nat, base: nat) {
    d != "" && All(d, IsHex) && (base == 10 ==> All(d, IsDigit)) && ValueIn(d, base) == n
  }

  function DigitsOf(n: nat, base: nat): (d: string)
    requires 2 <= base <= 16
    ensures Denotes(d, n, base)
  {
    if n < base then
      OneDigit(n, base);
      [DIGITS[n]]
    else
      DivMod(n, base);
      var first := DigitsOf(n / base, base);
      MoreDigits(first, n / base, n % base, base);
      first + [DIGITS[n % base]]
  }

  lemma DivMod(n: nat, base: nat)
    requires base > 0
    ensures n / base * base + n % base == n
    ensures 2 <= base <= n ==> n / base < n
  {
  }

  lemma OneDigit(n: nat, base: nat)
    requires n < base <= 16
    ensures Denotes([DIGITS[n]], n, base)
  {
    DigitValue(n);
    var d := [DIGITS[n]];
    assert d[..0] == "" && ValueIn("", base) == 0;
  }

  lemma MoreDigits(first: string, n: nat, k: nat, base: nat)
    requires Denotes(first, n, base) && k < base <= 16
    ensures Denotes(first + [DIGITS[k]], n * base + k, base)
  {
    DigitValue(k);
    assert (first + [DIGITS[k]])[..|first|] == first;
  }

  lemma DigitValue(k: nat)
    requires k < 16
    ensures IsHex(DIGITS[k]) && HexDigit(DIGITS[k]) == k && (k < 10 ==> IsDigit(DIGITS[k]))
  {
  }

  /** The text of a float as the lexer keeps it. */
  predicate IsFloat(t: string) {
    FloatLexeme(t) == Token(|t|, Flt(t))
  }

  /** Tokens that have a spelling here: exceptions do not, nor quotes inside strings. */
  predicate Printable(t: Tok) {
    t.Num? || t.Rep? || (t.Flt? && IsFloat(t.lexeme)) || (t.Str? && All(t.text, NotQuote))
  }

  /** A float taken apart. */
  function SpellFloat(t: string): (s: Spelling)
    requires IsFloat(t)
    ensures s.AsFloat? && Legal(s) && Text(s) == t
  {
    var m, d := MinusLen(t), SignedDigits(t);
    var e := d + 1 + Span(t[d + 1..], IsDigit);
    FloatParts(t, m, d, e);
    AsFloat(m == 1, t[m..d], t[d + 1..e], t[e..])
  }

  lemma SliceIsAll(t: string, lo: nat, hi: nat, p: char -> bool)
    requires lo <= hi <= |t| && Span(t[lo..], p) == hi - lo
    ensures All(t[lo..hi], p)
  {
    forall i | 0 <= i < hi - lo
      ensures p(t[lo..hi][i])
    {
      assert t[lo..hi][i] == t[lo..][i];
    }
  }

  lemma FloatParts(t: string, m: nat, d: nat, e: nat)
    requires IsFloat(t) && m == MinusLen(t) && d == SignedDigits(t) && d < |t| && e == d + 1 + Span(t[d + 1..], IsDigit)
    ensures m <= d < e <= |t| && Legal(AsFloat(m == 1, t[m..d], t[d + 1..e], t[e..]))
    ensures Text(AsFloat(m == 1, t[m..d], t[d + 1..e], t[e..])) == t
  {
    SliceIsAll(t, m, d, IsDigit);
    SliceIsAll(t, d + 1, e, IsDigit);
    ExponentIsLegal(t, e);
    PartsMakeFloat(t, m, d, e);
  }

  lemma ExponentIsLegal(t: string, e: nat)
    requires IsFloat(t) && SignedDigits(t) < |t| && e == SignedDigits(t) + 1 + Span(t[SignedDigits(t) + 1..], IsDigit)
    ensures e <= |t| && LegalExponent(t[e..]) && t[SignedDigits(t)] == '.' && e > SignedDigits(t) + 1
  {
    WholeIsLegal(t[e..]);
  }

  lemma WholeIsLegal(x: string)
    requires ExponentLen(x) == |x|
    ensures LegalExponent(x)
  {
    if x != "" {
      SliceIsAll(x, 2, |x|, IsDigit);
      assert x[2..] == x[2..|x|];
    }
  }

  lemma PartsMakeFloat(t: string, m: nat, d: nat, e: nat)
    requires m == MinusLen(t) <= d < e <= |t| && t[d] == '.'
    ensures Text(AsFloat(m == 1, t[m..d], t[d + 1..e], t[e..])) == t
  {
    assert t[..m] == Sign(m == 1);
    assert [t[d]] == ".";
    assert t == t[..m] + t[m..d] + [t[d]] + t[d + 1..e] + t[e..];
  }

  function Spell(t: Tok): (s: Spelling)
    requires Printable(t)
    ensures Legal(s) && TokenOf(s) == t
  {
    match t
    case Num(n) => if n >= 0 then AsHex(DigitsOf(n, 16)) else AsInt(true, DigitsOf(-n, 10))
    case Flt(lexeme) => SpellFloat(lexeme)
    case Rep(n) => AsRepeats(DigitsOf(n, 10))
    case Str(text) => if |text| == 1 && IsPunct(text[0]) then AsPunct(text[0]) else AsQuoted(text)
  }

  function SpellAll(ts: seq<Tok>): (ps: seq<Piece>)
    requires forall t :: t in ts ==> Printable(t)
    ensures LegalPieces(ps) && TokensOf(ps) == ts
  {
    if ts == [] then [] else [Piece(Spell(ts[0]), " ")] + SpellAll(ts[1..])
  }

  function Print(s: Src): string
    requires forall t :: t in Tokens(s) ==> Printable(t)
  {
    TextOf(SpellAll(Tokens(s)))
  }

  lemma PrintThenParse(s: Src, m: Messages)
    requires WellFormed(s) && OnlyMessages(m) && forall t :: t in Tokens(s) ==> Printable(t)
    ensures ReadText(Print(s), Gdb(m)) == Ok(Meaning(s))
  {
    PrintedValueIsRead(s, "", SpellAll(Tokens(s)), m);
    assert "" + Print(s) == Print(s);
  }

  /** Names are made of letters and, behind the first character, digits. */
  lemma WordsAreNames(n: string, rest: string, m: Messages)
    requires n != "" && Boundary(rest) && NoMessage(rest) && OnlyMessages(m)
    requires 'a' <= n[0] <= 'z' || 'A' <= n[0] <= 'Z'
    requires forall i :: 0 <= i < |n| ==> 'a' <= n[i] <= 'z' || 'A' <= n[i] <= 'Z' || '0' <= n[i] <= '9'
    ensures NextLexeme(n + rest, m) == Token(|n|, Str(n))
  {
    NameIsRead(n, rest, m);
  }

  /** Digits above nine may be capital letters, too. */
  lemma CapitalDigits(k: nat)
    requires k < 16
    ensures IsHex("0123456789ABCDEF"[k]) && HexDigit("0123456789ABCDEF"[k]) == k
  {
  }

  /** Each delimiter is a token of its own; of the ASCII characters that are printed, none
      is white space but the blank. */
  lemma Delimiters(c: char, rest: string, m: Messages)
    requires OnlyMessages(m)
    ensures c == '{' || c == '}' || c == ',' || c == '=' ==> NextLexeme([c] + rest, m) == Token(1, Str([c]))
    ensures c == ' ' || '\t' <= c <= '\r' ==> NextLexeme([c] + rest, m).Skip?
    ensures '!' <= c <= '~' ==> !NextLexeme([c] + rest, m).Skip?
  {
    if c == '{' || c == '}' || c == ',' || c == '=' {
      PunctIsRead(c, rest, m);
    } else if c == ' ' || '\t' <= c <= '\r' {
      assert ([c] + rest)[0] == c && IsSpace(c);
    } else if '!' <= c <= '~' {
      assert ([c] + rest)[0] == c;
      OnlySpaceIsSkipped([c] + rest, m);
    }
  }

  lemma OnlySpaceIsSkipped(t: string, m: Messages)
    requires OnlyMessages(m) && t != "" && !IsSpace(t[0])
    ensures !NextLexeme(t, m).Skip?
  {
    assert m(t) != NoMatch ==> m(t).Token?;
  }

  // ----- gdb's messages ----------------------------------------------------

  /** Messages begin with a capital letter, so no earlier alternative takes them. */
  lemma MessageIsLexed(t: string, m: Messages)
    requires OnlyMessages(m) && m(t) != NoMatch
    ensures t != "" && !IsSpace(t[0]) && NextLexeme(t, m) == m(t)
  {
    MessageStarts(t, m);
    CapitalIsNext(t, m);
  }

  lemma CapitalIsNext(t: string, m: Messages)
    requires t != "" && (t[0] == 'C' || t[0] == 'N') && m(t) != NoMatch
    ensures !IsSpace(t[0]) && NextLexeme(t, m) == m(t)
  {
    NotNumeric(t);
    NoOtherPhrase(t, m);
    Groups(t, m);
  }

  lemma MessageStarts(t: string, m: Messages)
    requires OnlyMessages(m) && m(t) != NoMatch
    ensures t != "" && (t[0] == 'C' || t[0] == 'N')
  {
    assert "Could not "[0] == 'C' && "Cannot access "[0] == 'C' && "Cannot insert "[0] == 'C' && "No symbol "[0] == 'N';
  }

  lemma NoOtherPhrase(t: string, m: Messages)
    requires t != "" && (t[0] == 'C' || t[0] == 'N')
    ensures PhraseLexeme(t, m) == m(t)
  {
    assert MinusLen(t) == 0 && t[0..] == t;
    assert "nan(0x"[0] == 'n' && "<repeats "[0] == '<';
  }

  lemma LeadIsSkipped(gap: string, t: string, m: Messages)
    requires OnlyMessages(m) && All(gap, IsSpace) && t != "" && !IsSpace(t[0])
    ensures Lex(gap + t, Gdb(m)) == Lex(t, Gdb(m))
  {
    var all := gap + t;
    if gap == "" {
      assert all == t;
    } else {
      SpanOf(gap, t, IsSpace);
      assert all[0] == gap[0];
      assert Gdb(m)(all) == NextLexeme(all, m) == Skip(|gap|);
      assert all[|gap|..] == t;
    }
  }

  /** An answer of gdb that begins with one of its messages raises the exception made of
      it, unless the text behind it has no tokens. */
  lemma MessageIsRaised(gap: string, t: string, m: Messages)
    requires OnlyMessages(m) && All(gap, IsSpace) && m(t) != NoMatch
    ensures ReadText(gap + t, Gdb(m)) ==
            match Lex(t[m(t).len..], Gdb(m))
            case Ok(_) => Err(Raised(m(t).tok))
            case Err(e) => Err(e)
  {
    MessageIsLexed(t, m);
    LeadIsSkipped(gap, t, m);
    var rest := Lex(t[m(t).len..], Gdb(m));
    assert Gdb(m)(t) == m(t);
    assert Lex(t, Gdb(m)) == Prepend([m(t).tok], rest);
    if rest.Ok? {
      var ts := [m(t).tok] + rest.value;
      RefusedAtOnce(ts);
    }
  }

  lemma {:induction false} OnlyOneLexError(t: string, next: Chooser)
    requires Advances(next)
    ensures Lex(t, next).Err? ==> Lex(t, next) == Err(NoToken)
    decreases |t|
  {
    if t != "" {
      var r := next(t);
      assert Fits(r, t);
      if r != NoMatch {
        OnlyOneLexError(t[r.len..], next);
      }
    }
  }

  predicate IsWord(c: char) { IsLetter(c) || IsDigit(c) || c == '_' }
  predicate NotNewline(c: char) { c != '\n' }

  const FETCH := "Could not fetch register \""
  const REGISTERS := "Could not read registers; "
  const ACCESS := "Cannot access memory at address 0x"
  const BREAKPOINT := "Cannot insert breakpoint "
  const SYMBOL := "No symbol \""

  function Message(t: string, len: nat): Lexeme
    requires len <= |t|
  {
    Token(len, Exc(t[..len]))
  }

  /** An explanation: the rest of a text of one line. */
  function Explained(t: string, at: nat): (r: Lexeme)
    requires 0 < at <= |t|
    ensures Fits(r, t)
  {
    var e := at + Span(t[at..], NotNewline);
    if e + 1 < |t| then NoMatch else Message(t, e)
  }

  /** One more character, whichever. */
  function AnyBehind(t: string, at: nat): (r: Lexeme)
    requires at <= |t|
    ensures Fits(r, t)
  {
    if at < |t| && t[at] != '\n' then Message(t, at + 1) else NoMatch
  }

  function FetchLexeme(t: string): (r: Lexeme)
    ensures Fits(r, t)
  {
    if !(FETCH <= t) then NoMatch
    else
      var e := |FETCH| + Span(t[|FETCH|..], IsWord);
      if e == |FETCH| || !("\"; " <= t[e..]) then NoMatch else Explained(t, e + 3)
  }

  function AccessLexeme(t: string): (r: Lexeme)
    ensures Fits(r, t)
  {
    if !(ACCESS <= t) then NoMatch
    else
      var n := Span(t[|ACCESS|..], IsLowHex);
      if n == 0 then NoMatch else Message(t, |ACCESS| + n)
  }

  /** The character behind the number may be its own last digit. */
  function BreakpointLexeme(t: string): (r: Lexeme)
    ensures Fits(r, t)
  {
    if !(BREAKPOINT <= t) then NoMatch
    else
      var n := Span(t[|BREAKPOINT|..], IsDigit);
      if n == 0 then NoMatch
      else Or(AnyBehind(t, |BREAKPOINT| + n), if n > 1 then Message(t, |BREAKPOINT| + n) else NoMatch)
  }

  const CONTEXT := "\" in current context"

  function SymbolLexeme(t: string): (r: Lexeme)
    ensures Fits(r, t)
  {
    if !(SYMBOL <= t) then NoMatch
    else
      var e := |SYMBOL| + Span(t[|SYMBOL|..], IsWord);
      if e == |SYMBOL| || !(CONTEXT <= t[e..]) then NoMatch else AnyBehind(t, e + |CONTEXT|)
  }

  /** The five expressions of `tokenize`. */
  function KnownMessage(t: string): (r: Lexeme)
    ensures Fits(r, t)
  {
    Or(FetchLexeme(t), Or(if REGISTERS <= t then Explained(t, |REGISTERS|) else NoMatch,
       Or(AccessLexeme(t), Or(BreakpointLexeme(t), SymbolLexeme(t)))))
  }

  lemma Begins(a: string, b: string, t: string)
    requires a <= b && b <= t
    ensures a <= t
  {
    assert forall i :: 0 <= i < |a| ==> t[i] == b[i] == a[i];
  }

  lemma KnownBeginnings()
    ensures "Could not " <= FETCH && "Could not " <= REGISTERS && "Cannot access " <= ACCESS
    ensures "Cannot insert " <= BREAKPOINT && "No symbol " <= SYMBOL
  {
  }

  /** So what is proved for any messages holds for these. */
  lemma KnownAreMessages()
    ensures OnlyMessages(KnownMessage)
  {
    forall t: string | KnownMessage(t) != NoMatch
      ensures KnownMessage(t).Token? && 0 < KnownMessage(t).len <= |t| && KnownMessage(t).tok.Exc?
      ensures "Could not " <= t || "Cannot access " <= t || "Cannot insert " <= t || "No symbol " <= t
    {
      KnownBeginnings();
      if FETCH <= t {
        Begins("Could not ", FETCH, t);
      } else if REGISTERS <= t {
        Begins("Could not ", REGISTERS, t);
      } else if ACCESS <= t {
        Begins("Cannot access ", ACCESS, t);
      } else if BREAKPOINT <= t {
        Begins("Cannot insert ", BREAKPOINT, t);
      } else {
        Begins("No symbol ", SYMBOL, t);
      }
    }
  }

  lemma OnlyAccess(t: string)
    requires ACCESS <= t
    ensures !(FETCH <= t) && !(REGISTERS <= t)
  {
    assert ACCESS[1] == 'a' && FETCH[1] == 'o' && REGISTERS[1] == 'o';
  }

  lemma AccessIsKnown(t: string, d: string)
    requires d != "" && All(d, IsLowHex) && t == ACCESS + d
    ensures KnownMessage(t) == Token(|t|, Exc(t))
  {
    SpanOf(d, "", IsLowHex);
    Behind(ACCESS, d);
    assert d + "" == d && t[..|t|] == t;
    OnlyAccess(t);
    assert AccessLexeme(t) == Token(|t|, Exc(t));
  }

  lemma MessageAlone(t: string, m: Messages, tok: Tok)
    requires OnlyMessages(m) && m(t) == Token(|t|, tok)
    ensures ReadText(t, Gdb(m)) == Err(Raised(tok))
  {
    MessageIsRaised("", t, m);
    assert "" + t == t && t[|t|..] == "";
  }

  /** An address that gdb cannot access. */
  lemma NoAccessIsRaised(t: string, d: string)
    requires t == "Cannot access memory at address 0x" + d && d != "" && All(d, IsLowHex)
    ensures OnlyMessages(KnownMessage)
    ensures ReadText(t, Gdb(KnownMessage)) == Err(Raised(Exc(t)))
  {
    KnownAreMessages();
    AccessIsKnown(t, d);
    MessageAlone(t, KnownMessage, Exc(t));
  }
}
