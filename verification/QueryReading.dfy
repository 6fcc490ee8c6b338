/** Reading a query text as the parser does it (query/parser.go:76-182): token by token, skipping at most one blank each
    time, with one token of pushback. A NUL in the text reads as the end of the input, and reading goes on behind it;
    for texts without NUL this is parsing the significant tokens. */
module QueryReading {
  import opened Wrappers
  import opened QueryTokens
  import opened QueryLexer
  import opened QueryGrammar

  // ----- Significant tokens -----

  function NonBlank(ts: seq<Lexeme>): seq<Lexeme> {
    if ts == [] then []
    else if ts[0].tok == Ws then NonBlank(ts[1..])
    else [ts[0]] + NonBlank(ts[1..])
  }

  /** The significant tokens of a query text. */
  function Significants(s: string): seq<Lexeme> {
    NonBlank(LexAll(s))
  }

  lemma {:induction false} NonBlankIsSignificant(ts: seq<Lexeme>)
    requires forall i | 0 <= i < |ts| :: ValidLexeme(ts[i])
    ensures Significant(NonBlank(ts))
  {
    if ts != [] { NonBlankIsSignificant(ts[1..]); }
  }

  lemma SignificantsAreSignificant(s: string)
    requires NulFree(s)
    ensures Significant(Significants(s))
  {
    LexAllCanonical(s);
    NonBlankIsSignificant(LexAll(s));
  }

  /** Parsing the significant tokens of a text. */
  function ParseText(text: string, df: string): Parsed<Option<Expr>> {
    ParseExpr(Significants(text), df)
  }

  // ----- All tokens of a text, those behind a NUL included -----

  /** One more token in front; at the very end Eof comes for ever and is left out. */
  function Prepend(x: Lexeme, ts: seq<Lexeme>): seq<Lexeme> {
    if x.tok == Eof && ts == [] then [] else [x] + ts
  }

  function AllTokens(s: string): seq<Lexeme>
    decreases |s|
  {
    if s == "" then [] else Prepend(LexHead(s).0, AllTokens(LexHead(s).1))
  }

  function Drop(ts: seq<Lexeme>): seq<Lexeme> {
    if ts == [] then [] else ts[1..]
  }

  /** At most one blank is skipped. */
  function Skip(ts: seq<Lexeme>): seq<Lexeme> {
    if Peek(ts).tok == Ws then ts[1..] else ts
  }

  /** Eof does not come last, and has no text. */
  ghost predicate Normal(ts: seq<Lexeme>) {
    && (ts != [] ==> ts[|ts| - 1].tok != Eof)
    && forall i | 0 <= i < |ts| :: ts[i].tok == Eof ==> ts[i] == EOF_LEXEME
  }

  lemma PrependIsNormal(x: Lexeme, ts: seq<Lexeme>)
    requires Normal(ts) && (x.tok == Eof ==> x == EOF_LEXEME)
    ensures Normal(Prepend(x, ts)) && Peek(Prepend(x, ts)) == x && Drop(Prepend(x, ts)) == ts
  {
  }

  lemma {:induction false} AllTokensNormal(s: string)
    ensures Normal(AllTokens(s))
    decreases |s|
  {
    if s != "" {
      AllTokensNormal(LexHead(s).1);
      EofHasNoText(s);
      PrependIsNormal(LexHead(s).0, AllTokens(LexHead(s).1));
    }
  }

  lemma EofHasNoText(s: string)
    ensures LexHead(s).0.tok == Eof ==> LexHead(s).0 == EOF_LEXEME
  {
    HeadFacts(s);
    if s != "" && IsStringChar(s[0]) { StringRunFacts(s); }
  }

  /** One lexer step gives the first token and leaves the others. */
  lemma LexerStep(s: string)
    ensures var (x, rest) := LexHead(s);
            Peek(AllTokens(s)) == x && AllTokens(rest) == Drop(AllTokens(s))
  {
    EofHasNoText(s);
    AllTokensNormal(LexHead(s).1);
    PrependIsNormal(LexHead(s).0, AllTokens(LexHead(s).1));
  }

  lemma PushedBack(ts: seq<Lexeme>)
    requires Normal(ts)
    ensures Prepend(Peek(ts), Drop(ts)) == ts && Normal(Drop(ts)) && Normal(Skip(ts))
  {
    assert ts != [] && Peek(ts).tok == Eof ==> |ts| > 1;
  }

  /** Without NUL there is no Eof in between. */
  lemma {:induction false} AllTokensOfNulFree(s: string)
    requires NulFree(s)
    ensures AllTokens(s) == LexAll(s)
    decreases |s|
  {
    HeadFacts(s);
    if s != "" { AllTokensOfNulFree(LexHead(s).1); }
  }

  // ----- Reading -----

  function ReadExpr(ts: seq<Lexeme>, df: string): (r: Parsed<Option<Expr>>)
    ensures r.Ok? ==> |r.rest| <= |ts|
    decreases |ts|, 1
  {
    var t := Skip(ts);
    if Peek(t).tok == Eof then Ok(None, Drop(t))
    else
      match ReadOperand(t, df)
      case Fail(error) => Fail(error)
      case Ok(e, rest) => ReadLinks(e, rest, df)
  }

  function ReadLinks(e: Expr, ts: seq<Lexeme>, df: string): (r: Parsed<Option<Expr>>)
    ensures r.Ok? ==> |r.rest| <= |ts| && r.value.Some?
    decreases |ts|, 1
  {
    var t := Skip(ts);
    var tok := Peek(t).tok;
    if tok == Eof then Ok(Some(e), Drop(t))
    else if tok == RParen then Ok(Some(e), t)
    else
      var op: Operator := if tok.IsOperator() then tok else And;
      match ReadOperand(if tok.IsOperator() then Drop(t) else t, df)
      case Fail(error) => Fail(error)
      case Ok(rhs, rest) => ReadLinks(Combine(e, op, rhs), rest, df)
  }

  function ReadOperand(ts: seq<Lexeme>, df: string): (r: Parsed<Expr>)
    ensures r.Ok? ==> |r.rest| < |ts| && !r.value.Binary?
    decreases |ts|, 0
  {
    var t := Skip(ts);
    if Peek(t).tok == LParen then
      match ReadExpr(Drop(t), df)
      case Fail(error) => Fail(error)
      case Ok(e, rest) => ReadClose(e, rest)
    else ReadField(t, df)
  }

  /** A group needs its closing parenthesis, but not an expression. */
  function ReadClose(e: Option<Expr>, ts: seq<Lexeme>): Parsed<Expr> {
    var t := Skip(ts);
    if Peek(t).tok != RParen then Fail(ExpectedRParen(Describe(Peek(t))))
    else Ok(if e.Some? then Paren(e.value) else EmptyParen, Drop(t))
  }

  function ReadField(ts: seq<Lexeme>, df: string): Parsed<Expr> {
    var t := Skip(ts);
    if Peek(t).tok != Str then Fail(ExpectedFieldOrTerm(Describe(Peek(t))))
    else
      var u := Skip(Drop(t));
      if Peek(u).tok != Colon then Ok(Field(df, t[0].lit), u)
      else
        var w := Skip(Drop(u));
        if Peek(w).tok == Str then Ok(Field(t[0].lit, w[0].lit), Drop(w))
        else Fail(ExpectedTerm(Describe(Peek(w))))
  }

  /** Reading a whole query text, whatever it holds. */
  function ReadText(text: string, df: string): Parsed<Option<Expr>> {
    ReadExpr(AllTokens(text), df)
  }

  // ----- A group without an expression -----

  /** An operand is a group without an expression exactly if an Eof follows its opening parenthesis, and then comes a
      closing one; a blank may stand before each of them. */
  lemma EmptyGroupIff(ts: seq<Lexeme>, df: string)
    ensures ReadOperand(ts, df).Ok? && ReadOperand(ts, df).value == EmptyParen <==>
            && Peek(Skip(ts)).tok == LParen
            && Peek(Skip(Drop(Skip(ts)))).tok == Eof
            && Peek(Skip(Drop(Skip(Drop(Skip(ts)))))).tok == RParen
  {
    var inside := Drop(Skip(ts));
    if Peek(Skip(ts)).tok == LParen && Peek(Skip(inside)).tok != Eof {
      assert ReadExpr(inside, df).Ok? ==> ReadExpr(inside, df).value.Some?;
    }
  }

  /** A NUL between two parentheses does it. */
  lemma NulMakesEmptyGroup(df: string)
    ensures ReadText(['(', EOF_RUNE, ')'], df) == Ok(Some(EmptyParen), [])
  {
    var open, close := Lexeme(LParen, "("), Lexeme(RParen, ")");
    var s := ['(', EOF_RUNE, ')'];
    assert s[1..] == [EOF_RUNE, ')'] && s[1..][1..] == [')'] && [')'][1..] == "";
    assert AllTokens([')']) == [close];
    assert AllTokens([EOF_RUNE, ')']) == [EOF_LEXEME, close];
    var ts := [open, EOF_LEXEME, close];
    assert AllTokens(s) == [open] + [EOF_LEXEME, close] == ts;
    assert ts[1..] == [EOF_LEXEME, close] && [EOF_LEXEME, close][1..] == [close] && [close][1..] == [];
    assert ReadExpr(ts[1..], df) == Ok(None, [close]);
    assert ReadOperand(ts, df) == Ok(EmptyParen, []);
    assert ReadLinks(EmptyParen, [], df) == Ok(Some(EmptyParen), []);
  }

  /** Two blanks in a row, which a NUL can bring about, are skipped in front of a group; three hide it. */
  lemma ThreeBlanksHideGroup(a: string, b: string, c: string, rest: seq<Lexeme>, df: string)
    ensures var open, blanks := [Lexeme(LParen, "(")] + rest, [Lexeme(Ws, a), Lexeme(Ws, b)];
            && ReadExpr(blanks + open, df) == ReadExpr(open, df)
            && ReadExpr([Lexeme(Ws, c)] + blanks + open, df) == Fail(ExpectedFieldOrTerm("("))
  {
    var open, blanks := [Lexeme(LParen, "(")] + rest, [Lexeme(Ws, a), Lexeme(Ws, b)];
    var ts := [Lexeme(Ws, c)] + blanks + open;
    assert (blanks + open)[1..] == [Lexeme(Ws, b)] + open && ([Lexeme(Ws, b)] + open)[1..] == open;
    assert ts[1..] == blanks + open;
  }

  // ----- Without NUL, reading is parsing the significant tokens -----

  /** No two blanks stand side by side, and no Eof in between. */
  ghost predicate Tidy(ts: seq<Lexeme>) {
    && (forall i | 0 <= i < |ts| :: ts[i].tok != Eof)
    && (forall i | 0 <= i < |ts| - 1 :: !(ts[i].tok == Ws && ts[i + 1].tok == Ws))
  }

  lemma DropIsTidy(ts: seq<Lexeme>)
    requires Tidy(ts)
    ensures Tidy(Drop(ts))
  {
    assert ts != [] ==> forall i | 0 <= i < |ts| - 1 :: ts[1..][i] == ts[i + 1];
  }

  /** Skipping a blank reaches a significant token. */
  lemma SkipFacts(ts: seq<Lexeme>)
    requires Tidy(ts)
    ensures var t, n := Skip(ts), NonBlank(ts);
            && Tidy(t) && Skip(t) == t && NonBlank(t) == n && Peek(t) == Peek(n)
            && NonBlank(Drop(t)) == Drop(n) && Tidy(Drop(t)) && (t == [] <==> n == [])
  {
    DropIsTidy(ts);
    DropIsTidy(Skip(ts));
  }

  /** The two ways of parsing agree: on the value or the error, and on what is left. */
  ghost predicate Agree<T(!new)>(r: Parsed<T>, p: Parsed<T>) {
    if p.Ok? then r.Ok? && r.value == p.value && Tidy(r.rest) && NonBlank(r.rest) == p.rest
    else r == p
  }

  lemma {:induction false} ReadExprAgrees(ts: seq<Lexeme>, df: string)
    requires Tidy(ts)
    ensures Agree(ReadExpr(ts, df), ParseExpr(NonBlank(ts), df))
    decreases |ts|, 1
  {
    SkipFacts(ts);
    var t := Skip(ts);
    if t != [] {
      ReadOperandAgrees(t, df);
      var o := ReadOperand(t, df);
      if o.Ok? { ReadLinksAgrees(o.value, o.rest, df); }
    }
  }

  lemma {:induction false} ReadLinksAgrees(e: Expr, ts: seq<Lexeme>, df: string)
    requires Tidy(ts)
    ensures Agree(ReadLinks(e, ts, df), ParseLinks(e, NonBlank(ts), df))
    decreases |ts|, 1
  {
    SkipFacts(ts);
    var t, n := Skip(ts), NonBlank(ts);
    if t != [] && Peek(t).tok != RParen {
      var tok := Peek(t).tok;
      var op: Operator := if tok.IsOperator() then tok else And;
      var body := if tok.IsOperator() then Drop(t) else t;
      ReadOperandAgrees(body, df);
      var o := ReadOperand(body, df);
      if o.Ok? { ReadLinksAgrees(Combine(e, op, o.value), o.rest, df); }
    }
  }

  lemma {:induction false} ReadOperandAgrees(ts: seq<Lexeme>, df: string)
    requires Tidy(ts)
    ensures Agree(ReadOperand(ts, df), ParseOperand(NonBlank(ts), df))
    decreases |ts|, 0
  {
    SkipFacts(ts);
    var t, n := Skip(ts), NonBlank(ts);
    if Peek(t).tok == LParen {
      ReadExprAgrees(Drop(t), df);
      var r := ReadExpr(Drop(t), df);
      if r.Ok? { SkipFacts(r.rest); }
    } else {
      ReadFieldAgrees(t, df);
    }
  }

  lemma ReadFieldAgrees(ts: seq<Lexeme>, df: string)
    requires Tidy(ts) && Peek(NonBlank(ts)).tok != LParen
    ensures Agree(ReadField(ts, df), ParseOperand(NonBlank(ts), df))
  {
    SkipFacts(ts);
    var t, n := Skip(ts), NonBlank(ts);
    if t != [] {
      SkipFacts(Drop(t));
      var u := Skip(Drop(t));
      if u != [] {
        SkipFacts(Drop(u));
        assert n[2..] == n[1..][1..];
        var w := Skip(Drop(u));
        if w != [] { assert n[3..] == n[2..][1..]; }
      }
    }
  }

  lemma LexAllIsTidy(s: string)
    requires NulFree(s)
    ensures Tidy(LexAll(s))
  {
    LexAllCanonical(s);
    var ts := LexAll(s);
    assert forall i | 0 <= i < |ts| :: ValidLexeme(ts[i]);
    forall i | 0 <= i < |ts| - 1 ensures !(ts[i].tok == Ws && ts[i + 1].tok == Ws) { assert !Fuse(ts[i], ts[i + 1]); }
  }

  /** For a text without NUL, reading it is parsing its significant tokens. */
  lemma ReadingIsParsing(text: string, df: string)
    requires NulFree(text)
    ensures Agree(ReadText(text, df), ParseText(text, df))
  {
    AllTokensOfNulFree(text);
    LexAllIsTidy(text);
    ReadExprAgrees(LexAll(text), df);
  }

  // ----- Empty groups need a NUL -----

  predicate HoldsEmptyGroup(t: Expr) {
    match t
    case Field(_, _) => false
    case Binary(_, l, r) => HoldsEmptyGroup(l) || HoldsEmptyGroup(r)
    case Paren(e) => HoldsEmptyGroup(e)
    case EmptyParen => true
  }

  lemma {:induction false} NoEmptyGroupBuilt(s: Syntax, df: string)
    ensures !HoldsEmptyGroup(Build(s, df))
    decreases s
  {
    NoEmptyGroupInOperand(s.first, df);
    NoEmptyGroupInLinks(BuildOperand(s.first, df), s.links, df);
  }

  lemma {:induction false} NoEmptyGroupInLinks(e: Expr, l: Links, df: string)
    requires !HoldsEmptyGroup(e)
    ensures !HoldsEmptyGroup(BuildLinks(e, l, df))
    decreases l
  {
    if l.Link? {
      NoEmptyGroupInOperand(l.operand, df);
      NoEmptyGroupInLinks(Combine(e, l.conn.Op(), BuildOperand(l.operand, df)), l.tail, df);
    }
  }

  lemma {:induction false} NoEmptyGroupInOperand(o: Operand, df: string)
    ensures !HoldsEmptyGroup(BuildOperand(o, df))
    decreases o
  {
    if o.Group? { NoEmptyGroupBuilt(o.inner, df); }
  }

  /** Only a NUL in the text can lead to a group without an expression. */
  lemma EmptyGroupNeedsNul(text: string, df: string)
    requires ReadText(text, df).Ok? && ReadText(text, df).value.Some?
    requires HoldsEmptyGroup(ReadText(text, df).value.value)
    ensures !NulFree(text)
  {
    if NulFree(text) {
      ReadingIsParsing(text, df);
      SignificantsAreSignificant(text);
      var s := SoundExpr(Significants(text), df);
      NoEmptyGroupBuilt(s, df);
      assert false;
    }
  }
}
