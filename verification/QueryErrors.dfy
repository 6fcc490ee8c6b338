/** Which error a query that does not parse is answered with (query/parser.go:76-182): a scan from left to right with
    a counter of open parentheses finds the token that the recursive parser complains about, and what it wants there. */
module QueryErrors {
  import opened QueryTokens
  import opened QueryLexer
  import opened QueryGrammar
  import opened QueryReading

  /** Where the scan stands: at the start of an expression, where an operand must come, behind a word that may be a
      field, behind its colon, or behind an operand. */
  datatype Place = Start | WantOperand | BehindWord | BehindColon | BehindOperand

  /** The scan ends with the tokens left over, or with an error at the first of them. */
  datatype Outcome = Accepted(rest: seq<Lexeme>) | Missing(error: ParseError)

  /** What is missing at the end of the query is found at `EOF`; elsewhere, where a token with a text of its own is. */
  function Scan(place: Place, depth: nat, ts: seq<Lexeme>): Outcome
    decreases |ts|
  {
    if ts == [] then
      match place
      case BehindColon => Missing(ExpectedTerm("EOF"))
      case WantOperand => Missing(ExpectedFieldOrTerm("EOF"))
      case _ => if depth > 0 then Missing(ExpectedRParen("EOF")) else Accepted([])
    else if place == BehindColon then
      if ts[0].tok == Str then Scan(BehindOperand, depth, ts[1..]) else Missing(ExpectedTerm(ts[0].lit))
    else if place == BehindWord && ts[0].tok == Colon then Scan(BehindColon, depth, ts[1..])
    else if ts[0].tok == LParen then Scan(Start, depth + 1, ts[1..])
    else if ts[0].tok == Str then Scan(BehindWord, depth, ts[1..])
    else if place == Start || place == WantOperand then Missing(ExpectedFieldOrTerm(ts[0].lit))
    else if ts[0].tok == RParen then
      if depth > 0 then Scan(BehindOperand, depth - 1, ts[1..]) else Accepted(ts)
    else if ts[0].tok.IsOperator() then Scan(WantOperand, depth, ts[1..])
    else Missing(ExpectedFieldOrTerm(ts[0].lit))
  }

  lemma SignificantTail(ts: seq<Lexeme>)
    requires Significant(ts) && ts != []
    ensures Significant(ts[1..]) && ts[0].lit != "" && ts[0].tok != Ws && ts[0].tok != Eof
    ensures Describe(Peek(ts)) == ts[0].lit
  {
    assert ValidLexeme(ts[0]);
  }

  /** The scan goes on behind what has been parsed, at the given depth, or stops with the same error. */
  ghost predicate Follows<T(!new)>(r: Parsed<T>, now: Outcome, depth: nat) {
    if r.Ok? then now == Scan(BehindOperand, depth, r.rest) else now == Missing(r.error)
  }

  lemma {:induction false} ScanExpr(ts: seq<Lexeme>, df: string, depth: nat)
    requires Significant(ts)
    ensures Follows(ParseExpr(ts, df), Scan(Start, depth, ts), depth)
    decreases |ts|, 1
  {
    if ts != [] {
      SignificantTail(ts);
      ScanOperand(ts, df, depth);
      if ParseOperand(ts, df).Ok? {
        var Ok(e, rest) := ParseOperand(ts, df);
        RestIsSignificant(ts, df);
        ScanLinks(e, rest, df, depth);
      }
    }
  }

  lemma RestIsSignificant(ts: seq<Lexeme>, df: string)
    requires Significant(ts) && ParseOperand(ts, df).Ok?
    ensures Significant(ParseOperand(ts, df).rest)
  {
    var o := SoundOperand(ts, df);
    SignificantSuffix(ts, OperandTokens(o), ParseOperand(ts, df).rest);
  }

  lemma {:induction false} ScanLinks(e: Expr, ts: seq<Lexeme>, df: string, depth: nat)
    requires Significant(ts)
    ensures Follows(ParseLinks(e, ts, df), Scan(BehindOperand, depth, ts), depth)
    decreases |ts|, 1
  {
    if !Closes(ts) {
      SignificantTail(ts);
      var op: Operator := if ts[0].tok.IsOperator() then ts[0].tok else And;
      var body := if ts[0].tok.IsOperator() then ts[1..] else ts;
      ScanOperand(body, df, depth);
      if ParseOperand(body, df).Ok? {
        var Ok(rhs, rest) := ParseOperand(body, df);
        RestIsSignificant(body, df);
        ScanLinks(Combine(e, op, rhs), rest, df, depth);
      }
    }
  }

  lemma {:induction false} ScanOperand(ts: seq<Lexeme>, df: string, depth: nat)
    requires Significant(ts)
    ensures Follows(ParseOperand(ts, df), Scan(WantOperand, depth, ts), depth)
    decreases |ts|, 0
  {
    if ts != [] {
      SignificantTail(ts);
      if ts[0].tok == LParen {
        ScanExpr(ts[1..], df, depth + 1);
        if ParseExpr(ts[1..], df).Ok? { ScanClose(ts[1..], df, depth); }
      } else if ts[0].tok == Str {
        ScanWord(ts, df, depth);
      }
    }
  }

  /** Behind what stands in a group comes the closing parenthesis or the end. */
  lemma ScanClose(ts: seq<Lexeme>, df: string, depth: nat)
    requires Significant(ts) && ParseExpr(ts, df).Ok?
    ensures var rest := ParseExpr(ts, df).rest;
            && Closes(rest)
            && (rest == [] ==> Scan(BehindOperand, depth + 1, rest) == Missing(ExpectedRParen("EOF")))
            && (rest != [] ==> Scan(BehindOperand, depth + 1, rest) == Scan(BehindOperand, depth, rest[1..]))
  {
    ParsingStops(ts, df);
  }

  lemma ParsingStops(ts: seq<Lexeme>, df: string)
    requires Significant(ts) && ParseExpr(ts, df).Ok?
    ensures Closes(ParseExpr(ts, df).rest)
  {
    if ts != [] { var s := SoundExpr(ts, df); }
  }

  lemma ScanWord(ts: seq<Lexeme>, df: string, depth: nat)
    requires Significant(ts) && ts != [] && ts[0].tok == Str
    ensures Follows(ParseOperand(ts, df), Scan(BehindWord, depth, ts[1..]), depth)
  {
    if |ts| > 1 {
      SignificantTail(ts);
      SignificantTail(ts[1..]);
      if ts[1].tok == Colon && |ts| > 2 { SignificantTail(ts[2..]); }
    }
  }

  /** For every text without NUL: it fails to be read exactly if the scan finds something missing, with the same error;
      otherwise the same tokens are left over. */
  lemma ErrorIsScanned(text: string, df: string)
    requires NulFree(text)
    ensures var o, r := Scan(Start, 0, Significants(text)), ReadText(text, df);
            && (o.Missing? ==> r == Fail(o.error))
            && (o.Accepted? ==> r.Ok? && NonBlank(r.rest) == o.rest)
  {
    var ts := Significants(text);
    SignificantsAreSignificant(text);
    ReadingIsParsing(text, df);
    ScanExpr(ts, df, 0);
    if ParseExpr(ts, df).Ok? { ParsingStops(ts, df); }
  }
}
