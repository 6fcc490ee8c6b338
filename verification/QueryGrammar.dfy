/** The query grammar and what parsing a token sequence computes (query/parser.go):
      Expr    := Operand ([op] Operand)*
      Operand := '(' Expr ')' | STRING [':' STRING]                                      */
module QueryGrammar {
  import opened Wrappers
  import opened QueryTokens
  import opened QueryLexer

  datatype Expr =
    | Field(field: string, term: string)
    | Binary(op: Operator, lhs: Expr, rhs: Expr)
    | Paren(inner: Expr)
    | EmptyParen  // a parenthesised expression that holds no expression

  datatype ParseError =
    | ExpectedRParen(found: string)
    | ExpectedFieldOrTerm(found: string)
    | ExpectedTerm(found: string)

  datatype Parsed<+T> =
    | Ok(value: T, rest: seq<Lexeme>)
    | Fail(error: ParseError)

  /** Hangs a new operator on the tree built so far: below the root if the root binds more
      loosely, and as the new root otherwise. */
  function Combine(e: Expr, op: Operator, rhs: Expr): Expr {
    if e.Binary? && e.op.Precedence() < op.Precedence() then
      Binary(e.op, e.lhs, Binary(op, e.rhs, rhs))
    else
      Binary(op, e, rhs)
  }

  /** The next significant token; past the end it is Eof for ever. */
  function Peek(ts: seq<Lexeme>): Lexeme {
    if ts == [] then EOF_LEXEME else ts[0]
  }

  // ----- Parsing as functions of the remaining significant tokens -----

  function ParseExpr(ts: seq<Lexeme>, df: string): (r: Parsed<Option<Expr>>)
    ensures r.Ok? ==> |r.rest| <= |ts| && (r.value.None? ==> ts == [])
    decreases |ts|, 1
  {
    if ts == [] then Ok(None, [])
    else
      match ParseOperand(ts, df)
      case Fail(error) => Fail(error)
      case Ok(e, rest) => ParseLinks(e, rest, df)
  }

  function ParseLinks(e: Expr, ts: seq<Lexeme>, df: string): (r: Parsed<Option<Expr>>)
    ensures r.Ok? ==> |r.rest| <= |ts| && r.value.Some?
    decreases |ts|, 1
  {
    if ts == [] || ts[0].tok == RParen then Ok(Some(e), ts)
    else
      var op: Operator := if ts[0].tok.IsOperator() then ts[0].tok else And;
      match ParseOperand(if ts[0].tok.IsOperator() then ts[1..] else ts, df)
      case Fail(error) => Fail(error)
      case Ok(rhs, rest) => ParseLinks(Combine(e, op, rhs), rest, df)
  }

  function ParseOperand(ts: seq<Lexeme>, df: string): (r: Parsed<Expr>)
    ensures r.Ok? ==> |r.rest| < |ts| && !r.value.Binary?
    decreases |ts|, 0
  {
    if Peek(ts).tok == LParen then
      match ParseExpr(ts[1..], df)
      case Fail(error) => Fail(error)
      case Ok(e, rest) =>
        if Peek(rest).tok == RParen then Ok(Paren(e.value), rest[1..])
        else Fail(ExpectedRParen(Describe(Peek(rest))))
    else if Peek(ts).tok != Str then Fail(ExpectedFieldOrTerm(Describe(Peek(ts))))
    else if Peek(ts[1..]).tok == Colon then
      if Peek(ts[2..]).tok == Str then Ok(Field(ts[0].lit, ts[2].lit), ts[3..])
      else Fail(ExpectedTerm(Describe(Peek(ts[2..]))))
    else Ok(Field(df, ts[0].lit), ts[1..])
  }

  // ----- Derivations -----

  datatype Syntax = Chain(first: Operand, links: Links)

  datatype Links = End | Link(conn: Conn, operand: Operand, tail: Links)

  /** How an operand is joined to the one before it: by an operator as written, or by nothing,
      which stands for AND. */
  datatype Conn = Implied | Written(op: Operator, lit: string) {
    function Op(): Operator {
      if Implied? then And else op
    }
    function Tokens(): seq<Lexeme> {
      if Implied? then [] else [Lexeme(op, lit)]
    }
  }

  datatype Operand =
    | Term(term: string)
    | FieldTerm(field: string, term: string)
    | Group(inner: Syntax)

  /** The token sequence a derivation derives. */
  function Tokens(s: Syntax): (ts: seq<Lexeme>)
    ensures ts != []
  {
    OperandTokens(s.first) + LinkTokens(s.links)
  }

  function LinkTokens(l: Links): seq<Lexeme> {
    match l
    case End => []
    case Link(conn, o, tail) => conn.Tokens() + OperandTokens(o) + LinkTokens(tail)
  }

  function OperandTokens(o: Operand): (ts: seq<Lexeme>)
    ensures ts != [] && (ts[0].tok == Str || ts[0].tok == LParen)
  {
    match o
    case Term(t) => [Lexeme(Str, t)]
    case FieldTerm(f, t) => [Lexeme(Str, f), Lexeme(Colon, ":"), Lexeme(Str, t)]
    case Group(s) => [Lexeme(LParen, "(")] + Tokens(s) + [Lexeme(RParen, ")")]
  }

  /** The tree a derivation builds. */
  function Build(s: Syntax, df: string): Expr {
    BuildLinks(BuildOperand(s.first, df), s.links, df)
  }

  function BuildLinks(e: Expr, l: Links, df: string): Expr
    decreases l
  {
    match l
    case End => e
    case Link(conn, o, tail) => BuildLinks(Combine(e, conn.Op(), BuildOperand(o, df)), tail, df)
  }

  function BuildOperand(o: Operand, df: string): (e: Expr)
    ensures !e.Binary?
  {
    match o
    case Term(t) => Field(df, t)
    case FieldTerm(f, t) => Field(f, t)
    case Group(s) => Paren(Build(s, df))
  }

  /** What may follow a whole expression: the end of the query or a closing parenthesis. */
  predicate Closes(rest: seq<Lexeme>) {
    rest == [] || rest[0].tok == RParen
  }

  // ----- Completeness: everything the grammar derives is parsed, to the tree it derives -----

  lemma {:induction false} CompleteExpr(s: Syntax, rest: seq<Lexeme>, df: string)
    requires Closes(rest)
    ensures ParseExpr(Tokens(s) + rest, df) == Ok(Some(Build(s, df)), rest)
    decreases s
  {
    var ts := Tokens(s) + rest;
    assert ts == OperandTokens(s.first) + (LinkTokens(s.links) + rest);
    LinksDoNotStartWithColon(s.links, rest);
    CompleteLinks(BuildOperand(s.first, df), s.links, rest, df);
    CompleteOperand(s.first, LinkTokens(s.links) + rest, df);
  }

  /** One turn of the parser's loop, on a connective followed by something that can start an operand. */
  lemma LinkStep(e: Expr, conn: Conn, body: seq<Lexeme>, df: string)
    requires body != [] && body[0].tok != RParen && !body[0].tok.IsOperator()
    ensures ParseLinks(e, conn.Tokens() + body, df) ==
            var o := ParseOperand(body, df);
            if o.Fail? then Fail(o.error) else ParseLinks(Combine(e, conn.Op(), o.value), o.rest, df)
  {
    var ts := conn.Tokens() + body;
    if conn.Written? {
      assert ts[1..] == body;
    } else {
      assert ts == body;
    }
  }

  lemma LinksDoNotStartWithColon(l: Links, rest: seq<Lexeme>)
    requires Closes(rest)
    ensures var ts := LinkTokens(l) + rest; ts != [] ==> ts[0].tok != Colon
  {
    match l
    case End =>
    case Link(conn, o, tail) =>
      var front := conn.Tokens() + OperandTokens(o);
      assert LinkTokens(l) + rest == front + (LinkTokens(tail) + rest);
  }

  lemma {:induction false} CompleteLinks(e: Expr, l: Links, rest: seq<Lexeme>, df: string)
    requires Closes(rest)
    ensures ParseLinks(e, LinkTokens(l) + rest, df) == Ok(Some(BuildLinks(e, l, df)), rest)
    decreases l
  {
    match l
    case End =>
      assert LinkTokens(l) + rest == rest;
    case Link(conn, o, tail) =>
      var after := LinkTokens(tail) + rest;
      var body := OperandTokens(o) + after;
      assert LinkTokens(l) + rest == conn.Tokens() + body;
      LinkStep(e, conn, body, df);
      LinksDoNotStartWithColon(tail, rest);
      CompleteOperand(o, after, df);
      CompleteLinks(Combine(e, conn.Op(), BuildOperand(o, df)), tail, rest, df);
  }

  lemma {:induction false} CompleteOperand(o: Operand, rest: seq<Lexeme>, df: string)
    requires rest != [] ==> rest[0].tok != Colon
    ensures ParseOperand(OperandTokens(o) + rest, df) == Ok(BuildOperand(o, df), rest)
    decreases o
  {
    var ts := OperandTokens(o) + rest;
    match o
    case Term(t) =>
      assert ts[1..] == rest;
    case FieldTerm(f, t) =>
      assert ts[1..][0] == Lexeme(Colon, ":");
      assert ts[2..][0] == Lexeme(Str, t);
      assert ts[3..] == rest;
    case Group(s) =>
      var close := [Lexeme(RParen, ")")] + rest;
      assert ts[1..] == Tokens(s) + close;
      CompleteExpr(s, close, df);
      assert close[1..] == rest;
  }

  // ----- Soundness: everything parsed has a derivation -----

  /** Lexemes as the lexer writes them, without blanks. */
  ghost predicate Significant(ts: seq<Lexeme>) {
    forall i | 0 <= i < |ts| :: ValidLexeme(ts[i]) && ts[i].tok != Ws
  }

  lemma {:induction false} SoundExpr(ts: seq<Lexeme>, df: string) returns (s: Syntax)
    requires Significant(ts)
    requires ParseExpr(ts, df).Ok? && ParseExpr(ts, df).value.Some?
    ensures var r := ParseExpr(ts, df);
            Closes(r.rest) && ts == Tokens(s) + r.rest && r.value.value == Build(s, df)
    decreases |ts|, 1
  {
    var o := SoundOperand(ts, df);
    var Ok(e, mid) := ParseOperand(ts, df);
    SignificantSuffix(ts, OperandTokens(o), mid);
    var l := SoundLinks(e, mid, df);
    s := Chain(o, l);
    ChainTokens(o, l, ParseLinks(e, mid, df).rest);
  }

  lemma ChainTokens(o: Operand, l: Links, rest: seq<Lexeme>)
    ensures OperandTokens(o) + (LinkTokens(l) + rest) == Tokens(Chain(o, l)) + rest
  {
  }

  lemma {:induction false} SoundLinks(e: Expr, ts: seq<Lexeme>, df: string) returns (l: Links)
    requires Significant(ts)
    requires ParseLinks(e, ts, df).Ok?
    ensures var r := ParseLinks(e, ts, df);
            Closes(r.rest) && ts == LinkTokens(l) + r.rest && r.value.value == BuildLinks(e, l, df)
    decreases |ts|, 1
  {
    if Closes(ts) {
      l := End;
      assert LinkTokens(l) == [];
    } else {
      var conn := if ts[0].tok.IsOperator() then Written(ts[0].tok, ts[0].lit) else Implied;
      var body := if ts[0].tok.IsOperator() then ts[1..] else ts;
      assert ts == conn.Tokens() + body;
      var o := SoundOperand(body, df);
      var Ok(rhs, mid) := ParseOperand(body, df);
      SignificantSuffix(body, OperandTokens(o), mid);
      var tail := SoundLinks(Combine(e, conn.Op(), rhs), mid, df);
      l := Link(conn, o, tail);
      LinkTokensCons(conn, o, tail, ParseLinks(e, ts, df).rest);
    }
  }

  lemma SignificantSuffix(ts: seq<Lexeme>, front: seq<Lexeme>, back: seq<Lexeme>)
    requires Significant(ts) && ts == front + back
    ensures Significant(back)
  {
    assert forall i | 0 <= i < |back| :: back[i] == ts[i + |front|];
  }

  lemma LinkTokensCons(conn: Conn, o: Operand, tail: Links, rest: seq<Lexeme>)
    ensures conn.Tokens() + (OperandTokens(o) + (LinkTokens(tail) + rest)) == LinkTokens(Link(conn, o, tail)) + rest
  {
  }

  lemma {:induction false} SoundOperand(ts: seq<Lexeme>, df: string) returns (o: Operand)
    requires Significant(ts)
    requires ParseOperand(ts, df).Ok?
    ensures var r := ParseOperand(ts, df);
            ts == OperandTokens(o) + r.rest && r.value == BuildOperand(o, df)
    decreases |ts|, 0
  {
    var r := ParseOperand(ts, df);
    if Peek(ts).tok == LParen {
      var s := SoundExpr(ts[1..], df);
      GroupTokens(ts, s, ParseExpr(ts[1..], df).rest);
      o := Group(s);
    } else if Peek(ts[1..]).tok == Colon {
      o := FieldTerm(ts[0].lit, ts[2].lit);
      assert ts[1] == ts[1..][0] && ts[2] == ts[2..][0];
      assert ts == [ts[0], ts[1], ts[2]] + ts[3..];
    } else {
      o := Term(ts[0].lit);
      assert ts == [ts[0]] + ts[1..];
    }
  }

  lemma GroupTokens(ts: seq<Lexeme>, s: Syntax, rest: seq<Lexeme>)
    requires Significant(ts) && Peek(ts).tok == LParen && Peek(rest).tok == RParen
    requires ts[1..] == Tokens(s) + rest
    ensures ts == OperandTokens(Group(s)) + rest[1..]
  {
    assert rest[0] == ts[|ts| - |rest|];
    assert ts == [ts[0]] + (Tokens(s) + ([rest[0]] + rest[1..]));
  }

  /** A derivation `s` of the front of `ts`, cut where an expression may end. */
  ghost predicate Derives(s: Syntax, ts: seq<Lexeme>, rest: seq<Lexeme>) {
    ts == Tokens(s) + rest && Closes(rest)
  }

  /** Parse accepts exactly the token sequences that begin with an Expr followed by the end or
      by a closing parenthesis; it stops right there, and there is only one place to stop. */
  lemma ParseAcceptsExactlyTheGrammar(ts: seq<Lexeme>, df: string)
    requires Significant(ts)
    ensures var r := ParseExpr(ts, df);
            && ((r.Ok? && r.value.Some?) <==> exists s, rest :: Derives(s, ts, rest))
            && (r.Ok? && r.value.None? <==> ts == [])
            && (forall s, rest | Derives(s, ts, rest) :: r == Ok(Some(Build(s, df)), rest))
  {
    var r := ParseExpr(ts, df);
    if r.Ok? && r.value.Some? {
      var s := SoundExpr(ts, df);
      assert Derives(s, ts, r.rest);
    }
    forall s, rest | Derives(s, ts, rest) ensures r == Ok(Some(Build(s, df)), rest) {
      CompleteExpr(s, rest, df);
    }
  }
}
