/** The query parser object (query/parser.go): recursive descent over a lexer with one token of pushback. */
module QueryParser {
  import opened Wrappers
  import opened QueryTokens
  import opened QueryLexer
  import opened QueryGrammar
  import opened QueryReading

  class Parser {
    const lexer: Lexer
    const defaultField: string
    var buf: Lexeme
    var n: nat

    ghost predicate Valid()
      reads this, lexer
    {
      lexer.Valid() && n <= 1 && (n == 1 ==> Pushable())
    }

    /** Eof is pushed back only as the lexer returns it. */
    ghost predicate Pushable()
      reads this
    {
      buf.tok == Eof ==> buf == EOF_LEXEME
    }

    /** The tokens still to come, blanks and those behind a NUL included. */
    ghost function Pending(): seq<Lexeme>
      reads this, lexer
      requires Valid()
    {
      if n == 1 then Prepend(buf, AllTokens(lexer.Rest())) else AllTokens(lexer.Rest())
    }

    lemma PendingIsNormal()
      requires Valid()
      ensures Normal(Pending())
    {
      AllTokensNormal(lexer.Rest());
      if n == 1 { PrependIsNormal(buf, AllTokens(lexer.Rest())); }
    }

    constructor (text: string, field: string)
      ensures Valid() && fresh(lexer) && defaultField == field
      ensures lexer.input == text && lexer.pos == 0 && n == 0
    {
      var l := new Lexer(text);
      lexer, defaultField, buf, n := l, field, Lexeme(Illegal, ""), 0;
    }

    lemma InitiallyEverythingIsPending()
      requires Valid() && lexer.pos == 0 && n == 0
      ensures Pending() == AllTokens(lexer.input)
    {
      assert lexer.Rest() == lexer.input;
    }

    /** The token pushed back, or the lexer's next. */
    method Lex() returns (x: Lexeme)
      requires Valid()
      modifies this, lexer
      ensures Valid() && n == 0 && x == buf && Pushable()
      ensures x == Peek(old(Pending())) && Pending() == Drop(old(Pending()))
    {
      if n != 0 {
        AllTokensNormal(lexer.Rest());
        PrependIsNormal(buf, AllTokens(lexer.Rest()));
        n := 0;
        return buf;
      }
      LexerStep(lexer.Rest());
      EofHasNoText(lexer.Rest());
      x := lexer.Lex();
      buf := x;
    }

    /** Pushes the token that was read last back onto the stream. */
    method Unlex()
      requires Valid() && n == 0 && Pushable()
      modifies this
      ensures Valid() && buf == old(buf)
      ensures Pending() == Prepend(buf, old(Pending()))
    {
      n := 1;
    }

    method LexIgnoreWhitespace() returns (x: Lexeme)
      requires Valid()
      modifies this, lexer
      ensures Valid() && n == 0 && x == buf && Pushable()
      ensures x == Peek(Skip(old(Pending()))) && Pending() == Drop(Skip(old(Pending())))
      ensures Prepend(x, Pending()) == Skip(old(Pending()))  // what is pending if it is pushed back
    {
      PendingIsNormal();
      PushedBack(Pending());
      PushedBack(Skip(Pending()));
      x := Lex();
      if x.tok == Ws {
        x := Lex();
      }
    }

    /** The outcome of a call agrees with what reading the pending tokens should give. */
    ghost predicate Agrees<T(!new)>(r: Parsed<T>, value: Option<T>, err: Option<ParseError>)
      reads this, lexer
      requires Valid()
    {
      if r.Ok? then value == Some(r.value) && err == None && Pending() == r.rest
      else value == None && err == Some(r.error)
    }

    method Parse() returns (expr: Option<Expr>, err: Option<ParseError>)
      requires Valid()
      modifies this, lexer
      ensures Valid()
      ensures var r := ReadExpr(old(Pending()), defaultField);
              if r.Ok? then err == None && expr == r.value && Pending() == r.rest
              else err == Some(r.error) && expr == None
      decreases |Pending()|, 1
    {
      ghost var ts := Pending();
      var x := LexIgnoreWhitespace();
      if x.tok == Eof {
        return None, None;
      }
      Unlex();

      var e, fail := ParseFieldExpr();
      if fail.Some? {
        return None, fail;
      }
      expr := e;
      while true
        invariant Valid() && expr.Some? && |Pending()| < |ts|
        invariant ReadExpr(ts, defaultField) == ReadLinks(expr.value, Pending(), defaultField)
        decreases |Pending()|
      {
        x := LexIgnoreWhitespace();
        var op: Operator := And;
        if x.tok == Eof {
          return expr, None;
        } else if x.tok == RParen {
          Unlex();
          return expr, None;
        } else if !x.tok.IsOperator() {
          Unlex();
        } else {
          op := x.tok;
        }
        var rhs, failure := ParseFieldExpr();
        if failure.Some? {
          return None, failure;
        }
        expr := Some(Combine(expr.value, op, rhs.value));
      }
    }

    method ParseFieldExpr() returns (expr: Option<Expr>, err: Option<ParseError>)
      requires Valid()
      modifies this, lexer
      ensures Valid()
      ensures Agrees(ReadOperand(old(Pending()), defaultField), expr, err)
      decreases |Pending()|, 0
    {
      var x := LexIgnoreWhitespace();
      if x.tok == LParen {
        var inner, fail := Parse();
        if fail.Some? {
          return None, fail;
        }
        x := LexIgnoreWhitespace();
        if x.tok != RParen {
          return None, Some(ExpectedRParen(Describe(x)));
        }
        return Some(if inner.Some? then Paren(inner.value) else EmptyParen), None;
      }
      Unlex();

      var f1 := LexIgnoreWhitespace();
      if f1.tok != Str {
        return None, Some(ExpectedFieldOrTerm(Describe(f1)));
      }
      x := LexIgnoreWhitespace();
      if x.tok == Colon {
        var f2 := LexIgnoreWhitespace();
        if f2.tok != Str {
          return None, Some(ExpectedTerm(Describe(f2)));
        }
        return Some(Field(f1.lit, f2.lit)), None;
      }
      Unlex();
      return Some(Field(defaultField, f1.lit)), None;
    }
  }

  /** Parsing a whole query text, whatever it holds; without NUL that is parsing its significant tokens. */
  method ParseQuery(text: string, defaultField: string) returns (expr: Option<Expr>, err: Option<ParseError>)
    ensures Returns(ReadText(text, defaultField), expr, err)
    ensures NulFree(text) ==> Returns(ParseText(text, defaultField), expr, err)
  {
    if NulFree(text) { ReadingIsParsing(text, defaultField); }
    var p := new Parser(text, defaultField);
    p.InitiallyEverythingIsPending();
    expr, err := p.Parse();
  }

  predicate Returns(r: Parsed<Option<Expr>>, expr: Option<Expr>, err: Option<ParseError>) {
    if r.Ok? then err == None && expr == r.value else err == Some(r.error) && expr == None
  }
}
