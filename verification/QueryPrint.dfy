/** Printing a parsed query (query/parser.go:16-43) and reading it back. A parenthesised expression has no String
    method; printed in parentheses, as it should be, every query comes back as the identical tree, and printed as the
    code does it, exactly the queries without parentheses do. */
module QueryPrint {
  import opened Wrappers
  import opened QueryTokens
  import opened QueryLexer
  import opened QueryGrammar
  import opened QueryReading

  /** The printed form in which a group is in parentheses. */
  function Print(t: Expr): string {
    match t
    case Field(f, term) => f + ":" + term
    case Binary(op, l, r) => Spaced(Print(l), op, Print(r))
    case Paren(e) => "(" + Print(e) + ")"
    case EmptyParen => "()"
  }

  const BLANK := Lexeme(Ws, " ")

  function OperatorLexeme(op: Operator): Lexeme {
    Lexeme(op, op.Text())
  }

  /** The lexemes, blanks included, that a printed tree is made of. */
  function Printed(t: Expr): (ts: seq<Lexeme>)
    ensures ts != []
  {
    match t
    case Field(f, term) => [Lexeme(Str, f), Lexeme(Colon, ":"), Lexeme(Str, term)]
    case Binary(op, l, r) => Printed(l) + [BLANK, OperatorLexeme(op), BLANK] + Printed(r)
    case Paren(e) => [Lexeme(LParen, "(")] + Printed(e) + [Lexeme(RParen, ")")]
    case EmptyParen => [Lexeme(LParen, "("), Lexeme(RParen, ")")]
  }

  lemma {:induction false} ConcatAppend(a: seq<Lexeme>, b: seq<Lexeme>)
    ensures Concat(a + b) == Concat(a) + Concat(b)
  {
    if a == [] {
      assert a + b == b;
    } else {
      assert (a + b)[1..] == a[1..] + b;
      ConcatAppend(a[1..], b);
    }
  }

  lemma {:induction false} NonBlankAppend(a: seq<Lexeme>, b: seq<Lexeme>)
    ensures NonBlank(a + b) == NonBlank(a) + NonBlank(b)
  {
    if a == [] {
      assert a + b == b;
    } else {
      assert (a + b)[1..] == a[1..] + b;
      NonBlankAppend(a[1..], b);
    }
  }

  lemma ThreeLexemes(a: Lexeme, b: Lexeme, c: Lexeme)
    ensures Concat([a, b, c]) == a.lit + b.lit + c.lit
    ensures NonBlank([a, b, c]) == NonBlank([a]) + NonBlank([b]) + NonBlank([c])
  {
    assert [a, b, c] == [a] + [b] + [c];
    ConcatAppend([a] + [b], [c]);
    ConcatAppend([a], [b]);
    NonBlankAppend([a] + [b], [c]);
    NonBlankAppend([a], [b]);
    OneLexeme(a);
    OneLexeme(b);
    OneLexeme(c);
  }

  lemma OneLexeme(x: Lexeme)
    ensures Concat([x]) == x.lit
    ensures NonBlank([x]) == if x.tok == Ws then [] else [x]
  {
    assert [x][1..] == [];
  }

  lemma {:induction false} PrintIsConcat(t: Expr)
    ensures Print(t) == Concat(Printed(t))
  {
    match t
    case Field(f, term) =>
      ThreeLexemes(Lexeme(Str, f), Lexeme(Colon, ":"), Lexeme(Str, term));
    case Binary(op, l, r) =>
      PrintIsConcat(l);
      PrintIsConcat(r);
      var mid := [BLANK, OperatorLexeme(op), BLANK];
      ThreeLexemes(BLANK, OperatorLexeme(op), BLANK);
      ConcatAppend(Printed(l) + mid, Printed(r));
      ConcatAppend(Printed(l), mid);
    case Paren(e) =>
      PrintIsConcat(e);
      var open, close := [Lexeme(LParen, "(")], [Lexeme(RParen, ")")];
      OneLexeme(open[0]);
      OneLexeme(close[0]);
      ConcatAppend(open + Printed(e), close);
      ConcatAppend(open, Printed(e));
    case EmptyParen =>
      var open, close := [Lexeme(LParen, "(")], [Lexeme(RParen, ")")];
      OneLexeme(open[0]);
      OneLexeme(close[0]);
      ConcatAppend(open, close);
      assert open + close == Printed(t);
  }

  // ----- The printed lexemes are canonical -----

  predicate ValidTerm(s: string) {
    ValidLexeme(Lexeme(Str, s))
  }

  /** Every field and term in the tree is a word the lexer reads as one STRING. */
  predicate WellLexed(t: Expr) {
    match t
    case Field(f, term) => ValidTerm(f) && ValidTerm(term)
    case Binary(_, l, r) => WellLexed(l) && WellLexed(r)
    case Paren(e) => WellLexed(e)
    case EmptyParen => false
  }

  lemma CanonicalAppend(a: seq<Lexeme>, b: seq<Lexeme>)
    requires Canonical(a) && Canonical(b)
    requires a != [] && b != [] ==> !Fuse(a[|a| - 1], b[0])
    ensures Canonical(a + b)
  {
  }

  lemma OperatorTextIsKeyword(op: Operator)
    ensures ValidLexeme(OperatorLexeme(op))
  {
    var t := op.Text();
    assert op == And ==> LowerAll(t) == "and";
    assert op == Or ==> LowerAll(t) == "or";
    assert op == Not ==> LowerAll(t) == "not";
  }

  lemma {:induction false} PrintedCanonical(t: Expr)
    requires WellLexed(t)
    ensures Tight(Printed(t))
    decreases t
  {
    match t
    case Field(f, term) =>
    case Binary(op, l, r) =>
      PrintedCanonical(l);
      PrintedCanonical(r);
      BinaryCanonical(Printed(l), op, Printed(r));
    case Paren(e) =>
      PrintedCanonical(e);
      ParenCanonical(Printed(e));
  }

  ghost predicate Tight(ts: seq<Lexeme>) {
    Canonical(ts) && ts != [] && ts[0].tok != Ws && ts[|ts| - 1].tok != Ws
  }

  lemma BinaryCanonical(l: seq<Lexeme>, op: Operator, r: seq<Lexeme>)
    requires Tight(l) && Tight(r)
    ensures Tight(l + [BLANK, OperatorLexeme(op), BLANK] + r)
  {
    OperatorTextIsKeyword(op);
    var mid := [BLANK, OperatorLexeme(op), BLANK];
    assert Canonical(mid);
    CanonicalAppend(l, mid);
    CanonicalAppend(l + mid, r);
  }

  lemma ParenCanonical(ts: seq<Lexeme>)
    requires Tight(ts)
    ensures Tight([Lexeme(LParen, "(")] + ts + [Lexeme(RParen, ")")])
  {
    CanonicalAppend([Lexeme(LParen, "(")], ts);
    CanonicalAppend([Lexeme(LParen, "(")] + ts, [Lexeme(RParen, ")")]);
  }

  // ----- Their significant tokens derive the same tree -----

  function Kept(t: Expr): seq<Lexeme> {
    NonBlank(Printed(t))
  }

  lemma KeptField(f: string, term: string)
    ensures Kept(Field(f, term)) == OperandTokens(FieldTerm(f, term))
  {
    var a, b, c := Lexeme(Str, f), Lexeme(Colon, ":"), Lexeme(Str, term);
    ThreeLexemes(a, b, c);
    OneLexeme(a);
    OneLexeme(b);
    OneLexeme(c);
  }

  lemma KeptBinary(op: Operator, l: Expr, r: Expr)
    ensures Kept(Binary(op, l, r)) == Kept(l) + [OperatorLexeme(op)] + Kept(r)
  {
    var mid := [BLANK, OperatorLexeme(op), BLANK];
    ThreeLexemes(BLANK, OperatorLexeme(op), BLANK);
    OneLexeme(BLANK);
    OneLexeme(OperatorLexeme(op));
    NonBlankAppend(Printed(l) + mid, Printed(r));
    NonBlankAppend(Printed(l), mid);
  }

  lemma KeptParen(e: Expr)
    ensures Kept(Paren(e)) == [Lexeme(LParen, "(")] + Kept(e) + [Lexeme(RParen, ")")]
  {
    var open, close := [Lexeme(LParen, "(")], [Lexeme(RParen, ")")];
    OneLexeme(open[0]);
    OneLexeme(close[0]);
    NonBlankAppend(open + Printed(e), close);
    NonBlankAppend(open, Printed(e));
  }

  lemma KeptCombine(e: Expr, op: Operator, rhs: Expr)
    ensures Kept(Combine(e, op, rhs)) == Kept(e) + [OperatorLexeme(op)] + Kept(rhs)
  {
    KeptBinary(op, e, rhs);
    if e.Binary? {
      KeptBinary(e.op, e.lhs, e.rhs);
      KeptBinary(op, e.rhs, rhs);
      KeptBinary(e.op, e.lhs, Binary(op, e.rhs, rhs));
    }
  }

  /** The derivation with every field and operator written out. */
  function Explicit(s: Syntax, df: string): Syntax {
    Chain(ExplicitOperand(s.first, df), ExplicitLinks(s.links, df))
  }

  function ExplicitLinks(l: Links, df: string): Links {
    match l
    case End => End
    case Link(conn, o, tail) =>
      Link(Written(conn.Op(), conn.Op().Text()), ExplicitOperand(o, df), ExplicitLinks(tail, df))
  }

  function ExplicitOperand(o: Operand, df: string): Operand {
    match o
    case Term(t) => FieldTerm(df, t)
    case FieldTerm(f, t) => FieldTerm(f, t)
    case Group(s) => Group(Explicit(s, df))
  }

  lemma {:induction false} ExplicitBuildsTheSame(s: Syntax, df: string)
    ensures Build(Explicit(s, df), df) == Build(s, df)
    decreases s
  {
    ExplicitOperandBuildsTheSame(s.first, df);
    ExplicitLinksBuildTheSame(BuildOperand(s.first, df), s.links, df);
  }

  lemma {:induction false} ExplicitLinksBuildTheSame(e: Expr, l: Links, df: string)
    ensures BuildLinks(e, ExplicitLinks(l, df), df) == BuildLinks(e, l, df)
    decreases l
  {
    if l.Link? {
      ExplicitOperandBuildsTheSame(l.operand, df);
      ExplicitLinksBuildTheSame(Combine(e, l.conn.Op(), BuildOperand(l.operand, df)), l.tail, df);
    }
  }

  lemma {:induction false} ExplicitOperandBuildsTheSame(o: Operand, df: string)
    ensures BuildOperand(ExplicitOperand(o, df), df) == BuildOperand(o, df)
    decreases o
  {
    if o.Group? { ExplicitBuildsTheSame(o.inner, df); }
  }

  lemma {:induction false} PrintedDerivation(s: Syntax, df: string)
    ensures Kept(Build(s, df)) == Tokens(Explicit(s, df))
    decreases s
  {
    PrintedOperand(s.first, df);
    PrintedLinks(BuildOperand(s.first, df), s.links, df);
  }

  lemma {:induction false} PrintedLinks(e: Expr, l: Links, df: string)
    ensures Kept(BuildLinks(e, l, df)) == Kept(e) + LinkTokens(ExplicitLinks(l, df))
    decreases l
  {
    match l
    case End =>
      assert Kept(e) + [] == Kept(e);
    case Link(conn, o, tail) =>
      var rhs := BuildOperand(o, df);
      PrintedOperand(o, df);
      KeptCombine(e, conn.Op(), rhs);
      PrintedLinks(Combine(e, conn.Op(), rhs), tail, df);
      SeqAssoc(Kept(e), [OperatorLexeme(conn.Op())], Kept(rhs), LinkTokens(ExplicitLinks(tail, df)));
  }

  lemma SeqAssoc(a: seq<Lexeme>, b: seq<Lexeme>, c: seq<Lexeme>, d: seq<Lexeme>)
    ensures a + b + c + d == a + (b + c + d)
  {
  }

  lemma {:induction false} PrintedOperand(o: Operand, df: string)
    ensures Kept(BuildOperand(o, df)) == OperandTokens(ExplicitOperand(o, df))
    decreases o
  {
    match o
    case Term(t) => KeptField(df, t);
    case FieldTerm(f, t) => KeptField(f, t);
    case Group(s) =>
      PrintedDerivation(s, df);
      KeptParen(Build(s, df));
  }

  // ----- A tree parsed from text is made of words the lexer reads -----

  lemma {:induction false} BuiltWellLexed(s: Syntax, df: string)
    requires Significant(Tokens(s)) && ValidTerm(df)
    ensures WellLexed(Build(s, df))
    decreases s
  {
    SplitSignificant(OperandTokens(s.first), LinkTokens(s.links));
    OperandWellLexed(s.first, df);
    LinksWellLexed(BuildOperand(s.first, df), s.links, df);
  }

  lemma {:induction false} LinksWellLexed(e: Expr, l: Links, df: string)
    requires Significant(LinkTokens(l)) && ValidTerm(df) && WellLexed(e)
    ensures WellLexed(BuildLinks(e, l, df))
    decreases l
  {
    if l.Link? {
      SplitSignificant(l.conn.Tokens() + OperandTokens(l.operand), LinkTokens(l.tail));
      SplitSignificant(l.conn.Tokens(), OperandTokens(l.operand));
      OperandWellLexed(l.operand, df);
      LinksWellLexed(Combine(e, l.conn.Op(), BuildOperand(l.operand, df)), l.tail, df);
    }
  }

  lemma {:induction false} OperandWellLexed(o: Operand, df: string)
    requires Significant(OperandTokens(o)) && ValidTerm(df)
    ensures WellLexed(BuildOperand(o, df))
    decreases o
  {
    var ts := OperandTokens(o);
    match o
    case Term(t) => assert ts[0] == Lexeme(Str, t);
    case FieldTerm(f, t) => assert ts[0] == Lexeme(Str, f) && ts[2] == Lexeme(Str, t);
    case Group(s) =>
      SplitSignificant([Lexeme(LParen, "(")] + Tokens(s), [Lexeme(RParen, ")")]);
      SplitSignificant([Lexeme(LParen, "(")], Tokens(s));
      BuiltWellLexed(s, df);
  }

  lemma SplitSignificant(a: seq<Lexeme>, b: seq<Lexeme>)
    requires Significant(a + b)
    ensures Significant(a) && Significant(b)
  {
    assert forall i | 0 <= i < |a| :: a[i] == (a + b)[i];
    assert forall i | 0 <= i < |b| :: b[i] == (a + b)[|a| + i];
  }

  /** Print then parse: every query that parses, printed and parsed again, gives the identical tree, and the
      whole printed text is used. The fields in it must be words the lexer reads as a STRING, which they are unless
      the default field is none and the query uses it. */
  lemma PrintThenParse(text: string, df: string)
    requires NulFree(text) && ParseText(text, df).Ok? && ParseText(text, df).value.Some?
    requires WellLexed(ParseText(text, df).value.value)
    ensures var e := ParseText(text, df).value.value;
            NulFree(Print(e)) && ParseText(Print(e), df) == Ok(Some(e), [])
  {
    SignificantsAreSignificant(text);
    var s := SoundExpr(Significants(text), df);
    var e := Build(s, df);
    PrintIsConcat(e);
    PrintedCanonical(e);
    Relex(Printed(e));
    PrintedDerivation(s, df);
    CompleteExpr(Explicit(s, df), [], df);
    assert Tokens(Explicit(s, df)) + [] == Tokens(Explicit(s, df));
    ExplicitBuildsTheSame(s, df);
  }

  // ----- Printing as the code does it -----

  /** Two printed operands and their operator. */
  function Spaced(a: string, op: Operator, b: string): string {
    a + " " + op.Text() + " " + b
  }

  lemma OperatorsArePrinted(a: string, b: string)
    ensures Spaced(a, And, b) == a + " AND " + b
    ensures Spaced(a, Or, b) == a + " OR " + b
    ensures Spaced(a, Not, b) == a + " NOT " + b
  {
  }

  /** The text is one that the code prints for the tree. A group is printed as a pointer to a structure; directly inside
      another group it is a complaint about the format with an address in it, for which any text stands here. */
  ghost predicate Prints(t: Expr, text: string) {
    match t
    case Field(f, term) => text == f + ":" + term
    case Binary(op, l, r) => exists a, b :: Prints(l, a) && Prints(r, b) && text == Spaced(a, op, b)
    case Paren(e) => exists inside :: text == Braced(inside) && NulFree(inside) && (IsGroup(e) || Prints(e, inside))
    case EmptyParen => text == Braced("<nil>")
  }

  predicate IsGroup(e: Expr) {
    e.Paren? || e.EmptyParen?
  }

  function Braced(inside: string): string {
    "&{" + inside + "}"
  }

  lemma {:induction false} SomethingIsPrinted(t: Expr) returns (text: string)
    requires WellLexed(t)
    ensures Prints(t, text)
  {
    match t
    case Field(f, term) => text := f + ":" + term;
    case Binary(op, l, r) =>
      var a := SomethingIsPrinted(l);
      var b := SomethingIsPrinted(r);
      text := Spaced(a, op, b);
    case Paren(e) =>
      var inside := SomethingIsPrinted(e);
      PrintsText(e, inside);
      text := Braced(inside);
  }

  predicate HoldsGroup(t: Expr) {
    match t
    case Field(_, _) => false
    case Binary(_, l, r) => HoldsGroup(l) || HoldsGroup(r)
    case _ => true
  }

  /** Without groups the code prints the intended form. */
  lemma {:induction false} PrintsIntended(t: Expr, text: string)
    requires !HoldsGroup(t)
    ensures Prints(t, text) <==> text == Print(t)
  {
    if t.Binary? {
      PrintsIntended(t.lhs, Print(t.lhs));
      PrintsIntended(t.rhs, Print(t.rhs));
      forall a, b | Prints(t.lhs, a) && Prints(t.rhs, b) ensures a == Print(t.lhs) && b == Print(t.rhs) {
        PrintsIntended(t.lhs, a);
        PrintsIntended(t.rhs, b);
      }
    }
  }

  lemma NulFreeAppend(a: string, b: string)
    requires NulFree(a) && NulFree(b)
    ensures NulFree(a + b)
  {
  }

  lemma OperatorTextHasNoNul(op: Operator)
    ensures NulFree(op.Text())
  {
  }

  lemma SpacedText(a: string, op: Operator, b: string)
    requires NulFree(a) && NulFree(b) && a != ""
    ensures NulFree(Spaced(a, op, b)) && Spaced(a, op, b) != "" && Spaced(a, op, b)[0] == a[0]
  {
    OperatorTextHasNoNul(op);
    NulFreeAppend(a, " ");
    NulFreeAppend(a + " ", op.Text());
    NulFreeAppend(a + " " + op.Text(), " ");
    NulFreeAppend(a + " " + op.Text() + " ", b);
  }

  lemma FieldText(f: string, term: string)
    requires ValidTerm(f) && ValidTerm(term)
    ensures NulFree(f + ":" + term) && StartsText(f + ":" + term)
  {
    assert f[0] in f;
  }

  /** The text starts neither with a blank nor with a parenthesis. */
  predicate StartsText(s: string) {
    s != "" && !IsWhitespace(s[0]) && !IsParen(s[0])
  }

  lemma {:induction false} PrintsText(t: Expr, text: string)
    requires WellLexed(t) && Prints(t, text)
    ensures NulFree(text) && StartsText(text)
  {
    match t
    case Field(f, term) => FieldText(f, term);
    case Binary(op, l, r) =>
      var a, b :| Prints(l, a) && Prints(r, b) && text == Spaced(a, op, b);
      PrintsText(l, a);
      PrintsText(r, b);
      SpacedText(a, op, b);
    case Paren(e) =>
  }

  lemma OddCharacterIsNoKeyword(s: string, i: nat)
    requires i < |s| && (s[i] == '&' || s[i] == '}')
    ensures Classify(s) == Lexeme(Str, s)
  {
    assert LowerAll(s)[i] == s[i];
  }

  /** A printed group reads as a word first. */
  lemma AmpersandStartsWord(s: string)
    requires s != "" && s[0] == '&' && NulFree(s)
    ensures Significants(s) != [] && Significants(s)[0].tok == Str
  {
    var n := StringRun(s);
    assert n > 0 && s[..n][0] == '&';
    OddCharacterIsNoKeyword(s[..n], 0);
    assert LexAll(s)[0] == LexHead(s).0;
  }

  /** An opening parenthesis comes at position n or before. */
  ghost predicate GroupBy(ts: seq<Lexeme>, n: int) {
    exists i | 0 <= i <= n && i < |ts| :: ts[i].tok == LParen
  }

  lemma GroupByAppend(a: seq<Lexeme>, b: seq<Lexeme>, n: int)
    ensures GroupBy(a + b, n) <==> GroupBy(a, n) || GroupBy(b, n - |a|)
  {
    var ts := a + b;
    if GroupBy(ts, n) {
      var i :| 0 <= i <= n && i < |ts| && ts[i].tok == LParen;
      if i < |a| { assert a[i].tok == LParen; } else { assert b[i - |a|].tok == LParen; }
    }
    if GroupBy(a, n) {
      var i :| 0 <= i <= n && i < |a| && a[i].tok == LParen;
      assert ts[i].tok == LParen;
    }
    if GroupBy(b, n - |a|) {
      var i :| 0 <= i <= n - |a| && i < |b| && b[i].tok == LParen;
      assert ts[|a| + i].tok == LParen;
    }
  }

  lemma GroupByLater(ts: seq<Lexeme>, m: int, n: int)
    requires GroupBy(ts, m) && m <= n
    ensures GroupBy(ts, n)
  {
  }

  lemma {:induction false} NoGroupKept(t: Expr, n: int)
    requires !HoldsGroup(t)
    ensures !GroupBy(Kept(t), n)
  {
    match t
    case Field(f, term) => KeptField(f, term);
    case Binary(op, l, r) =>
      KeptBinary(op, l, r);
      NoGroupKept(l, n);
      NoGroupKept(r, n - |Kept(l) + [OperatorLexeme(op)]|);
      GroupByAppend(Kept(l) + [OperatorLexeme(op)], Kept(r), n);
      GroupByAppend(Kept(l), [OperatorLexeme(op)], n);
  }

  lemma SpacedConcat(l: Expr, op: Operator, rest: string)
    ensures Concat(Printed(l) + [BLANK, OperatorLexeme(op), BLANK]) + rest == Spaced(Print(l), op, rest)
  {
    var mid := [BLANK, OperatorLexeme(op), BLANK];
    PrintIsConcat(l);
    ConcatAppend(Printed(l), mid);
    ThreeLexemes(BLANK, OperatorLexeme(op), BLANK);
    SpacedRegroup(Print(l), op.Text(), rest);
  }

  lemma SpacedRegroup(a: string, op: string, b: string)
    ensures a + (" " + op + " ") + b == a + " " + op + " " + b
  {
  }

  lemma SpacedTokens(l: Expr, op: Operator, more: seq<Lexeme>)
    ensures NonBlank(Printed(l) + [BLANK, OperatorLexeme(op), BLANK] + more) ==
            Kept(l) + [OperatorLexeme(op)] + NonBlank(more)
  {
    var mid := [BLANK, OperatorLexeme(op), BLANK];
    ThreeLexemes(BLANK, OperatorLexeme(op), BLANK);
    OneLexeme(BLANK);
    OneLexeme(OperatorLexeme(op));
    NonBlankAppend(Printed(l) + mid, more);
    NonBlankAppend(Printed(l), mid);
  }

  lemma SpacedCanonical(l: Expr, op: Operator)
    requires WellLexed(l)
    ensures Canonical(Printed(l) + [BLANK, OperatorLexeme(op), BLANK])
  {
    var mid := [BLANK, OperatorLexeme(op), BLANK];
    PrintedCanonical(l);
    OperatorTextIsKeyword(op);
    assert Canonical(mid);
    CanonicalAppend(Printed(l), mid);
  }

  /** The tokens of a printed left side without groups, and of the operator after it. */
  lemma LexLeftSide(l: Expr, op: Operator, rest: string)
    requires WellLexed(l) && NulFree(rest) && (rest != "" ==> !IsWhitespace(rest[0]))
    ensures Significants(Spaced(Print(l), op, rest)) == Kept(l) + [OperatorLexeme(op)] + Significants(rest)
  {
    SpacedCanonical(l, op);
    LexFront(Printed(l) + [BLANK, OperatorLexeme(op), BLANK], rest);
    SpacedConcat(l, op, rest);
    SpacedTokens(l, op, LexAll(rest));
  }

  lemma SpacedAppend(a: string, op: Operator, b: string, rest: string)
    ensures Spaced(a, op, b) + rest == Spaced(a, op, b + rest) == a + Spaced("", op, b + rest)
  {
  }

  /** Where the first group should begin, there is none in the tokens of the printed text. */
  lemma {:induction false} GroupIsMissing(t: Expr, text: string, rest: string) returns (n: nat)
    requires WellLexed(t) && HoldsGroup(t) && Prints(t, text) && NulFree(rest)
    ensures GroupBy(Kept(t), n) && !GroupBy(Significants(text + rest), n)
    decreases t, 1
  {
    match t
    case Paren(e) =>
      n := 0;
      PrintsText(t, text);
      NulFreeAppend(text, rest);
      KeptParen(e);
      assert Kept(t)[0].tok == LParen;
      AmpersandStartsWord(text + rest);
    case Binary(op, l, r) =>
      var a, b :| Prints(l, a) && Prints(r, b) && text == Spaced(a, op, b);
      n := GroupIsMissingInBinary(t, a, b, rest);
      SpacedAppend(a, op, b, rest);
  }

  lemma {:induction false} GroupIsMissingInBinary(t: Expr, a: string, b: string, rest: string) returns (n: nat)
    requires t.Binary? && WellLexed(t) && HoldsGroup(t)
    requires Prints(t.lhs, a) && Prints(t.rhs, b) && NulFree(rest)
    ensures GroupBy(Kept(t), n) && !GroupBy(Significants(Spaced(a, t.op, b + rest)), n)
    decreases t, 0
  {
    var op, l, r := t.op, t.lhs, t.rhs;
    var front := Kept(l) + [OperatorLexeme(op)];
    PrintsText(r, b);
    NulFreeAppend(b, rest);
    KeptBinary(op, l, r);
    if HoldsGroup(l) {
      OperatorLinkHasNoNul(op, b + rest);
      n := GroupIsMissing(l, a, Spaced("", op, b + rest));
      SpacedAppend(a, op, b, rest);
      GroupByAppend(front, Kept(r), n);
      GroupByAppend(Kept(l), [OperatorLexeme(op)], n);
    } else {
      var m := GroupIsMissing(r, b, rest);
      n := |front| + m;
      PrintsIntended(l, a);
      LexLeftSide(l, op, b + rest);
      NoGroupKept(l, n);
      GroupByAppend(Kept(l), [OperatorLexeme(op)], n);
      GroupByAppend(front, Kept(r), n);
      GroupByAppend(front, Significants(b + rest), n);
    }
  }

  lemma OperatorLinkHasNoNul(op: Operator, rest: string)
    requires NulFree(rest)
    ensures NulFree(Spaced("", op, rest))
  {
    OperatorTextHasNoNul(op);
    NulFreeAppend(" ", op.Text());
    NulFreeAppend(" " + op.Text(), " ");
    NulFreeAppend(" " + op.Text() + " ", rest);
    assert Spaced("", op, rest) == " " + op.Text() + " " + rest;
  }

  // Writing out fields and operators only moves groups further back.

  lemma {:induction false} ExplicitDelaysGroups(s: Syntax, df: string, n: int)
    requires GroupBy(Tokens(Explicit(s, df)), n)
    ensures GroupBy(Tokens(s), n)
    decreases s
  {
    var o, o' := OperandTokens(s.first), OperandTokens(ExplicitOperand(s.first, df));
    var l, l' := LinkTokens(s.links), LinkTokens(ExplicitLinks(s.links, df));
    GroupByAppend(o, l, n);
    GroupByAppend(o', l', n);
    if GroupBy(o', n) {
      OperandDelaysGroups(s.first, df, n);
    } else {
      ShorterOperand(s.first, df, n);
      LinksDelayGroups(s.links, df, n - |o'|);
      if GroupBy(l, n - |o'|) { GroupByLater(l, n - |o'|, n - |o|); }
    }
  }

  lemma OperandDelaysGroups(o: Operand, df: string, n: int)
    requires GroupBy(OperandTokens(ExplicitOperand(o, df)), n)
    ensures GroupBy(OperandTokens(o), n)
  {
    if o.Group? { assert OperandTokens(o)[0].tok == LParen; }
  }

  /** An operand that is not a group gets no shorter. */
  lemma ShorterOperand(o: Operand, df: string, n: int)
    requires n >= 0
    ensures GroupBy(OperandTokens(ExplicitOperand(o, df)), n) ||
            |OperandTokens(o)| <= |OperandTokens(ExplicitOperand(o, df))|
  {
    if o.Group? { assert OperandTokens(ExplicitOperand(o, df))[0].tok == LParen; }
  }

  lemma {:induction false} LinksDelayGroups(l: Links, df: string, n: int)
    requires GroupBy(LinkTokens(ExplicitLinks(l, df)), n)
    ensures GroupBy(LinkTokens(l), n)
    decreases l
  {
    if l.Link? {
      var c, o, t := l.conn.Tokens(), OperandTokens(l.operand), LinkTokens(l.tail);
      var c' := [OperatorLexeme(l.conn.Op())];
      var o', t' := OperandTokens(ExplicitOperand(l.operand, df)), LinkTokens(ExplicitLinks(l.tail, df));
      GroupByAppend(c + o, t, n);
      GroupByAppend(c, o, n);
      GroupByAppend(c' + o', t', n);
      GroupByAppend(c', o', n);
      if GroupBy(o', n - |c'|) {
        OperandDelaysGroups(l.operand, df, n - |c'|);
        GroupByLater(o, n - |c'|, n - |c|);
      } else {
        ShorterOperand(l.operand, df, n - |c'|);
        LinksDelayGroups(l.tail, df, n - |c' + o'|);
        GroupByLater(t, n - |c' + o'|, n - |c + o|);
      }
    }
  }

  /** Print as the code does it, then parse: the tree of a query comes back if and only if it holds no group. */
  lemma PrintedComesBackIff(text: string, df: string, printed: string)
    requires NulFree(text) && ParseText(text, df).Ok? && ParseText(text, df).value.Some?
    requires WellLexed(ParseText(text, df).value.value)
    requires Prints(ParseText(text, df).value.value, printed)
    ensures var e := ParseText(text, df).value.value;
            NulFree(printed) && (ParseText(printed, df) == Ok(Some(e), []) <==> !HoldsGroup(e))
  {
    var e := ParseText(text, df).value.value;
    PrintsText(e, printed);
    if !HoldsGroup(e) {
      PrintsIntended(e, printed);
      PrintThenParse(text, df);
    } else if ParseText(printed, df) == Ok(Some(e), []) {
      var n := GroupIsMissing(e, printed, "");
      assert printed + "" == printed;
      SignificantsAreSignificant(printed);
      var s := SoundExpr(Significants(printed), df);
      assert Tokens(s) + [] == Tokens(s);
      PrintedDerivation(s, df);
      ExplicitDelaysGroups(s, df, n);
      assert false;
    }
  }

  /** A default field that is a word makes every parsed query one of words. */
  lemma ParsedIsWellLexed(text: string, df: string)
    requires NulFree(text) && ValidTerm(df)
    requires ParseText(text, df).Ok? && ParseText(text, df).value.Some?
    ensures WellLexed(ParseText(text, df).value.value)
  {
    var ts := Significants(text);
    SignificantsAreSignificant(text);
    var s := SoundExpr(ts, df);
    SplitSignificant(Tokens(s), ParseExpr(ts, df).rest);
    BuiltWellLexed(s, df);
  }

  lemma BracedTerms(f: string, term: string)
    requires ValidTerm(f) && ValidTerm(term)
    ensures ValidTerm("&{" + f) && ValidTerm(term + "}")
  {
    OddCharacterIsNoKeyword("&{" + f, 0);
    OddCharacterIsNoKeyword(term + "}", |term|);
  }

  lemma ParseField(f: string, term: string, df: string)
    requires ValidTerm(f) && ValidTerm(term)
    ensures ParseText(f + ":" + term, df) == Ok(Some(Field(f, term)), [])
  {
    var t := Field(f, term);
    PrintIsConcat(t);
    PrintedCanonical(t);
    Relex(Printed(t));
    KeptField(f, term);
    var s := Chain(FieldTerm(f, term), End);
    assert Tokens(s) + [] == OperandTokens(FieldTerm(f, term));
    CompleteExpr(s, [], df);
  }

  /** What comes back instead for a single term in parentheses: a field and a term with braces in them. */
  lemma GroupComesBackAsField(f: string, term: string, df: string)
    requires ValidTerm(f) && ValidTerm(term)
    ensures var printed := Braced(f + ":" + term);
            && Prints(Paren(Field(f, term)), printed)
            && ParseText(printed, df) == Ok(Some(Field("&{" + f, term + "}")), [])
  {
    FieldText(f, term);
    assert Prints(Field(f, term), f + ":" + term);
    BracedTerms(f, term);
    ParseField("&{" + f, term + "}", df);
    BracesRegroup(f, term);
  }

  lemma BracesRegroup(f: string, term: string)
    ensures Braced(f + ":" + term) == "&{" + f + ":" + (term + "}")
  {
  }

}
