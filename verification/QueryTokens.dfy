/** The lexical tokens of the query language (query/token.go) and the lexemes the lexer returns. */
module QueryTokens {
  import opened Wrappers

  datatype Token = Illegal | Eof | Ws | Colon | Str | And | Or | Not | LParen | RParen {

    predicate IsOperator() {
      this == And || this == Or || this == Not
    }

    /** Operator precedence; every other token has precedence 0. */
    function Precedence(): nat {
      match this
      case Or => 1
      case And => 2
      case Not => 3
      case _ => 0
    }

    /** The display text of a token; Str has none. */
    function Text(): string {
      match this
      case Illegal => "ILLEGAL"
      case Eof => "EOF"
      case Ws => "WS"
      case Colon => ":"
      case Str => ""
      case And => "AND"
      case Or => "OR"
      case Not => "NOT"
      case LParen => "("
      case RParen => ")"
    }
  }

  type Operator = t: Token | t.IsOperator() witness And

  /** A token together with the text it was read from. */
  datatype Lexeme = Lexeme(tok: Token, lit: string)

  const EOF_LEXEME := Lexeme(Eof, "")

  /** ASCII lower-casing. No character outside ASCII lower-cases to a letter of a keyword,
      so on keyword lookup this agrees with full Unicode lower-casing. */
  function Lower(c: char): char {
    if 'A' <= c <= 'Z' then (c as int - 'A' as int + 'a' as int) as char else c
  }

  function LowerAll(s: string): string {
    seq(|s|, i requires 0 <= i < |s| => Lower(s[i]))
  }

  const KEYWORDS: map<string, Operator> := map["and" := And, "or" := Or, "not" := Not]

  function Lookup(ident: string): Option<Operator> {
    var key := LowerAll(ident);
    if key in KEYWORDS then Some(KEYWORDS[key]) else None
  }

  predicate EitherCase(c: char, upper: char, lower: char) {
    c == upper || c == lower
  }

  /** Exactly the three words are keywords, in whatever case each letter is. */
  lemma KeywordsIff(s: string)
    ensures Lookup(s) == Some(And) <==>
            |s| == 3 && EitherCase(s[0], 'A', 'a') && EitherCase(s[1], 'N', 'n') && EitherCase(s[2], 'D', 'd')
    ensures Lookup(s) == Some(Or) <==> |s| == 2 && EitherCase(s[0], 'O', 'o') && EitherCase(s[1], 'R', 'r')
    ensures Lookup(s) == Some(Not) <==>
            |s| == 3 && EitherCase(s[0], 'N', 'n') && EitherCase(s[1], 'O', 'o') && EitherCase(s[2], 'T', 't')
  {
    var key := LowerAll(s);
    forall i | 0 <= i < |s| ensures key[i] == Lower(s[i]) {
    }
    assert |key| == 3 ==> key == [key[0], key[1], key[2]];
    assert |key| == 2 ==> key == [key[0], key[1]];
  }

  /** The literal if there is one, otherwise the token's display text. */
  function Describe(x: Lexeme): string {
    if x.lit != "" then x.lit else x.tok.Text()
  }
}
