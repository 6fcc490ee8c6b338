/** The query lexer (query/lexer.go): a cursor over the query text, and the token sequence it stands for. */
module QueryLexer {
  import opened QueryTokens
  import opened Sequences

  /** The rune that read() returns at the end of the input. A NUL in the input reads the same. */
  const EOF_RUNE := '\0'

  predicate IsWhitespace(c: char) {
    c == ' ' || c == '\t' || c == '\n' || c == '\r'
  }

  predicate IsParen(c: char) {
    c == '(' || c == ')'
  }

  predicate IsStringChar(c: char) {
    c != EOF_RUNE && c != ':' && !IsWhitespace(c) && !IsParen(c)
  }

  predicate NulFree(s: string) {
    EOF_RUNE !in s
  }

  // ----- What the lexer computes, as functions of the unread text -----

  function WsRun(s: string): (n: nat)
    ensures n <= |s|
  {
    if s != "" && IsWhitespace(s[0]) then 1 + WsRun(s[1..]) else 0
  }

  function StringRun(s: string): (n: nat)
    ensures n <= |s|
  {
    if s != "" && IsStringChar(s[0]) then 1 + StringRun(s[1..]) else 0
  }

  /** A run that stops at a NUL swallows it, because the loop takes it for the end of the input. */
  function AfterRun(s: string, n: nat): string
    requires n <= |s|
  {
    if n < |s| && s[n] == EOF_RUNE then s[n + 1..] else s[n..]
  }

  function Classify(lit: string): Lexeme {
    match Lookup(lit)
    case Some(kw) => Lexeme(kw, lit)
    case None => Lexeme(Str, lit)
  }

  /** The next lexeme of `s` and the text that remains after it. */
  function LexHead(s: string): (r: (Lexeme, string))
    ensures s != "" ==> |r.1| < |s|
    ensures s == "" ==> r == (EOF_LEXEME, "")
  {
    if s == "" then (EOF_LEXEME, "")
    else if IsWhitespace(s[0]) then (Lexeme(Ws, s[..WsRun(s)]), AfterRun(s, WsRun(s)))
    else if s[0] == EOF_RUNE then (EOF_LEXEME, s[1..])
    else if s[0] == '(' then (Lexeme(LParen, "("), s[1..])
    else if s[0] == ')' then (Lexeme(RParen, ")"), s[1..])
    else if s[0] == ':' then (Lexeme(Colon, ":"), s[1..])
    else (Classify(s[..StringRun(s)]), AfterRun(s, StringRun(s)))
  }

  predicate Blanks(s: string) {
    forall i | 0 <= i < |s| :: s[i] == ' ' || s[i] == '\t' || s[i] == '\n' || s[i] == '\r'
  }

  /** No blanks, colons, parentheses or NULs. */
  predicate WordText(s: string) {
    forall i | 0 <= i < |s| ::
      && s[i] != ' ' && s[i] != '\t' && s[i] != '\n' && s[i] != '\r'
      && s[i] != ':' && s[i] != '(' && s[i] != ')' && s[i] != '\0'
  }

  /** Blanks that reach as far as they can are one token; a NUL behind them goes with them. */
  lemma HeadOfBlanks(blanks: string, rest: string)
    requires blanks != "" && Blanks(blanks) && (rest != "" ==> !Blanks(rest[..1]))
    ensures LexHead(blanks + rest) == (Lexeme(Ws, blanks), if rest != "" && rest[0] == '\0' then rest[1..] else rest)
  {
    var s := blanks + rest;
    if rest != "" { assert rest[..1][0] == s[|blanks|]; }
    WsRunIs(s, |blanks|);
  }

  /** So is a word. */
  lemma HeadOfWord(word: string, rest: string)
    requires word != "" && WordText(word) && (rest != "" ==> !WordText(rest[..1]))
    ensures LexHead(word + rest) ==
            (Lexeme(match Lookup(word) case Some(op) => op case None => Str, word),
             if rest != "" && rest[0] == '\0' then rest[1..] else rest)
  {
    var s := word + rest;
    if rest != "" { assert rest[..1][0] == s[|word|]; }
    assert IsStringChar(s[0]) && !IsWhitespace(s[0]) && !IsParen(s[0]);
    StringRunIs(s, |word|);
  }

  /** The other characters are tokens of their own; NUL is the end of the input. */
  lemma HeadOfSign(c: char, rest: string)
    requires !Blanks([c]) && !WordText([c])
    ensures LexHead([c] + rest) ==
            (match c
             case '(' => Lexeme(LParen, "(")
             case ')' => Lexeme(RParen, ")")
             case ':' => Lexeme(Colon, ":")
             case _ => Lexeme(Eof, ""),
             rest)
  {
    assert [c][0] == c && ([c] + rest)[1..] == rest;
  }

  /** Every lexeme before the first Eof. */
  function LexAll(s: string): seq<Lexeme>
    decreases |s|
  {
    var (x, rest) := LexHead(s);
    if x.tok == Eof then [] else [x] + LexAll(rest)
  }

  function Concat(ts: seq<Lexeme>): string {
    if ts == [] then "" else ts[0].lit + Concat(ts[1..])
  }

  // ----- Canonical lexeme sequences -----

  /** The text is one the lexer gives to this token. */
  predicate ValidLexeme(x: Lexeme) {
    match x.tok
    case Ws => x.lit != "" && forall c | c in x.lit :: IsWhitespace(c)
    case Colon => x.lit == ":"
    case LParen => x.lit == "("
    case RParen => x.lit == ")"
    case Eof => false
    case Illegal => false
    case _ => x.lit != "" && (forall c | c in x.lit :: IsStringChar(c)) && Classify(x.lit) == x
  }

  predicate StringLike(t: Token) {
    t == Str || t.IsOperator()
  }

  /** Two lexemes that would read as one if written side by side. */
  predicate Fuse(a: Lexeme, b: Lexeme) {
    (a.tok == Ws && b.tok == Ws) || (StringLike(a.tok) && StringLike(b.tok))
  }

  ghost predicate Canonical(ts: seq<Lexeme>) {
    && (forall i | 0 <= i < |ts| :: ValidLexeme(ts[i]))
    && (forall i | 0 <= i < |ts| - 1 :: !Fuse(ts[i], ts[i + 1]))
  }

  // ----- Runs -----

  lemma {:induction false} WsRunIs(s: string, n: nat)
    requires n <= |s|
    requires forall i | 0 <= i < n :: IsWhitespace(s[i])
    requires n < |s| ==> !IsWhitespace(s[n])
    ensures WsRun(s) == n
  {
    if n > 0 { WsRunIs(s[1..], n - 1); }
  }

  lemma {:induction false} WsRunAll(s: string)
    ensures forall i | 0 <= i < WsRun(s) :: IsWhitespace(s[i])
    ensures WsRun(s) < |s| ==> !IsWhitespace(s[WsRun(s)])
  {
    if s != "" && IsWhitespace(s[0]) {
      WsRunAll(s[1..]);
      forall i | 0 <= i < WsRun(s) ensures IsWhitespace(s[i]) {
        if i > 0 { assert s[i] == s[1..][i - 1]; }
      }
    }
  }

  lemma {:induction false} StringRunIs(s: string, n: nat)
    requires n <= |s|
    requires forall i | 0 <= i < n :: IsStringChar(s[i])
    requires n < |s| ==> !IsStringChar(s[n])
    ensures StringRun(s) == n
  {
    if n > 0 { StringRunIs(s[1..], n - 1); }
  }

  lemma {:induction false} StringRunAll(s: string)
    ensures forall i | 0 <= i < StringRun(s) :: IsStringChar(s[i])
    ensures StringRun(s) < |s| ==> !IsStringChar(s[StringRun(s)])
  {
    if s != "" && IsStringChar(s[0]) {
      StringRunAll(s[1..]);
      forall i | 0 <= i < StringRun(s) ensures IsStringChar(s[i]) {
        if i > 0 { assert s[i] == s[1..][i - 1]; }
      }
    }
  }

  /** A run of whitespace is one valid lexeme. */
  lemma WsRunFacts(s: string)
    requires WsRun(s) > 0
    ensures ValidLexeme(Lexeme(Ws, s[..WsRun(s)])) && NulFree(s[..WsRun(s)])
    ensures WsRun(s) < |s| ==> !IsWhitespace(s[WsRun(s)])
  {
    WsRunAll(s);
  }

  /** A run of string characters is one valid lexeme. */
  lemma StringRunFacts(s: string)
    requires StringRun(s) > 0
    ensures ValidLexeme(Classify(s[..StringRun(s)])) && NulFree(s[..StringRun(s)])
    ensures StringRun(s) < |s| ==> !IsStringChar(s[StringRun(s)])
  {
    StringRunAll(s);
  }

  lemma AfterRunFacts(s: string, n: nat)
    requires n <= |s| && NulFree(s)
    ensures AfterRun(s, n) == s[n..] && s == s[..n] + s[n..] && NulFree(s[n..])
  {
  }

  lemma OneCharFacts(s: string)
    requires s != ""
    ensures s == s[..1] + s[1..] && s[..1] == [s[0]] && (NulFree(s) ==> NulFree(s[1..]))
  {
  }

  /** What one step gives: a valid lexeme, and on NUL-free text nothing is lost and the
      lexeme cannot be extended by what follows. */
  lemma HeadFacts(s: string)
    ensures var (x, rest) := LexHead(s);
            && (x.tok != Eof ==> ValidLexeme(x) && NulFree(x.lit))
            && (NulFree(s) ==>
                  && s == x.lit + rest && NulFree(rest) && (x.tok == Eof <==> s == "")
                  && (rest != "" && x.tok == Ws ==> !IsWhitespace(rest[0]))
                  && (rest != "" && StringLike(x.tok) ==> !IsStringChar(rest[0])))
  {
    if s != "" {
      if IsWhitespace(s[0]) {
        WsRunFacts(s);
        if NulFree(s) { AfterRunFacts(s, WsRun(s)); }
      } else if IsStringChar(s[0]) {
        StringRunFacts(s);
        if NulFree(s) { AfterRunFacts(s, StringRun(s)); }
      } else {
        OneCharFacts(s);
      }
    }
  }

  // ----- Losslessness and canonicity -----

  lemma {:induction false} LexAllNulFreeText(s: string)
    ensures NulFree(Concat(LexAll(s)))
    decreases |s|
  {
    var (x, rest) := LexHead(s);
    HeadFacts(s);
    if x.tok != Eof {
      LexAllNulFreeText(rest);
      assert ([x] + LexAll(rest))[1..] == LexAll(rest);
    }
  }

  lemma {:induction false} LexAllConcat(s: string)
    requires NulFree(s)
    ensures Concat(LexAll(s)) == s
    decreases |s|
  {
    var (x, rest) := LexHead(s);
    HeadFacts(s);
    if x.tok != Eof {
      LexAllConcat(rest);
      assert ([x] + LexAll(rest))[1..] == LexAll(rest);
    }
  }

  /** The literals before Eof spell out the input exactly when the input holds no NUL. */
  lemma LosslessIffNulFree(s: string)
    ensures Concat(LexAll(s)) == s <==> NulFree(s)
  {
    LexAllNulFreeText(s);
    if NulFree(s) { LexAllConcat(s); }
  }

  lemma {:induction false} LexAllCanonical(s: string)
    requires NulFree(s)
    ensures Canonical(LexAll(s))
    decreases |s|
  {
    var (x, rest) := LexHead(s);
    HeadFacts(s);
    if x.tok != Eof {
      LexAllCanonical(rest);
      var (y, _) := LexHead(rest);
      HeadFacts(rest);
      if y.tok != Eof {
        assert LexAll(rest)[0] == y;
        assert !Fuse(x, y);
      }
    }
  }

  /** A NUL breaks canonicity: it splits a run of blanks into two Ws lexemes. */
  lemma NulSplitsWhitespace(u: string, v: string)
    requires u != "" && v != ""
    requires (forall c | c in u :: IsWhitespace(c)) && (forall c | c in v :: IsWhitespace(c))
    ensures LexAll(u + [EOF_RUNE] + v) == [Lexeme(Ws, u), Lexeme(Ws, v)]
    ensures !Canonical(LexAll(u + [EOF_RUNE] + v))
  {
    var s := u + [EOF_RUNE] + v;
    WsRunIs(s, |u|);
    assert s[..|u|] == u && s[|u| + 1..] == v;
    assert LexHead(s) == (Lexeme(Ws, u), v);
    WsRunIs(v, |v|);
    assert v[..|v|] == v && v[|v|..] == "";
    assert LexHead(v) == (Lexeme(Ws, v), "");
    assert LexAll(v) == [Lexeme(Ws, v)];
    var ts := LexAll(s);
    assert Fuse(ts[0], ts[0 + 1]);
  }

  /** Any canonical sequence of valid lexemes, written out, lexes back to itself. */
  lemma Relex(ts: seq<Lexeme>)
    requires Canonical(ts)
    ensures LexAll(Concat(ts)) == ts && NulFree(Concat(ts))
  {
    LexFront(ts, "");
    assert Concat(ts) + "" == Concat(ts);
    assert ts + LexAll("") == ts;
  }

  /** The lexemes at the front of a text, if what follows does not extend the last of them. */
  lemma {:induction false} LexFront(ts: seq<Lexeme>, rest: string)
    requires Canonical(ts) && NulFree(rest) && (ts != [] ==> NotExtended(ts[|ts| - 1], rest))
    ensures LexAll(Concat(ts) + rest) == ts + LexAll(rest) && NulFree(Concat(ts) + rest)
    decreases |ts|
  {
    if ts == [] {
      assert Concat(ts) + rest == rest;
    } else {
      CanonicalTail(ts);
      LexFront(ts[1..], rest);
      FollowsHead(ts, rest);
      LexOne(ts[0], Concat(ts[1..]) + rest);
      FrontStep(ts, rest, LexAll(rest));
    }
  }

  lemma FrontStep(ts: seq<Lexeme>, rest: string, more: seq<Lexeme>)
    requires ts != []
    ensures Concat(ts) + rest == ts[0].lit + (Concat(ts[1..]) + rest)
    ensures ts + more == [ts[0]] + (ts[1..] + more)
  {
    Associative(ts[0].lit, Concat(ts[1..]), rest);
    HeadTail(ts);
    Associative([ts[0]], ts[1..], more);
  }

  /** What follows does not extend the lexeme. */
  predicate NotExtended(x: Lexeme, rest: string) {
    rest != "" ==> (x.tok == Ws ==> !IsWhitespace(rest[0])) && (StringLike(x.tok) ==> !IsStringChar(rest[0]))
  }

  lemma CanonicalTail(ts: seq<Lexeme>)
    requires Canonical(ts) && ts != []
    ensures Canonical(ts[1..])
  {
    var tail := ts[1..];
    assert forall i | 0 <= i < |tail| :: tail[i] == ts[i + 1];
  }

  lemma LexOne(x: Lexeme, rest: string)
    requires ValidLexeme(x) && NulFree(rest) && NotExtended(x, rest)
    ensures LexAll(x.lit + rest) == [x] + LexAll(rest) && NulFree(x.lit + rest)
  {
    RelexHead(x, rest);
  }

  lemma FollowsHead(ts: seq<Lexeme>, rest: string)
    requires Canonical(ts) && ts != [] && NotExtended(ts[|ts| - 1], rest)
    ensures NotExtended(ts[0], Concat(ts[1..]) + rest) && ValidLexeme(ts[0])
  {
    CanonicalHead(ts);
    var tail := ts[1..];
    if tail != [] {
      assert ValidLexeme(ts[1]) && tail[0] == ts[1];
      assert Concat(tail) != "";
    }
  }

  /** What follows a lexeme in a canonical sequence does not extend it. */
  lemma CanonicalHead(ts: seq<Lexeme>)
    requires Canonical(ts) && ts != []
    ensures var x, rest := ts[0], Concat(ts[1..]);
            && ValidLexeme(x)
            && (rest != "" && x.tok == Ws ==> !IsWhitespace(rest[0]))
            && (rest != "" && StringLike(x.tok) ==> !IsStringChar(rest[0]))
  {
    var tail := ts[1..];
    if tail != [] {
      assert tail[0] == ts[1] && ValidLexeme(ts[1]) && !Fuse(ts[0], ts[1]);
      assert Concat(tail) == tail[0].lit + Concat(tail[1..]);
      assert Concat(tail)[0] == tail[0].lit[0] && tail[0].lit[0] in tail[0].lit;
    }
  }

  lemma RelexHead(x: Lexeme, rest: string)
    requires ValidLexeme(x) && NulFree(rest)
    requires rest != "" && x.tok == Ws ==> !IsWhitespace(rest[0])
    requires rest != "" && StringLike(x.tok) ==> !IsStringChar(rest[0])
    ensures LexHead(x.lit + rest) == (x, rest) && NulFree(x.lit + rest)
  {
    var s := x.lit + rest;
    assert forall i | 0 <= i < |x.lit| :: s[i] == x.lit[i] && x.lit[i] in x.lit;
    assert s[..|x.lit|] == x.lit && s[|x.lit|..] == rest;
    if x.tok == Ws {
      WsRunIs(s, |x.lit|);
    } else if StringLike(x.tok) {
      StringRunIs(s, |x.lit|);
    }
  }

  // ----- The lexer object -----

  class Lexer {
    const input: string
    var pos: nat
    var canUnread: bool

    ghost predicate Valid()
      reads this
    {
      pos <= |input| && (canUnread ==> 0 < pos)
    }

    /** The text not yet read. */
    ghost function Rest(): string
      reads this
      requires Valid()
    {
      input[pos..]
    }

    constructor (text: string)
      ensures Valid() && input == text && pos == 0
    {
      input, pos, canUnread := text, 0, false;
    }

    method Read() returns (c: char)
      requires Valid()
      modifies this
      ensures Valid()
      ensures if old(pos) < |input|
              then c == input[old(pos)] && pos == old(pos) + 1 && canUnread
              else c == EOF_RUNE && pos == old(pos) && !canUnread
    {
      if pos < |input| {
        c := input[pos];
        pos, canUnread := pos + 1, true;
      } else {
        c, canUnread := EOF_RUNE, false;
      }
    }

    /** Steps back over the last rune, if the last call read one. */
    method Unread()
      requires Valid()
      modifies this
      ensures Valid() && !canUnread
      ensures pos == if old(canUnread) then old(pos) - 1 else old(pos)
    {
      if canUnread {
        pos, canUnread := pos - 1, false;
      }
    }

    method LexWhitespace() returns (x: Lexeme)
      requires Valid() && pos < |input| && IsWhitespace(input[pos])
      modifies this
      ensures Valid()
      ensures x == Lexeme(Ws, old(Rest())[..WsRun(old(Rest()))])
      ensures Rest() == AfterRun(old(Rest()), WsRun(old(Rest())))
    {
      ghost var start, s := pos, Rest();
      var c := Read();
      var buf := [c];
      var end := pos;
      while true
        invariant Valid() && start < end <= |input| && pos == end
        invariant buf == input[start..end]
        invariant forall i | start <= i < end :: IsWhitespace(input[i])
        decreases |input| - pos
      {
        c := Read();
        if c == EOF_RUNE {
          break;
        } else if !IsWhitespace(c) {
          Unread();
          break;
        } else {
          assert input[start..end + 1] == input[start..end] + [input[end]];
          buf := buf + [c];
          end := pos;
        }
      }
      WsRunIs(s, end - start);
      assert s[..end - start] == input[start..end];
      return Lexeme(Ws, buf);
    }

    method LexString() returns (x: Lexeme)
      requires Valid() && pos < |input| && IsStringChar(input[pos])
      modifies this
      ensures Valid()
      ensures x == Lexeme(Str, old(Rest())[..StringRun(old(Rest()))])
      ensures Rest() == AfterRun(old(Rest()), StringRun(old(Rest())))
    {
      ghost var start, s := pos, Rest();
      var c := Read();
      var buf := [c];
      var end := pos;
      while true
        invariant Valid() && start < end <= |input| && pos == end
        invariant buf == input[start..end]
        invariant forall i | start <= i < end :: IsStringChar(input[i])
        decreases |input| - pos
      {
        c := Read();
        if c == EOF_RUNE {
          break;
        } else if c == ':' || IsWhitespace(c) || IsParen(c) {
          Unread();
          break;
        } else {
          assert input[start..end + 1] == input[start..end] + [input[end]];
          buf := buf + [c];
          end := pos;
        }
      }
      StringRunIs(s, end - start);
      assert s[..end - start] == input[start..end];
      return Lexeme(Str, buf);
    }

    method Lex() returns (x: Lexeme)
      requires Valid()
      modifies this
      ensures Valid()
      ensures (x, Rest()) == LexHead(old(Rest()))
    {
      ghost var s := Rest();
      var c := Read();
      if IsWhitespace(c) {
        Unread();
        x := LexWhitespace();
        return;
      } else if c == EOF_RUNE {
        return EOF_LEXEME;
      } else if c == '(' {
        return Lexeme(LParen, "(");
      } else if c == ')' {
        return Lexeme(RParen, ")");
      } else if c == ':' {
        return Lexeme(Colon, ":");
      }
      Unread();
      x := LexString();
      var kw := Lookup(x.lit);
      if kw.Some? {
        return Lexeme(kw.value, x.lit);
      }
    }
  }
}
