/** What a parsed query means. Binary NOT is read as "and not". Every tree the parser builds means the
    disjunction, over the groups between ORs, of the conjunction of the signed operands of the group;
    so it means the same as the strict precedence tree, also where its shape departs from it. */
module QueryMeaning {
  import opened QueryTokens
  import opened QueryGrammar
  import opened QueryPrecedence

  /** Which field:term pairs an event matches. */
  type Matcher = (string, string) -> bool

  predicate Eval(t: Expr, m: Matcher) {
    match t
    case Field(f, term) => m(f, term)
    case EmptyParen => false
    case Paren(e) => Eval(e, m)
    case Binary(op, l, r) =>
      if op == Or then Eval(l, m) || Eval(r, m)
      else if op == And then Eval(l, m) && Eval(r, m)
      else Eval(l, m) && !Eval(r, m)
  }

  // ----- The reference meaning of a chain of truth values -----

  /** An operand's truth value and the operator to its left. */
  datatype Value = Value(op: Operator, holds: bool) {
    predicate Signed() {
      if op == Not then !holds else holds
    }
  }

  /** Operand 0 is `b0`; operand j > 0 is c[j - 1], negated if it stands after a NOT. */
  predicate OperandHolds(b0: bool, c: seq<Value>, j: nat)
    requires j <= |c|
  {
    if j == 0 then b0 else c[j - 1].Signed()
  }

  predicate StartsGroup(c: seq<Value>, k: nat) {
    k == 0 || (k <= |c| && c[k - 1].op == Or)
  }

  /** Operand j belongs to the group that starts at operand k: no OR stands between them. */
  ghost predicate InGroup(c: seq<Value>, k: nat, j: nat) {
    k <= j <= |c| && forall i | k <= i < j :: c[i].op != Or
  }

  ghost predicate GroupHolds(b0: bool, c: seq<Value>, k: nat) {
    StartsGroup(c, k) && forall j: nat | InGroup(c, k, j) :: OperandHolds(b0, c, j)
  }

  ghost predicate SomeGroupHolds(b0: bool, c: seq<Value>) {
    exists k: nat :: GroupHolds(b0, c, k)
  }

  // ----- The same, computed from left to right -----

  function LastStart(c: seq<Value>): (k: nat)
    ensures k <= |c| && StartsGroup(c, k)
  {
    var n := |c| - 1;
    if c == [] then 0 else if c[n].op == Or then |c| else LastStart(c[..n])
  }

  predicate LastHolds(b0: bool, c: seq<Value>) {
    if c == [] then b0
    else
      var v := c[|c| - 1];
      if v.op == Or then v.holds else LastHolds(b0, c[..|c| - 1]) && v.Signed()
  }

  predicate EarlierHolds(b0: bool, c: seq<Value>) {
    if c == [] then false
    else
      var front := c[..|c| - 1];
      EarlierHolds(b0, front) || (c[|c| - 1].op == Or && LastHolds(b0, front))
  }

  lemma GroupSnoc(b0: bool, c: seq<Value>, k: nat)
    requires c != [] && k < |c|
    ensures var n := |c| - 1;
            GroupHolds(b0, c, k) <==>
            GroupHolds(b0, c[..n], k) && (InGroup(c, k, |c|) ==> c[n].Signed())
  {
    var n := |c| - 1;
    forall j: nat | j <= n
      ensures InGroup(c, k, j) <==> InGroup(c[..n], k, j)
      ensures OperandHolds(b0, c, j) == OperandHolds(b0, c[..n], j)
    {
      assert forall i | 0 <= i < n :: c[..n][i] == c[i];
    }
    assert forall j: nat | InGroup(c, k, j) :: j <= n || j == |c|;
    assert OperandHolds(b0, c, |c|) == c[n].Signed();
  }

  lemma {:induction false} LastStartInGroup(c: seq<Value>, k: nat)
    requires k <= |c| && StartsGroup(c, k)
    ensures k <= LastStart(c) && (InGroup(c, k, |c|) <==> k == LastStart(c))
  {
    if c != [] {
      var n := |c| - 1;
      if k <= n {
        LastStartInGroup(c[..n], k);
        assert InGroup(c, k, |c|) <==> InGroup(c[..n], k, n) && c[n].op != Or by {
          assert forall i | 0 <= i < n :: c[..n][i] == c[i];
        }
      }
    }
  }

  lemma {:induction false} LeftToRight(b0: bool, c: seq<Value>)
    ensures LastHolds(b0, c) <==> GroupHolds(b0, c, LastStart(c))
    ensures EarlierHolds(b0, c) <==> exists k: nat | k < LastStart(c) :: GroupHolds(b0, c, k)
  {
    if c == [] {
      assert InGroup(c, 0, 0);
    } else {
      var n := |c| - 1;
      LeftToRight(b0, c[..n]);
      forall k: nat | k <= n ensures GroupHolds(b0, c, k) <==>
          GroupHolds(b0, c[..n], k) && (k == LastStart(c) ==> c[n].Signed())
      {
        GroupSnoc(b0, c, k);
        if StartsGroup(c, k) { LastStartInGroup(c, k); }
      }
      if c[n].op == Or {
        NewGroup(b0, c);
        assert forall k: nat | GroupHolds(b0, c[..n], k) :: k <= LastStart(c[..n]) by {
          forall k: nat | GroupHolds(b0, c[..n], k) ensures k <= LastStart(c[..n]) { LastStartInGroup(c[..n], k); }
        }
      }
    }
  }

  lemma NewGroup(b0: bool, c: seq<Value>)
    requires c != [] && c[|c| - 1].op == Or
    ensures GroupHolds(b0, c, |c|) <==> c[|c| - 1].holds
  {
    assert InGroup(c, |c|, |c|);
  }

  lemma SomeGroupLeftToRight(b0: bool, c: seq<Value>)
    ensures SomeGroupHolds(b0, c) <==> EarlierHolds(b0, c) || LastHolds(b0, c)
  {
    LeftToRight(b0, c);
    forall k: nat | GroupHolds(b0, c, k) ensures k <= LastStart(c) { LastStartInGroup(c, k); }
  }

  // ----- The rotation keeps the meaning -----

  function Values(c: seq<Step>, m: Matcher): (r: seq<Value>)
    ensures |r| == |c|
  {
    seq(|c|, i requires 0 <= i < |c| => Value(c[i].op, Eval(c[i].rhs, m)))
  }

  /** After an OR, the root separates the last group from the earlier ones. */
  ghost predicate MeaningInvariant(t: Expr, b0: bool, c: seq<Value>, m: Matcher) {
    if t.Binary? && t.op == Or then
      Eval(t.lhs, m) == EarlierHolds(b0, c) && Eval(t.rhs, m) == LastHolds(b0, c)
    else
      !EarlierHolds(b0, c) && Eval(t, m) == LastHolds(b0, c)
  }

  lemma {:induction false} FoldMeaning(e0: Expr, c: seq<Step>, m: Matcher)
    requires Operands(e0, c)
    ensures MeaningInvariant(Fold(e0, c), Eval(e0, m), Values(c, m), m)
  {
    if c != [] {
      var n := |c| - 1;
      FoldMeaning(e0, c[..n], m);
      assert Values(c, m)[..n] == Values(c[..n], m);
    }
  }

  lemma FoldMeansSomeGroup(e0: Expr, c: seq<Step>, m: Matcher)
    requires Operands(e0, c)
    ensures Eval(Fold(e0, c), m) == SomeGroupHolds(Eval(e0, m), Values(c, m))
  {
    FoldMeaning(e0, c, m);
    SomeGroupLeftToRight(Eval(e0, m), Values(c, m));
  }

  // ----- Whole queries -----

  ghost predicate Meaning(s: Syntax, df: string, m: Matcher) {
    SomeGroupHolds(OperandMeaning(s.first, df, m), LinkValues(s.links, df, m))
  }

  ghost function LinkValues(l: Links, df: string, m: Matcher): seq<Value> {
    match l
    case End => []
    case Link(conn, o, tail) => [Value(conn.Op(), OperandMeaning(o, df, m))] + LinkValues(tail, df, m)
  }

  ghost predicate OperandMeaning(o: Operand, df: string, m: Matcher) {
    match o
    case Term(t) => m(df, t)
    case FieldTerm(f, t) => m(f, t)
    case Group(s) => Meaning(s, df, m)
  }

  /** The tree the parser builds for any query means what the query means. */
  lemma {:induction false} BuildKeepsMeaning(s: Syntax, df: string, m: Matcher)
    ensures Eval(Build(s, df), m) == Meaning(s, df, m)
    decreases s
  {
    var e0, c := BuildOperand(s.first, df), ChainOf(s.links, df);
    BuildLinksIsFold(e0, s.links, df);
    ChainOfOperands(s.links, df);
    FoldMeansSomeGroup(e0, c, m);
    OperandKeepsMeaning(s.first, df, m);
    LinksKeepMeaning(s.links, df, m);
  }

  lemma {:induction false} LinksKeepMeaning(l: Links, df: string, m: Matcher)
    ensures Values(ChainOf(l, df), m) == LinkValues(l, df, m)
    decreases l
  {
    if l.Link? {
      OperandKeepsMeaning(l.operand, df, m);
      LinksKeepMeaning(l.tail, df, m);
    }
  }

  lemma {:induction false} OperandKeepsMeaning(o: Operand, df: string, m: Matcher)
    ensures Eval(BuildOperand(o, df), m) == OperandMeaning(o, df, m)
    decreases o
  {
    if o.Group? { BuildKeepsMeaning(o.inner, df, m); }
  }

  // ----- The precedence tree means the same -----

  /** A chain without OR is one conjunction, which splits at any AND. */
  lemma {:induction false} SplitConjunction(b0: bool, c: seq<Value>, k: nat)
    requires k < |c| && c[k].op == And && (forall i | 0 <= i < |c| :: c[i].op != Or)
    ensures LastHolds(b0, c) == (LastHolds(b0, c[..k]) && LastHolds(c[k].holds, c[k + 1..]))
    decreases |c|
  {
    var n := |c| - 1;
    if k < n {
      SplitConjunction(b0, c[..n], k);
      assert c[..n][..k] == c[..k] && c[..n][k + 1..] == c[k + 1..][..n - k - 1];
    } else {
      assert c[k + 1..] == [];
    }
  }

  lemma {:induction false} NoOrNoEarlier(b0: bool, c: seq<Value>)
    requires forall i | 0 <= i < |c| :: c[i].op != Or
    ensures !EarlierHolds(b0, c)
  {
    if c != [] { NoOrNoEarlier(b0, c[..|c| - 1]); }
  }

  lemma {:induction false} SplitAtLastOr(b0: bool, c: seq<Value>, k: nat)
    requires k < |c| && c[k].op == Or && (forall i | k < i < |c| :: c[i].op != Or)
    ensures LastHolds(b0, c) == LastHolds(c[k].holds, c[k + 1..])
    ensures EarlierHolds(b0, c) == (EarlierHolds(b0, c[..k]) || LastHolds(b0, c[..k]))
    decreases |c|
  {
    var n := |c| - 1;
    if k < n {
      SplitAtLastOr(b0, c[..n], k);
      assert c[..n][..k] == c[..k] && c[..n][k + 1..] == c[k + 1..][..n - k - 1];
    } else {
      assert c[k + 1..] == [];
    }
  }

  predicate Holds(b0: bool, c: seq<Value>) {
    EarlierHolds(b0, c) || LastHolds(b0, c)
  }

  /** The meaning of a chain from the meanings of the two sides of its last loosest operator. */
  lemma JoinSides(b0: bool, c: seq<Value>, k: nat)
    requires k < |c|
    requires forall i | 0 <= i < |c| :: c[k].op.Precedence() <= c[i].op.Precedence()
    requires forall i | k < i < |c| :: c[k].op.Precedence() < c[i].op.Precedence()
    ensures var l, r := Holds(b0, c[..k]), Holds(c[k].holds, c[k + 1..]);
            Holds(b0, c) == if c[k].op == Or then l || r else if c[k].op == And then l && r else l && !r
  {
    NoOrNoEarlier(c[k].holds, c[k + 1..]);
    if c[k].op == Or {
      SplitAtLastOr(b0, c, k);
    } else {
      NoOrNoEarlier(b0, c);
      NoOrNoEarlier(b0, c[..k]);
      if c[k].op == And {
        SplitConjunction(b0, c, k);
      } else {
        assert k == |c| - 1 && c[k + 1..] == [];
      }
    }
  }

  lemma {:induction false} ReferenceMeaning(e0: Expr, c: seq<Step>, m: Matcher)
    requires Operands(e0, c)
    ensures Eval(Reference(e0, c), m) == Holds(Eval(e0, m), Values(c, m))
    decreases |c|
  {
    if c != [] {
      var k := LastLoosest(c);
      ReferenceMeaning(e0, c[..k], m);
      ReferenceMeaning(c[k].rhs, c[k + 1..], m);
      SidesMeanTheWhole(e0, c, m, k, Reference(e0, c[..k]), Reference(c[k].rhs, c[k + 1..]));
    }
  }

  /** If the two sides of the root mean what their parts of the chain mean, then so does the whole. */
  lemma SidesMeanTheWhole(e0: Expr, c: seq<Step>, m: Matcher, k: nat, l: Expr, r: Expr)
    requires k < |c|
    requires forall i | 0 <= i < |c| :: c[k].op.Precedence() <= c[i].op.Precedence()
    requires forall i | k < i < |c| :: c[k].op.Precedence() < c[i].op.Precedence()
    requires Eval(l, m) == Holds(Eval(e0, m), Values(c[..k], m))
    requires Eval(r, m) == Holds(Eval(c[k].rhs, m), Values(c[k + 1..], m))
    ensures Eval(Binary(c[k].op, l, r), m) == Holds(Eval(e0, m), Values(c, m))
  {
    ValuesSplit(c, m, k);
    JoinSides(Eval(e0, m), Values(c, m), k);
    EvalBinary(c[k].op, l, r, m);
  }

  lemma EvalBinary(op: Operator, l: Expr, r: Expr, m: Matcher)
    ensures Eval(Binary(op, l, r), m) ==
            if op == Or then Eval(l, m) || Eval(r, m)
            else if op == And then Eval(l, m) && Eval(r, m) else Eval(l, m) && !Eval(r, m)
  {
  }

  lemma ValuesSplit(c: seq<Step>, m: Matcher, k: nat)
    requires k < |c|
    ensures var vs := Values(c, m);
            && vs[..k] == Values(c[..k], m) && vs[k + 1..] == Values(c[k + 1..], m)
            && vs[k] == Value(c[k].op, Eval(c[k].rhs, m))
            && forall i | 0 <= i < |c| :: vs[i].op == c[i].op
  {
  }

  lemma {:induction false} ReferenceKeepsMeaning(s: Syntax, df: string, m: Matcher)
    ensures Eval(ReferenceOf(s, df), m) == Meaning(s, df, m)
    decreases s
  {
    var e0, c := ReferenceOperand(s.first, df), ReferenceChain(s.links, df);
    ChainsShareOps(s.links, df);
    ReferenceMeaning(e0, c, m);
    SomeGroupLeftToRight(Eval(e0, m), Values(c, m));
    ReferenceOperandKeepsMeaning(s.first, df, m);
    ReferenceLinksKeepMeaning(s.links, df, m);
  }

  lemma {:induction false} ReferenceLinksKeepMeaning(l: Links, df: string, m: Matcher)
    ensures Values(ReferenceChain(l, df), m) == LinkValues(l, df, m)
    decreases l
  {
    if l.Link? {
      ReferenceOperandKeepsMeaning(l.operand, df, m);
      ReferenceLinksKeepMeaning(l.tail, df, m);
    }
  }

  lemma {:induction false} ReferenceOperandKeepsMeaning(o: Operand, df: string, m: Matcher)
    ensures Eval(ReferenceOperand(o, df), m) == OperandMeaning(o, df, m)
    decreases o
  {
    if o.Group? { ReferenceKeepsMeaning(o.inner, df, m); }
  }

  /** Whatever the shape, the parser's tree selects the same events as the strict precedence tree. */
  lemma DeparturesAreHarmless(s: Syntax, df: string, m: Matcher)
    ensures Eval(Build(s, df), m) == Eval(ReferenceOf(s, df), m)
  {
    BuildKeepsMeaning(s, df, m);
    ReferenceKeepsMeaning(s, df, m);
  }
}
