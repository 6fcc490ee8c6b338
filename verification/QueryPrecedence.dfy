/** What tree the parser's one-step root rotation builds (query/parser.go:120-147): exactly when it is
    the left-associative precedence tree, for chains of any length and any nesting of parentheses. */
module QueryPrecedence {
  import opened QueryTokens
  import opened QueryGrammar

  /** An operator and the operand to its right. */
  datatype Step = Step(op: Operator, rhs: Expr)

  /** The chain e0 op1 e1 op2 e2 ..., combined from left to right. */
  function Fold(e0: Expr, c: seq<Step>): Expr {
    if c == [] then e0
    else Combine(Fold(e0, c[..|c| - 1]), c[|c| - 1].op, c[|c| - 1].rhs)
  }

  ghost predicate Operands(e0: Expr, c: seq<Step>) {
    !e0.Binary? && forall i | 0 <= i < |c| :: !c[i].rhs.Binary?
  }

  // ----- The reference: precedence grammar, left-associative -----

  /** Position of the last operator that binds most loosely. */
  function LastLoosest(c: seq<Step>): (k: nat)
    requires c != []
    ensures k < |c|
    ensures forall i | 0 <= i < |c| :: c[k].op.Precedence() <= c[i].op.Precedence()
    ensures forall i | k < i < |c| :: c[k].op.Precedence() < c[i].op.Precedence()
  {
    var n := |c| - 1;
    if n == 0 then 0
    else
      var k := LastLoosest(c[..n]);
      if c[n].op.Precedence() <= c[k].op.Precedence() then n else k
  }

  /** The reference tree: the last loosest operator is the root, and both sides are built alike. */
  function Reference(e0: Expr, c: seq<Step>): Expr
    decreases |c|
  {
    if c == [] then e0
    else
      var k := LastLoosest(c);
      Binary(c[k].op, Reference(e0, c[..k]), Reference(c[k].rhs, c[k + 1..]))
  }

  /** No operator binds more loosely than its parent, and none on a right-hand side binds as loosely. */
  predicate Respects(t: Expr) {
    t.Binary? ==>
      && Respects(t.lhs) && Respects(t.rhs)
      && (t.lhs.Binary? ==> t.op.Precedence() <= t.lhs.op.Precedence())
      && (t.rhs.Binary? ==> t.op.Precedence() < t.rhs.op.Precedence())
  }

  // ----- In-order yield -----

  datatype Item = Atom(e: Expr) | Oper(op: Operator)

  function Yield(t: Expr): (y: seq<Item>)
    ensures y != []
  {
    if t.Binary? then Yield(t.lhs) + [Oper(t.op)] + Yield(t.rhs) else [Atom(t)]
  }

  function Flat(e0: Expr, c: seq<Step>): seq<Item> {
    if c == [] then [Atom(e0)]
    else Flat(e0, c[..|c| - 1]) + [Oper(c[|c| - 1].op), Atom(c[|c| - 1].rhs)]
  }

  /** Rotation never reorders: reading the tree from left to right gives back the chain. */
  lemma {:induction false} FoldYield(e0: Expr, c: seq<Step>)
    requires Operands(e0, c)
    ensures Yield(Fold(e0, c)) == Flat(e0, c)
  {
    if c != [] {
      var n := |c| - 1;
      FoldYield(e0, c[..n]);
      var t := Fold(e0, c[..n]);
      CombineYield(t, c[n].op, c[n].rhs);
    }
  }

  lemma CombineYield(t: Expr, op: Operator, rhs: Expr)
    requires !rhs.Binary?
    ensures Yield(Combine(t, op, rhs)) == Yield(t) + [Oper(op), Atom(rhs)]
  {
    if t.Binary? && t.op.Precedence() < op.Precedence() {
      assert Yield(Binary(op, t.rhs, rhs)) == Yield(t.rhs) + [Oper(op), Atom(rhs)];
    }
  }

  lemma {:induction false} FlatSplit(e0: Expr, c: seq<Step>, k: nat)
    requires k < |c|
    ensures Flat(e0, c) == Flat(e0, c[..k]) + [Oper(c[k].op)] + Flat(c[k].rhs, c[k + 1..])
    decreases |c|
  {
    var n := |c| - 1;
    if k < n {
      FlatSplit(e0, c[..n], k);
      assert c[..n][..k] == c[..k] && c[..n][k + 1..] == c[k + 1..][..n - k - 1];
    } else {
      assert c[k + 1..] == [];
    }
  }

  lemma {:induction false} ReferenceYield(e0: Expr, c: seq<Step>)
    requires Operands(e0, c)
    ensures Yield(Reference(e0, c)) == Flat(e0, c)
    decreases |c|
  {
    if c != [] {
      var k := LastLoosest(c);
      ReferenceYield(e0, c[..k]);
      ReferenceYield(c[k].rhs, c[k + 1..]);
      FlatSplit(e0, c, k);
    }
  }

  lemma {:induction false} ReferenceRespects(e0: Expr, c: seq<Step>)
    requires Operands(e0, c)
    ensures Respects(Reference(e0, c))
    decreases |c|
  {
    if c != [] {
      var k := LastLoosest(c);
      ReferenceRespects(e0, c[..k]);
      ReferenceRespects(c[k].rhs, c[k + 1..]);
    }
  }

  // ----- A tree that respects precedence is determined by its yield -----

  /** Every operator below a root that respects precedence binds at least as tightly as the root. */
  lemma {:induction false} RootIsLoosest(t: Expr, i: nat)
    requires Respects(t) && t.Binary?
    requires i < |Yield(t)| && Yield(t)[i].Oper?
    ensures t.op.Precedence() <= Yield(t)[i].op.Precedence()
    ensures |Yield(t.lhs)| < i ==> t.op.Precedence() < Yield(t)[i].op.Precedence()
    decreases t
  {
    var l := |Yield(t.lhs)|;
    if i < l {
      assert Yield(t)[i] == Yield(t.lhs)[i];
      RootIsLoosest(t.lhs, i);
    } else if i > l {
      assert Yield(t)[i] == Yield(t.rhs)[i - l - 1];
      RootIsLoosest(t.rhs, i - l - 1);
    }
  }

  lemma {:induction false} RespectfulTreesAreUnique(t: Expr, u: Expr)
    requires Respects(t) && Respects(u) && Yield(t) == Yield(u)
    ensures t == u
    decreases t
  {
    if t.Binary? && u.Binary? {
      var l, m := |Yield(t.lhs)|, |Yield(u.lhs)|;
      assert Yield(t)[l] == Oper(t.op) && Yield(u)[m] == Oper(u.op);
      RootIsLoosest(t, m);
      RootIsLoosest(u, l);
      assert l == m;
      assert Yield(t.lhs) == Yield(t)[..l] && Yield(u.lhs) == Yield(u)[..l];
      assert Yield(t.rhs) == Yield(t)[l + 1..] && Yield(u.rhs) == Yield(u)[l + 1..];
      RespectfulTreesAreUnique(t.lhs, u.lhs);
      RespectfulTreesAreUnique(t.rhs, u.rhs);
    } else {
      assert Yield(t)[0] == Yield(u)[0];
    }
  }

  // ----- Exactly when the rotation respects precedence -----

  /** Somewhere after an OR, an AND is followed directly by a NOT. */
  ghost predicate LateAndNot(c: seq<Step>) {
    exists k: nat :: LateAndNotAt(c, k)
  }

  ghost predicate LateAndNotAt(c: seq<Step>, k: nat) {
    k + 1 < |c| && c[k].op == And && c[k + 1].op == Not && HasOr(c[..k])
  }

  ghost predicate HasOr(c: seq<Step>) {
    exists i | 0 <= i < |c| :: c[i].op == Or
  }

  lemma LateAndNotSnoc(c: seq<Step>)
    requires c != []
    ensures var n := |c| - 1;
            LateAndNot(c) <==> LateAndNot(c[..n]) || (n > 0 && LateAndNotAt(c, n - 1))
  {
    var n := |c| - 1;
    forall k: nat | k + 1 < n ensures LateAndNotAt(c, k) <==> LateAndNotAt(c[..n], k) {
      assert c[..n][..k] == c[..k];
    }
    if LateAndNot(c) {
      var k: nat :| LateAndNotAt(c, k);
      assert k + 1 < n ==> LateAndNotAt(c[..n], k);
    }
    if LateAndNot(c[..n]) {
      var k: nat :| LateAndNotAt(c[..n], k);
      assert LateAndNotAt(c, k);
    }
  }

  lemma HasOrSnoc(c: seq<Step>)
    requires c != []
    ensures HasOr(c) <==> HasOr(c[..|c| - 1]) || c[|c| - 1].op == Or
  {
    var n := |c| - 1;
    if HasOr(c) {
      var i :| 0 <= i < |c| && c[i].op == Or;
      assert i < n ==> c[..n][i].op == Or;
    }
    if HasOr(c[..n]) {
      var i :| 0 <= i < n && c[..n][i].op == Or;
      assert c[i].op == Or;
    }
  }

  /** What the root and its right-hand side are after each operator, and whether the tree is in order. */
  ghost predicate FoldInvariant(t: Expr, c: seq<Step>) {
    && (c == [] <==> !t.Binary?)
    && (Respects(t) <==> !LateAndNot(c))
    && (c != [] && HasOr(c) ==>
          t.op == Or && (if c[|c| - 1].op == Or then !t.rhs.Binary? else t.rhs.Binary? && t.rhs.op == c[|c| - 1].op))
    && (c != [] && !HasOr(c) ==>
          t.op != Or && (t.rhs.Binary? ==> t.rhs.op == Not) && (c[|c| - 1].op == And ==> t.op == And))
  }

  lemma {:induction false} FoldKeepsInvariant(e0: Expr, c: seq<Step>)
    requires Operands(e0, c)
    ensures FoldInvariant(Fold(e0, c), c)
  {
    if c == [] {
      assert !LateAndNot(c);
    } else {
      FoldKeepsInvariant(e0, c[..|c| - 1]);
      FoldInvariantStep(Fold(e0, c[..|c| - 1]), c);
    }
  }

  lemma FoldInvariantStep(t: Expr, c: seq<Step>)
    requires c != [] && FoldInvariant(t, c[..|c| - 1]) && !c[|c| - 1].rhs.Binary?
    ensures FoldInvariant(Combine(t, c[|c| - 1].op, c[|c| - 1].rhs), c)
  {
    var n := |c| - 1;
    LateAndNotSnoc(c);
    HasOrSnoc(c);
    if n > 0 {
      assert c[..n][n - 1] == c[n - 1];
      assert c[..n][..n - 1] == c[..n - 1];
      HasOrSnoc(c[..n]);
    }
    var op, x := c[n].op, c[n].rhs;
    if t.Binary? && t.op.Precedence() < op.Precedence() {
      var r := Binary(op, t.rhs, x);
      assert Respects(r) <==> Respects(t.rhs) && (t.rhs.Binary? ==> op.Precedence() <= t.rhs.op.Precedence());
    }
  }

  /** The rotation builds the reference tree exactly when no AND directly before a NOT comes after an OR. */
  lemma RotationIsReferenceIff(e0: Expr, c: seq<Step>)
    requires Operands(e0, c)
    ensures Fold(e0, c) == Reference(e0, c) <==> !LateAndNot(c)
  {
    FoldKeepsInvariant(e0, c);
    ReferenceRespects(e0, c);
    if !LateAndNot(c) {
      FoldYield(e0, c);
      ReferenceYield(e0, c);
      RespectfulTreesAreUnique(Fold(e0, c), Reference(e0, c));
    }
  }

  /** In particular, chains that use at most two of the three operators always get the reference tree. */
  lemma TwoLevelsSuffice(e0: Expr, c: seq<Step>, absent: Operator)
    requires Operands(e0, c)
    requires forall i | 0 <= i < |c| :: c[i].op != absent
    ensures Fold(e0, c) == Reference(e0, c)
  {
    RotationIsReferenceIff(e0, c);
  }

  /** a OR b AND c NOT d: the NOT takes the whole of b AND c as its left-hand side. */
  lemma ThreeLevelsDepart(a: Expr, b: Expr, c: Expr, d: Expr)
    requires !a.Binary? && !b.Binary? && !c.Binary? && !d.Binary?
    ensures var chain := [Step(Or, b), Step(And, c), Step(Not, d)];
            && Fold(a, chain) == Binary(Or, a, Binary(Not, Binary(And, b, c), d))
            && Reference(a, chain) == Binary(Or, a, Binary(And, b, Binary(Not, c, d)))
  {
    DepartingFold(a, b, c, d);
    DepartingReference(a, b, c, d);
  }

  lemma DepartingFold(a: Expr, b: Expr, c: Expr, d: Expr)
    requires !a.Binary? && !b.Binary? && !c.Binary? && !d.Binary?
    ensures Fold(a, [Step(Or, b), Step(And, c), Step(Not, d)]) == Binary(Or, a, Binary(Not, Binary(And, b, c), d))
  {
    var c1, c2, chain := [Step(Or, b)], [Step(Or, b), Step(And, c)], [Step(Or, b), Step(And, c), Step(Not, d)];
    assert chain[..2] == c2 && c2[..1] == c1 && c1[..0] == [];
    assert Fold(a, c1) == Binary(Or, a, b);
    assert Fold(a, c2) == Binary(Or, a, Binary(And, b, c));
  }

  lemma DepartingReference(a: Expr, b: Expr, c: Expr, d: Expr)
    requires !a.Binary? && !b.Binary? && !c.Binary? && !d.Binary?
    ensures Reference(a, [Step(Or, b), Step(And, c), Step(Not, d)]) == Binary(Or, a, Binary(And, b, Binary(Not, c, d)))
  {
    var r1, r2, chain := [Step(Not, d)], [Step(And, c), Step(Not, d)], [Step(Or, b), Step(And, c), Step(Not, d)];
    assert chain[..0] == [] && chain[1..] == r2 && r2[..0] == [] && r2[1..] == r1 && r1[..0] == [] && r1[1..] == [];
    assert LastLoosest(r1) == 0 && LastLoosest(r2) == 0 && LastLoosest(chain) == 0;
    assert Reference(c, r1) == Binary(Not, c, d);
    assert Reference(b, r2) == Binary(And, b, Binary(Not, c, d));
  }

  // ----- The same for whole queries, through every level of parentheses -----

  function ChainOf(l: Links, df: string): seq<Step> {
    match l
    case End => []
    case Link(conn, o, tail) => [Step(conn.Op(), BuildOperand(o, df))] + ChainOf(tail, df)
  }

  lemma {:induction false} FoldCons(e: Expr, s: Step, c: seq<Step>)
    ensures Fold(e, [s] + c) == Fold(Combine(e, s.op, s.rhs), c)
  {
    var whole := [s] + c;
    if c == [] {
      assert whole[..0] == [];
    } else {
      var n := |c| - 1;
      assert whole[..|whole| - 1] == [s] + c[..n];
      FoldCons(e, s, c[..n]);
    }
  }

  lemma {:induction false} BuildLinksIsFold(e: Expr, l: Links, df: string)
    ensures BuildLinks(e, l, df) == Fold(e, ChainOf(l, df))
    decreases l
  {
    match l
    case End =>
    case Link(conn, o, tail) =>
      var s := Step(conn.Op(), BuildOperand(o, df));
      FoldCons(e, s, ChainOf(tail, df));
      BuildLinksIsFold(Combine(e, s.op, s.rhs), tail, df);
  }

  lemma {:induction false} ChainOfOperands(l: Links, df: string)
    ensures forall i | 0 <= i < |ChainOf(l, df)| :: !ChainOf(l, df)[i].rhs.Binary?
  {
    if l.Link? { ChainOfOperands(l.tail, df); }
  }

  /** Reading the parser's tree from left to right gives the operands and operators of the query in order, with an AND
      where none was written. */
  lemma BuildYield(s: Syntax, df: string)
    ensures Yield(Build(s, df)) == Flat(BuildOperand(s.first, df), ChainOf(s.links, df))
  {
    BuildLinksIsFold(BuildOperand(s.first, df), s.links, df);
    ChainOfOperands(s.links, df);
    FoldYield(BuildOperand(s.first, df), ChainOf(s.links, df));
  }

  /** The reference tree of a whole query: the reference tree at every level of parentheses. */
  function ReferenceOf(s: Syntax, df: string): Expr {
    Reference(ReferenceOperand(s.first, df), ReferenceChain(s.links, df))
  }

  function ReferenceChain(l: Links, df: string): seq<Step> {
    match l
    case End => []
    case Link(conn, o, tail) => [Step(conn.Op(), ReferenceOperand(o, df))] + ReferenceChain(tail, df)
  }

  function ReferenceOperand(o: Operand, df: string): (e: Expr)
    ensures !e.Binary?
  {
    match o
    case Term(t) => Field(df, t)
    case FieldTerm(f, t) => Field(f, t)
    case Group(s) => Paren(ReferenceOf(s, df))
  }

  /** No chain of the query, at any level, has an AND directly before a NOT after an OR. */
  ghost predicate NeverLateAndNot(s: Syntax) {
    !LateAndNot(ChainOf(s.links, "")) && OperandNeverLate(s.first) && LinksNeverLate(s.links)
  }

  ghost predicate LinksNeverLate(l: Links) {
    l.Link? ==> OperandNeverLate(l.operand) && LinksNeverLate(l.tail)
  }

  ghost predicate OperandNeverLate(o: Operand) {
    o.Group? ==> NeverLateAndNot(o.inner)
  }

  ghost predicate SameOps(c: seq<Step>, d: seq<Step>) {
    |c| == |d| && forall i | 0 <= i < |c| :: c[i].op == d[i].op
  }

  lemma LateAndNotDependsOnOps(c: seq<Step>, d: seq<Step>)
    requires SameOps(c, d)
    ensures LateAndNot(c) <==> LateAndNot(d)
  {
    forall k: nat ensures LateAndNotAt(c, k) <==> LateAndNotAt(d, k) {
      if k <= |c| {
        assert forall i | 0 <= i < k :: c[..k][i] == c[i] && d[..k][i] == d[i];
      }
    }
  }

  lemma {:induction false} ChainsShareOps(l: Links, df: string)
    ensures SameOps(ChainOf(l, ""), ChainOf(l, df))
    ensures SameOps(ReferenceChain(l, df), ChainOf(l, df))
    ensures forall i | 0 <= i < |ReferenceChain(l, df)| :: !ReferenceChain(l, df)[i].rhs.Binary?
  {
    if l.Link? { ChainsShareOps(l.tail, df); }
  }

  /** The reference tree is in order at every level of parentheses, so it tells a departure apart. */
  predicate RespectsDeeply(t: Expr) {
    match t
    case Field(_, _) => true
    case EmptyParen => true
    case Paren(e) => Respects(e) && RespectsDeeply(e)
    case Binary(_, l, r) => RespectsDeeply(l) && RespectsDeeply(r)
  }

  /** Every operand of the chain is in order inside its parentheses. */
  ghost predicate ChainDeep(e0: Expr, c: seq<Step>) {
    RespectsDeeply(e0) && AllDeep(c)
  }

  ghost predicate AllDeep(c: seq<Step>) {
    forall i | 0 <= i < |c| :: RespectsDeeply(c[i].rhs)
  }

  lemma AllDeepCons(s: Step, c: seq<Step>)
    ensures AllDeep([s] + c) <==> RespectsDeeply(s.rhs) && AllDeep(c)
  {
    var whole := [s] + c;
    if AllDeep(whole) {
      assert whole[0] == s;
      assert forall i | 0 <= i < |c| :: c[i] == whole[i + 1];
    }
  }

  lemma {:induction false} FoldDeep(e0: Expr, c: seq<Step>)
    requires Operands(e0, c)
    ensures RespectsDeeply(Fold(e0, c)) <==> ChainDeep(e0, c)
  {
    if c != [] {
      var n := |c| - 1;
      FoldDeep(e0, c[..n]);
      assert ChainDeep(e0, c) <==> ChainDeep(e0, c[..n]) && RespectsDeeply(c[n].rhs) by {
        assert forall i | 0 <= i < n :: c[..n][i] == c[i];
      }
    }
  }

  lemma {:induction false} ReferenceDeep(e0: Expr, c: seq<Step>)
    requires Operands(e0, c) && ChainDeep(e0, c)
    ensures RespectsDeeply(Reference(e0, c))
    decreases |c|
  {
    if c != [] {
      var k := LastLoosest(c);
      ReferenceDeep(e0, c[..k]);
      ReferenceDeep(c[k].rhs, c[k + 1..]);
    }
  }

  lemma {:induction false} BuildInOrderIff(s: Syntax, df: string)
    ensures Respects(Build(s, df)) && RespectsDeeply(Build(s, df)) <==> NeverLateAndNot(s)
    decreases s
  {
    var e0, c := BuildOperand(s.first, df), ChainOf(s.links, df);
    BuildLinksIsFold(e0, s.links, df);
    ChainOfOperands(s.links, df);
    FoldKeepsInvariant(e0, c);
    ChainsShareOps(s.links, df);
    LateAndNotDependsOnOps(ChainOf(s.links, ""), c);
    FoldDeep(e0, c);
    OperandInOrderIff(s.first, df);
    LinksInOrderIff(s.links, df);
  }

  lemma {:induction false} LinksInOrderIff(l: Links, df: string)
    ensures AllDeep(ChainOf(l, df)) <==> LinksNeverLate(l)
    decreases l
  {
    if l.Link? {
      OperandInOrderIff(l.operand, df);
      LinksInOrderIff(l.tail, df);
      AllDeepCons(Step(l.conn.Op(), BuildOperand(l.operand, df)), ChainOf(l.tail, df));
    }
  }

  lemma {:induction false} OperandInOrderIff(o: Operand, df: string)
    ensures RespectsDeeply(BuildOperand(o, df)) <==> OperandNeverLate(o)
    decreases o
  {
    if o.Group? { BuildInOrderIff(o.inner, df); }
  }

  lemma {:induction false} ReferenceInOrder(s: Syntax, df: string)
    ensures Respects(ReferenceOf(s, df)) && RespectsDeeply(ReferenceOf(s, df))
    decreases s
  {
    var e0, c := ReferenceOperand(s.first, df), ReferenceChain(s.links, df);
    ChainsShareOps(s.links, df);
    ReferenceOperandInOrder(s.first, df);
    ReferenceLinksInOrder(s.links, df);
    ReferenceRespects(e0, c);
    ReferenceDeep(e0, c);
  }

  lemma {:induction false} ReferenceLinksInOrder(l: Links, df: string)
    ensures AllDeep(ReferenceChain(l, df))
    decreases l
  {
    if l.Link? {
      ReferenceOperandInOrder(l.operand, df);
      ReferenceLinksInOrder(l.tail, df);
      AllDeepCons(Step(l.conn.Op(), ReferenceOperand(l.operand, df)), ReferenceChain(l.tail, df));
    }
  }

  lemma {:induction false} ReferenceOperandInOrder(o: Operand, df: string)
    ensures RespectsDeeply(ReferenceOperand(o, df))
    decreases o
  {
    if o.Group? { ReferenceInOrder(o.inner, df); }
  }

  lemma {:induction false} InOrderBuildsReference(s: Syntax, df: string)
    requires NeverLateAndNot(s)
    ensures Build(s, df) == ReferenceOf(s, df)
    decreases s
  {
    var e0, c := BuildOperand(s.first, df), ChainOf(s.links, df);
    InOrderOperand(s.first, df);
    InOrderLinks(s.links, df);
    BuildLinksIsFold(e0, s.links, df);
    ChainOfOperands(s.links, df);
    ChainsShareOps(s.links, df);
    LateAndNotDependsOnOps(ChainOf(s.links, ""), c);
    RotationIsReferenceIff(e0, c);
  }

  lemma {:induction false} InOrderLinks(l: Links, df: string)
    requires LinksNeverLate(l)
    ensures ChainOf(l, df) == ReferenceChain(l, df)
    decreases l
  {
    if l.Link? {
      InOrderOperand(l.operand, df);
      InOrderLinks(l.tail, df);
    }
  }

  lemma {:induction false} InOrderOperand(o: Operand, df: string)
    requires OperandNeverLate(o)
    ensures BuildOperand(o, df) == ReferenceOperand(o, df)
    decreases o
  {
    if o.Group? { InOrderBuildsReference(o.inner, df); }
  }

  /** For every query the grammar derives: the parser's tree is the precedence tree, at every level of
      parentheses, exactly when no chain at any level has an AND directly before a NOT after an OR. */
  lemma ParseTreeIsReferenceIff(s: Syntax, df: string)
    ensures Build(s, df) == ReferenceOf(s, df) <==> NeverLateAndNot(s)
  {
    if NeverLateAndNot(s) {
      InOrderBuildsReference(s, df);
    } else {
      BuildInOrderIff(s, df);
      ReferenceInOrder(s, df);
    }
  }
}
