/** Facts about sequences, stated apart so that the proofs that use them stay small. */
module Sequences {

  lemma CutInFront<T>(a: seq<T>, b: seq<T>, k: nat)
    requires k < |a|
    ensures (a + b)[..k] == a[..k] && (a + b)[k + 1..] == a[k + 1..] + b
  {
  }

  lemma Associative<T>(a: seq<T>, b: seq<T>, c: seq<T>)
    ensures a + (b + c) == a + b + c
  {
  }

  lemma NilAppend<T>(s: seq<T>)
    ensures [] + s == s
  {
  }

  lemma HeadTail<T>(s: seq<T>)
    requires s != []
    ensures s == [s[0]] + s[1..]
  {
  }

  lemma LastOfAppend<T>(a: seq<T>, b: seq<T>)
    requires b != []
    ensures (a + b)[|a + b| - 1] == b[|b| - 1] && (a + b)[..|a + b| - 1] == a + b[..|b| - 1]
  {
  }

  lemma FrontSnoc<T>(s: seq<T>, i: nat)
    requires i < |s|
    ensures s[..i + 1] == s[..i] + [s[i]] && s[..i + 1][..i] == s[..i]
  {
  }

  // ----- Flattening -----

  function Flatten<T>(ss: seq<seq<T>>): seq<T> {
    if ss == [] then [] else Flatten(ss[..|ss| - 1]) + ss[|ss| - 1]
  }

  lemma FlattenSnoc<T>(ss: seq<seq<T>>, s: seq<T>)
    ensures Flatten(ss + [s]) == Flatten(ss) + s
  {
    assert (ss + [s])[..|ss|] == ss;
  }

  lemma {:induction false} FlattenCons<T>(s: seq<T>, ss: seq<seq<T>>)
    ensures Flatten([s] + ss) == s + Flatten(ss)
    decreases |ss|
  {
    var n := |ss| - 1;
    if ss == [] {
      assert [s] + ss == [s] && [s][..0] == [];
    } else {
      assert ([s] + ss)[..n + 1] == [s] + ss[..n];
      FlattenCons(s, ss[..n]);
      Associative(s, Flatten(ss[..n]), ss[n]);
    }
  }

  // ----- Inserting -----

  function InsertAt<T>(s: seq<T>, k: nat, x: T): seq<T>
    requires k <= |s|
  {
    s[..k] + [x] + s[k..]
  }

  /** An inserted element comes in between; the others stay. */
  lemma Inserted<T>(s: seq<T>, k: nat, x: T, i: nat)
    requires k <= |s| && i <= |s|
    ensures InsertAt(s, k, x)[i] == if i < k then s[i] else if i == k then x else s[i - 1]
    ensures i < |s| ==> s[i] == InsertAt(s, k, x)[if i < k then i else i + 1]
  {
  }

  lemma MultisetTail<T>(s: seq<T>)
    requires s != []
    ensures multiset(s[1..]) == multiset(s) - multiset{s[0]}
  {
    assert s == [s[0]] + s[1..];
  }

  ghost predicate NoDuplicates<T>(s: seq<T>) {
    forall i, j | 0 <= i < j < |s| :: s[i] != s[j]
  }

  lemma UniqueStaysUnique<T>(a: seq<T>, b: seq<T>)
    requires NoDuplicates(a) && multiset(a) == multiset(b)
    ensures NoDuplicates(b)
  {
    forall i, j | 0 <= i < j < |b| ensures b[i] != b[j] {
      if b[i] == b[j] {
        TwiceInMultiset(b, i, j);
        OnceInMultiset(a, b[i]);
        assert false;
      }
    }
  }

  lemma TwiceInMultiset<T>(b: seq<T>, i: nat, j: nat)
    requires i < j < |b| && b[i] == b[j]
    ensures multiset(b)[b[i]] >= 2
  {
    assert b == b[..i] + [b[i]] + b[i + 1..j] + [b[j]] + b[j + 1..];
  }

  lemma {:induction false} OnceInMultiset<T>(a: seq<T>, x: T)
    requires NoDuplicates(a)
    ensures multiset(a)[x] <= 1
    decreases |a|
  {
    if a != [] {
      var n := |a| - 1;
      OnceInMultiset(a[..n], x);
      assert a == a[..n] + [a[n]];
      if a[n] == x {
        assert x !in a[..n];
      }
    }
  }

  /** A list without duplicates has as many elements as places. */
  lemma {:induction false} SetOfDistinct<T>(s: seq<T>)
    requires NoDuplicates(s)
    ensures |set x | x in s| == |s|
    decreases |s|
  {
    if s != [] {
      var n := |s| - 1;
      SetOfDistinct(s[..n]);
      assert s[n] !in s[..n];
      assert (set x | x in s) == (set x | x in s[..n]) + {s[n]};
    }
  }

  // ----- Sorting by insertion -----

  ghost predicate StrictOrder<T(!new)>(less: (T, T) -> bool) {
    (forall x :: !less(x, x)) && (forall x, y, z :: less(x, y) && less(y, z) ==> less(x, z))
  }

  /** No later element belongs in front of an earlier one. */
  ghost predicate Ordered<T>(s: seq<T>, less: (T, T) -> bool) {
    forall i, j | 0 <= i < j < |s| :: !less(s[j], s[i])
  }

  function InsertBy<T>(s: seq<T>, x: T, less: (T, T) -> bool): (r: seq<T>)
    ensures |r| == |s| + 1
  {
    if s == [] || less(x, s[0]) then [x] + s else [s[0]] + InsertBy(s[1..], x, less)
  }

  function SortBy<T>(s: seq<T>, less: (T, T) -> bool): (r: seq<T>)
    ensures |r| == |s|
  {
    if s == [] then [] else InsertBy(SortBy(s[1..], less), s[0], less)
  }

  lemma {:induction false} InsertByPermutes<T>(s: seq<T>, x: T, less: (T, T) -> bool)
    ensures multiset(InsertBy(s, x, less)) == multiset(s) + multiset{x}
    decreases |s|
  {
    if s != [] && !less(x, s[0]) {
      InsertByPermutes(s[1..], x, less);
      HeadTail(s);
    }
  }

  ghost predicate NoneBefore<T>(s: seq<T>, x: T, less: (T, T) -> bool) {
    forall j | 0 <= j < |s| :: !less(s[j], x)
  }

  lemma HeadInFront<T>(x: T, s: seq<T>, less: (T, T) -> bool)
    requires Ordered(s, less) && NoneBefore(s, x, less)
    ensures Ordered([x] + s, less)
  {
  }

  lemma NoneBeforeHead<T>(s: seq<T>, x: T, less: (T, T) -> bool)
    requires s != [] && Ordered(s, less) && !less(x, s[0])
    ensures NoneBefore(InsertBy(s[1..], x, less), s[0], less)
  {
    var r := InsertBy(s[1..], x, less);
    InsertByPermutes(s[1..], x, less);
    forall j | 0 <= j < |r| ensures !less(r[j], s[0]) {
      assert r[j] in multiset(r);
      if r[j] != x {
        var k :| 0 <= k < |s| - 1 && s[1..][k] == r[j];
        assert s[k + 1] == r[j];
      }
    }
  }

  lemma {:induction false} InsertByOrders<T(!new)>(s: seq<T>, x: T, less: (T, T) -> bool)
    requires StrictOrder(less) && Ordered(s, less)
    ensures Ordered(InsertBy(s, x, less), less)
    decreases |s|
  {
    if s == [] {
    } else if less(x, s[0]) {
      assert forall j | 0 <= j < |s| :: less(s[j], x) ==> less(s[j], s[0]);
      HeadInFront(x, s, less);
    } else {
      InsertByOrders(s[1..], x, less);
      NoneBeforeHead(s, x, less);
      HeadInFront(s[0], InsertBy(s[1..], x, less), less);
    }
  }

  /** Sorting gives an ordered permutation. */
  lemma {:induction false} SortBySorts<T(!new)>(s: seq<T>, less: (T, T) -> bool)
    requires StrictOrder(less)
    ensures Ordered(SortBy(s, less), less) && multiset(SortBy(s, less)) == multiset(s)
    decreases |s|
  {
    if s != [] {
      SortBySorts(s[1..], less);
      InsertByOrders(SortBy(s[1..], less), s[0], less);
      InsertByPermutes(SortBy(s[1..], less), s[0], less);
      HeadTail(s);
    }
  }

  /** Only equal elements stand neither in front of nor behind each other. */
  ghost predicate TiesAreEqual<T>(s: seq<T>, less: (T, T) -> bool) {
    forall i, j | 0 <= i < |s| && 0 <= j < |s| && !less(s[i], s[j]) && !less(s[j], s[i]) :: s[i] == s[j]
  }

  lemma FirstIsUnique<T>(r: seq<T>, s: seq<T>, less: (T, T) -> bool)
    requires multiset(r) == multiset(s) && r != [] && s != []
    requires Ordered(r, less) && Ordered(s, less) && TiesAreEqual(s, less)
    ensures r[0] == s[0]
  {
    assert r[0] in multiset(s) && s[0] in multiset(r);
    var i :| 0 <= i < |s| && s[i] == r[0];
    var j :| 0 <= j < |r| && r[j] == s[0];
  }

  /** There is only one ordered arrangement, so the sorting algorithm does not matter. */
  lemma {:induction false} OrderedIsUnique<T>(r: seq<T>, s: seq<T>, less: (T, T) -> bool)
    requires multiset(r) == multiset(s) && Ordered(r, less) && Ordered(s, less) && TiesAreEqual(s, less)
    ensures r == s
    decreases |r|
  {
    assert |r| == |multiset(r)| && |s| == |multiset(s)|;
    if r != [] {
      FirstIsUnique(r, s, less);
      MultisetTail(r);
      MultisetTail(s);
      OrderedIsUnique(r[1..], s[1..], less);
      HeadTail(r);
      HeadTail(s);
    }
  }
}
