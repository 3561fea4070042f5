/**
  Which statements have the same condition tree (query_structural_compatible.cpp)
  and what merging two of them gives (reduce_statement.cpp).

  A statement of rank zero counts as simple: it is carried over unmerged.  The others
  are paired in order.
*/
module StructuralCompatible {
  import opened Statements
  import opened StructuralCmp

  /** A list starts with a statement that needs no merging. */
  predicate SimpleFirst(l: seq<Stm>) {
    l != [] && Rank(l[0]) == 0
  }

  function BranchingCount(l: seq<Stm>): (n: nat)
    ensures n <= |l|
  {
    if l == [] then 0 else (if Rank(l[0]) > 0 then 1 else 0) + BranchingCount(l[1..])
  }

  // ---------- Are two statements mergeable? ----------

  /** As written, the branch taken when the condition holds is compared with itself. */
  predicate IsMergable(v: Version, a: Stm, b: Stm)
    decreases a, 2
  {
    match (a, b)
    case (Assign(_, _, _), Assign(_, _, _)) => true
    case (If(aCond, aTrue, aElse, aSpec, aFalse, _), If(bCond, bTrue, bElse, bSpec, bFalse, _)) =>
      && aCond == bCond
      && IsMergableList(v, aTrue, if v.AsWritten? then aTrue else bTrue)
      && |aElse| == |bElse|
      && IsMergableElifs(v, aElse, bElse)
      && aSpec == bSpec
      && (aSpec ==> IsMergableList(v, aFalse, bFalse))
    case _ => false
  }

  /** Branching statements pair up in order, simple ones are skipped. */
  predicate IsMergableList(v: Version, a: seq<Stm>, b: seq<Stm>)
    decreases a, 0, b
  {
    if SimpleFirst(a) then IsMergableList(v, a[1..], b)
    else if SimpleFirst(b) then IsMergableList(v, a, b[1..])
    else if a == [] || b == [] then a == b
    else IsMergable(v, a[0], b[0]) && IsMergableList(v, a[1..], b[1..])
  }

  predicate IsMergableElifs(v: Version, a: seq<Branch>, b: seq<Branch>)
    requires |a| == |b|
    decreases a, 0
  {
    a == [] || (a[0].cond == b[0].cond && IsMergableList(v, a[0].body, b[0].body) && IsMergableElifs(v, a[1..], b[1..]))
  }

  // ---------- Merging ----------

  /** Every pair of ifs that merging brings together has equally many else-ifs, as merging asserts. */
  predicate ElifsFit(a: Stm, b: Stm)
    requires a.If? && b.If?
    decreases a, 2
  {
    && ElifsFitList(a.ifTrue, b.ifTrue)
    && |a.elseIf| == |b.elseIf|
    && ElifsFitBranches(a.elseIf, b.elseIf)
    && ElifsFitList(a.ifFalse, b.ifFalse)
  }

  predicate ElifsFitList(a: seq<Stm>, b: seq<Stm>)
    decreases a, 0, b
  {
    if SimpleFirst(a) then ElifsFitList(a[1..], b)
    else if SimpleFirst(b) then ElifsFitList(a, b[1..])
    else a == [] || b == [] || (ElifsFit(a[0], b[0]) && ElifsFitList(a[1..], b[1..]))
  }

  predicate ElifsFitBranches(a: seq<Branch>, b: seq<Branch>)
    requires |a| == |b|
    decreases a, 0
  {
    a == [] || (ElifsFitList(a[0].body, b[0].body) && ElifsFitBranches(a[1..], b[1..]))
  }

  function MergeIf(a: Stm, b: Stm): (r: Stm)
    requires a.If? && b.If? && ElifsFit(a, b)
    ensures r.If? && r.rank == a.rank
    decreases a, 2
  {
    If(a.cond, MergeLists(a.ifTrue, b.ifTrue), MergeBranches(a.elseIf, b.elseIf),
       a.falseSpecified, MergeLists(a.ifFalse, b.ifFalse), a.rank)
  }

  /**
    Simple statements of the first list, then of the second, then the next branching one of
    each, merged.  What follows is dropped once only one list has a branching statement left.
  */
  function MergeLists(a: seq<Stm>, b: seq<Stm>): seq<Stm>
    requires ElifsFitList(a, b)
    decreases a, 0, b
  {
    if SimpleFirst(a) then [a[0]] + MergeLists(a[1..], b)
    else if SimpleFirst(b) then [b[0]] + MergeLists(a, b[1..])
    else if a == [] then b[..if b == [] then 0 else 1]
    else if b == [] then a[..1]
    else [MergeIf(a[0], b[0])] + MergeLists(a[1..], b[1..])
  }

  function MergeBranches(a: seq<Branch>, b: seq<Branch>): (r: seq<Branch>)
    requires |a| == |b| && ElifsFitBranches(a, b)
    ensures |r| == |a|
    decreases a, 0
  {
    if a == [] then []
    else [Branch(a[0].cond, MergeLists(a[0].body, b[0].body))] + MergeBranches(a[1..], b[1..])
  }

  // ---------- When the check as written is the intended one ----------

  /** The branches taken on a true condition really are mergeable, here and in every pair below. */
  predicate TrueBranchesFit(a: Stm, b: Stm)
    decreases a, 2
  {
    a.If? && b.If? && |a.elseIf| == |b.elseIf| ==>
      && IsMergableList(Intended, a.ifTrue, b.ifTrue)
      && TrueBranchesFitElifs(a.elseIf, b.elseIf)
      && (a.falseSpecified ==> TrueBranchesFitList(a.ifFalse, b.ifFalse))
  }

  predicate TrueBranchesFitList(a: seq<Stm>, b: seq<Stm>)
    decreases a, 0, b
  {
    if SimpleFirst(a) then TrueBranchesFitList(a[1..], b)
    else if SimpleFirst(b) then TrueBranchesFitList(a, b[1..])
    else a == [] || b == [] || (TrueBranchesFit(a[0], b[0]) && TrueBranchesFitList(a[1..], b[1..]))
  }

  predicate TrueBranchesFitElifs(a: seq<Branch>, b: seq<Branch>)
    requires |a| == |b|
    decreases a, 0
  {
    a == [] || (TrueBranchesFitList(a[0].body, b[0].body) && TrueBranchesFitElifs(a[1..], b[1..]))
  }

  /** Every list is mergeable with itself, so comparing a branch with itself tests nothing. */
  lemma {:induction false} MergableWithItself(v: Version, a: Stm)
    ensures IsMergable(v, a, a)
    decreases a, 2
  {
    if a.If? {
      ListMergableWithItself(v, a.ifTrue);
      ElifsMergableWithItself(v, a.elseIf);
      ListMergableWithItself(v, a.ifFalse);
    }
  }

  lemma {:induction false} ListMergableWithItself(v: Version, a: seq<Stm>)
    ensures IsMergableList(v, a, a)
    decreases a, 0
  {
    if a != [] {
      MergableWithItself(v, a[0]);
      ListMergableWithItself(v, a[1..]);
      if SimpleFirst(a) {
        SkipSimple(v, a[1..], a);
      }
    }
  }

  /** A simple statement at the head of the second list does not matter. */
  lemma {:induction false} SkipSimple(v: Version, a: seq<Stm>, b: seq<Stm>)
    requires SimpleFirst(b)
    ensures IsMergableList(v, a, b) == IsMergableList(v, a, b[1..])
  {
    if SimpleFirst(a) {
      SkipSimple(v, a[1..], b);
    }
  }

  lemma {:induction false} ElifsMergableWithItself(v: Version, a: seq<Branch>)
    ensures IsMergableElifs(v, a, a)
    decreases a, 0
  {
    if a != [] {
      ListMergableWithItself(v, a[0].body);
      ElifsMergableWithItself(v, a[1..]);
    }
  }

  /** The check as written is right about a pair exactly when the pair's true branches fit. */
  lemma {:induction false} MergableAsWritten(a: Stm, b: Stm)
    ensures IsMergable(Intended, a, b) <==> IsMergable(AsWritten, a, b) && TrueBranchesFit(a, b)
    decreases a, 2
  {
    if a.If? && b.If? {
      ListMergableWithItself(AsWritten, a.ifTrue);
      if |a.elseIf| == |b.elseIf| {
        ElifsMergableAsWritten(a.elseIf, b.elseIf);
      }
      ListMergableAsWritten(a.ifFalse, b.ifFalse);
    }
  }

  lemma {:induction false} ListMergableAsWritten(a: seq<Stm>, b: seq<Stm>)
    ensures IsMergableList(Intended, a, b) <==> IsMergableList(AsWritten, a, b) && TrueBranchesFitList(a, b)
    decreases a, 0, b
  {
    if SimpleFirst(a) {
      ListMergableAsWritten(a[1..], b);
    } else if SimpleFirst(b) {
      ListMergableAsWritten(a, b[1..]);
    } else if a != [] && b != [] {
      MergableAsWritten(a[0], b[0]);
      ListMergableAsWritten(a[1..], b[1..]);
    }
  }

  lemma {:induction false} ElifsMergableAsWritten(a: seq<Branch>, b: seq<Branch>)
    requires |a| == |b|
    ensures IsMergableElifs(Intended, a, b) <==> IsMergableElifs(AsWritten, a, b) && TrueBranchesFitElifs(a, b)
    decreases a, 0
  {
    if a != [] {
      ListMergableAsWritten(a[0].body, b[0].body);
      ElifsMergableAsWritten(a[1..], b[1..]);
    }
  }

  // ---------- What the check compares ----------

  /** The tree of conditions of a statement: nothing of an assignment, and of a list only what has branches. */
  datatype Skeleton =
    | NoFork
    | Fork(cond: Net, whenTrue: seq<Skeleton>, elifs: seq<Arm>, given: bool, otherwise: seq<Skeleton>)

  datatype Arm = Arm(cond: Net, body: seq<Skeleton>)

  /** As written, the branch taken on a true condition is not looked at, at any depth. */
  function SkeletonOf(v: Version, s: Stm): Skeleton
    decreases s, 1
  {
    match s
    case Assign(_, _, _) => NoFork
    case If(cond, t, e, given, f, _) =>
      Fork(cond, if v.Intended? then ForksOf(v, t) else [], ArmsOf(v, e), given, if given then ForksOf(v, f) else [])
  }

  /** The skeletons of the statements of positive rank, in order. */
  function ForksOf(v: Version, l: seq<Stm>): seq<Skeleton>
    decreases l, 0
  {
    if l == [] then [] else (if Rank(l[0]) > 0 then [SkeletonOf(v, l[0])] else []) + ForksOf(v, l[1..])
  }

  function ArmsOf(v: Version, bs: seq<Branch>): seq<Arm>
    decreases bs, 0
  {
    if bs == [] then [] else [Arm(bs[0].cond, ForksOf(v, bs[0].body))] + ArmsOf(v, bs[1..])
  }

  /** Two statements are mergeable exactly when they have one skeleton. */
  lemma {:induction false} MergableMeansSkeleton(v: Version, a: Stm, b: Stm)
    ensures IsMergable(v, a, b) <==> SkeletonOf(v, a) == SkeletonOf(v, b)
    decreases a, 2
  {
    if a.If? && b.If? {
      if v.AsWritten? {
        ListMergableWithItself(v, a.ifTrue);
      } else {
        ListMergableMeansForks(v, a.ifTrue, b.ifTrue);
      }
      ElifsMergableMeansArms(v, a.elseIf, b.elseIf);
      ListMergableMeansForks(v, a.ifFalse, b.ifFalse);
    }
  }

  lemma {:induction false} ListMergableMeansForks(v: Version, a: seq<Stm>, b: seq<Stm>)
    ensures IsMergableList(v, a, b) <==> ForksOf(v, a) == ForksOf(v, b)
    decreases a, 0, b
  {
    if SimpleFirst(a) {
      ListMergableMeansForks(v, a[1..], b);
      assert ForksOf(v, a) == ForksOf(v, a[1..]);
    } else if SimpleFirst(b) {
      ListMergableMeansForks(v, a, b[1..]);
      assert ForksOf(v, b) == ForksOf(v, b[1..]);
    } else if a != [] && b != [] {
      MergableMeansSkeleton(v, a[0], b[0]);
      ListMergableMeansForks(v, a[1..], b[1..]);
      SameCons(SkeletonOf(v, a[0]), ForksOf(v, a[1..]), SkeletonOf(v, b[0]), ForksOf(v, b[1..]));
    }
  }

  lemma SameCons<T>(x: T, xs: seq<T>, y: T, ys: seq<T>)
    ensures [x] + xs == [y] + ys <==> x == y && xs == ys
  {
    assert ([x] + xs)[1..] == xs && ([y] + ys)[1..] == ys;
    assert ([x] + xs)[0] == x && ([y] + ys)[0] == y;
  }

  lemma {:induction false} ElifsMergableMeansArms(v: Version, a: seq<Branch>, b: seq<Branch>)
    ensures |a| == |b| && IsMergableElifs(v, a, b) <==> ArmsOf(v, a) == ArmsOf(v, b)
    decreases a, 0
  {
    if a != [] && b != [] {
      ListMergableMeansForks(v, a[0].body, b[0].body);
      ElifsMergableMeansArms(v, a[1..], b[1..]);
      SameCons(Arm(a[0].cond, ForksOf(v, a[0].body)), ArmsOf(v, a[1..]),
               Arm(b[0].cond, ForksOf(v, b[0].body)), ArmsOf(v, b[1..]));
    }
  }
}
