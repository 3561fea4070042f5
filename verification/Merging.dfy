/**
  What merging two statements with the same condition tree keeps
  (merge_other_to_this and merge_statements_vector in reduce_statement.cpp).
*/
module Merging {
  import opened Statements
  import opened StructuralCmp
  import opened StructuralCompatible

  /** An else list is empty unless the else branch was given. */
  predicate ElseGiven(s: Stm)
    decreases s, 1
  {
    s.If? ==>
      && (s.falseSpecified || s.ifFalse == [])
      && ElseGivenList(s.ifTrue) && ElseGivenBranches(s.elseIf) && ElseGivenList(s.ifFalse)
  }

  predicate ElseGivenList(l: seq<Stm>)
    decreases l, 0
  {
    l == [] || (ElseGiven(l[0]) && ElseGivenList(l[1..]))
  }

  predicate ElseGivenBranches(bs: seq<Branch>)
    decreases bs, 0
  {
    bs == [] || (ElseGivenList(bs[0].body) && ElseGivenBranches(bs[1..]))
  }

  // ---------- The merged statement is well formed ----------

  lemma {:induction false} MergableFits(a: Stm, b: Stm)
    requires a.If? && b.If? && IsMergable(Intended, a, b) && ElseGiven(a) && ElseGiven(b)
    ensures ElifsFit(a, b)
    decreases a, 2
  {
    MergableFitsList(a.ifTrue, b.ifTrue);
    MergableFitsElifs(a.elseIf, b.elseIf);
    if a.falseSpecified {
      MergableFitsList(a.ifFalse, b.ifFalse);
    }
  }

  lemma {:induction false} MergableFitsList(a: seq<Stm>, b: seq<Stm>)
    requires IsMergableList(Intended, a, b) && ElseGivenList(a) && ElseGivenList(b)
    ensures ElifsFitList(a, b)
    decreases a, 0, b
  {
    if SimpleFirst(a) {
      MergableFitsList(a[1..], b);
    } else if SimpleFirst(b) {
      MergableFitsList(a, b[1..]);
    } else if a != [] {
      MergableFits(a[0], b[0]);
      MergableFitsList(a[1..], b[1..]);
    }
  }

  lemma {:induction false} MergableFitsElifs(a: seq<Branch>, b: seq<Branch>)
    requires |a| == |b| && IsMergableElifs(Intended, a, b) && ElseGivenBranches(a) && ElseGivenBranches(b)
    ensures ElifsFitBranches(a, b)
    decreases a, 0
  {
    if a != [] {
      MergableFitsList(a[0].body, b[0].body);
      MergableFitsElifs(a[1..], b[1..]);
    }
  }

  // ---------- Meaning ----------

  ghost predicate Pair(a: seq<Stm>, b: seq<Stm>) {
    && IsMergableList(Intended, a, b) && ElseGivenList(a) && ElseGivenList(b)
    && OneDriverList(a) && OneDriverList(b) && OutputsOfList(a) !! OutputsOfList(b)
  }

  lemma {:induction false} SelectMerged(a: seq<Branch>, b: seq<Branch>, aElse: seq<Stm>, bElse: seq<Stm>, env: Env)
    requires |a| == |b| && IsMergableElifs(Intended, a, b) && ElifsFitBranches(a, b) && ElifsFitList(aElse, bElse)
    ensures ElifsFitList(Select(a, aElse, env), Select(b, bElse, env))
    ensures Select(MergeBranches(a, b), MergeLists(aElse, bElse), env)
            == MergeLists(Select(a, aElse, env), Select(b, bElse, env))
    ensures Select(a, aElse, env) != aElse || Select(b, bElse, env) != bElse ==>
      exists i :: 0 <= i < |a| && Select(a, aElse, env) == a[i].body && Select(b, bElse, env) == b[i].body
    decreases |a|
  {
    if a != [] && env(a[0].cond) == 0 {
      SelectMerged(a[1..], b[1..], aElse, bElse, env);
      assert MergeBranches(a, b)[1..] == MergeBranches(a[1..], b[1..]);
    }
  }

  lemma PairOfBranches(a: seq<Branch>, b: seq<Branch>, i: nat)
    requires |a| == |b| && i < |a|
    requires IsMergableElifs(Intended, a, b) && ElseGivenBranches(a) && ElseGivenBranches(b)
    requires OneDriverBranches(a) && OneDriverBranches(b) && OutputsOfBranches(a) !! OutputsOfBranches(b)
    ensures Pair(a[i].body, b[i].body)
  {
    if i > 0 {
      PairOfBranches(a[1..], b[1..], i - 1);
    }
  }

  /**
    Merging two mergeable ifs with disjoint outputs means the same as running one after
    the other; the result drives what they drove, each net once per list.
  */
  lemma {:induction false} MergeIfMeaning(a: Stm, b: Stm, env: Env)
    requires a.If? && b.If? && IsMergable(Intended, a, b) && ElseGiven(a) && ElseGiven(b)
    requires OneDriver(a) && OneDriver(b) && Outputs(a) !! Outputs(b)
    ensures ElifsFit(a, b)
    ensures Exec(MergeIf(a, b), env) == Exec(a, env) + Exec(b, env)
    decreases a, 2
  {
    MergableFits(a, b);
    var m := MergeIf(a, b);
    var ta, tb := Taken(a, env), Taken(b, env);
    SelectMerged(a.elseIf, b.elseIf, a.ifFalse, b.ifFalse, env);
    assert Taken(m, env) == MergeLists(ta, tb);
    if ta == a.ifTrue && tb == b.ifTrue {
      MergeListsMeaning(a.ifTrue, b.ifTrue, env);
    } else if ta == a.ifFalse && tb == b.ifFalse {
      if a.falseSpecified {
        MergeListsMeaning(a.ifFalse, b.ifFalse, env);
      }
    } else {
      var i :| 0 <= i < |a.elseIf| && ta == a.elseIf[i].body && tb == b.elseIf[i].body;
      PairOfBranches(a.elseIf, b.elseIf, i);
      MergeListsMeaning(a.elseIf[i].body, b.elseIf[i].body, env);
    }
  }

  lemma {:induction false} MergeListsMeaning(a: seq<Stm>, b: seq<Stm>, env: Env)
    requires Pair(a, b)
    ensures ElifsFitList(a, b)
    ensures ExecList(MergeLists(a, b), env) == ExecList(a, env) + ExecList(b, env)
    decreases a, 0, b
  {
    MergableFitsList(a, b);
    ListWritesAreOutputs(a, env);
    ListWritesAreOutputs(b, env);
    var m := MergeLists(a, b);
    if SimpleFirst(a) {
      MergeListsMeaning(a[1..], b, env);
      assert m[1..] == MergeLists(a[1..], b);
      MovePast(Exec(a[0], env), ExecList(a[1..], env), ExecList(b, env));
    } else if SimpleFirst(b) {
      MergeListsMeaning(a, b[1..], env);
      assert m[1..] == MergeLists(a, b[1..]);
      MovePast(Exec(b[0], env), ExecList(a, env), ExecList(b[1..], env));
    } else if a != [] {
      MergeIfMeaning(a[0], b[0], env);
      MergeListsMeaning(a[1..], b[1..], env);
      assert m[1..] == MergeLists(a[1..], b[1..]);
      SwapMiddle(Exec(a[0], env), Exec(b[0], env), ExecList(a[1..], env), ExecList(b[1..], env));
    }
  }

  // ---------- What else merging keeps ----------

  /** The merged statement drives exactly what the two drove, still each net once per list. */
  lemma {:induction false} MergeIfKeeps(a: Stm, b: Stm)
    requires a.If? && b.If? && IsMergable(Intended, a, b) && ElseGiven(a) && ElseGiven(b)
    requires OneDriver(a) && OneDriver(b) && Outputs(a) !! Outputs(b)
    ensures ElifsFit(a, b)
    ensures Outputs(MergeIf(a, b)) == Outputs(a) + Outputs(b)
    ensures OneDriver(MergeIf(a, b)) && ElseGiven(MergeIf(a, b))
    decreases a, 2
  {
    MergableFits(a, b);
    MergeListsKeeps(a.ifTrue, b.ifTrue);
    MergeBranchesKeeps(a.elseIf, b.elseIf);
    if a.falseSpecified {
      MergeListsKeeps(a.ifFalse, b.ifFalse);
    }
  }

  lemma {:induction false} MergeListsKeeps(a: seq<Stm>, b: seq<Stm>)
    requires Pair(a, b)
    ensures ElifsFitList(a, b)
    ensures OutputsOfList(MergeLists(a, b)) == OutputsOfList(a) + OutputsOfList(b)
    ensures OneDriverList(MergeLists(a, b)) && ElseGivenList(MergeLists(a, b))
    decreases a, 0, b
  {
    MergableFitsList(a, b);
    var m := MergeLists(a, b);
    if SimpleFirst(a) {
      MergeListsKeeps(a[1..], b);
      assert m[1..] == MergeLists(a[1..], b);
    } else if SimpleFirst(b) {
      MergeListsKeeps(a, b[1..]);
      assert m[1..] == MergeLists(a, b[1..]);
    } else if a != [] {
      MergeIfKeeps(a[0], b[0]);
      MergeListsKeeps(a[1..], b[1..]);
      assert m[1..] == MergeLists(a[1..], b[1..]);
    }
  }

  lemma {:induction false} MergeBranchesKeeps(a: seq<Branch>, b: seq<Branch>)
    requires |a| == |b| && IsMergableElifs(Intended, a, b) && ElseGivenBranches(a) && ElseGivenBranches(b)
    requires OneDriverBranches(a) && OneDriverBranches(b) && OutputsOfBranches(a) !! OutputsOfBranches(b)
    ensures ElifsFitBranches(a, b)
    ensures OutputsOfBranches(MergeBranches(a, b)) == OutputsOfBranches(a) + OutputsOfBranches(b)
    ensures OneDriverBranches(MergeBranches(a, b)) && ElseGivenBranches(MergeBranches(a, b))
    decreases a, 0
  {
    MergableFitsElifs(a, b);
    if a != [] {
      MergeListsKeeps(a[0].body, b[0].body);
      MergeBranchesKeeps(a[1..], b[1..]);
    }
  }

  // ---------- Skeleton ----------

  /** The merged statement has the skeleton of the two. */
  lemma {:induction false} MergeIfSkeleton(v: Version, a: Stm, b: Stm)
    requires a.If? && b.If? && IsMergable(v, a, b) && ElifsFit(a, b)
    ensures SkeletonOf(v, MergeIf(a, b)) == SkeletonOf(v, a)
    decreases a, 2
  {
    if v.Intended? {
      MergeListsForks(v, a.ifTrue, b.ifTrue);
    }
    MergeBranchesArms(v, a.elseIf, b.elseIf);
    if a.falseSpecified {
      MergeListsForks(v, a.ifFalse, b.ifFalse);
    }
  }

  lemma {:induction false} MergeListsForks(v: Version, a: seq<Stm>, b: seq<Stm>)
    requires IsMergableList(v, a, b) && ElifsFitList(a, b)
    ensures ForksOf(v, MergeLists(a, b)) == ForksOf(v, a)
    decreases a, 0, b
  {
    var m := MergeLists(a, b);
    if SimpleFirst(a) {
      MergeListsForks(v, a[1..], b);
      assert m[1..] == MergeLists(a[1..], b);
    } else if SimpleFirst(b) {
      MergeListsForks(v, a, b[1..]);
      assert m[1..] == MergeLists(a, b[1..]);
    } else if a != [] {
      MergeIfSkeleton(v, a[0], b[0]);
      MergeListsForks(v, a[1..], b[1..]);
      assert m[1..] == MergeLists(a[1..], b[1..]);
    }
  }

  lemma {:induction false} MergeBranchesArms(v: Version, a: seq<Branch>, b: seq<Branch>)
    requires |a| == |b| && IsMergableElifs(v, a, b) && ElifsFitBranches(a, b)
    ensures ArmsOf(v, MergeBranches(a, b)) == ArmsOf(v, a)
    decreases a, 0
  {
    if a != [] {
      MergeListsForks(v, a[0].body, b[0].body);
      MergeBranchesArms(v, a[1..], b[1..]);
      assert MergeBranches(a, b)[1..] == MergeBranches(a[1..], b[1..]);
    }
  }

  // ---------- Inputs ----------

  /** The nets a statement reads: conditions, sources and indexes. */
  function Inputs(s: Stm): set<Net>
    decreases s, 1
  {
    match s
    case Assign(_, index, src) => {src} + set n | n in index
    case If(cond, t, e, _, f, _) => {cond} + InputsOfList(t) + InputsOfBranches(e) + InputsOfList(f)
  }

  function InputsOfList(l: seq<Stm>): set<Net>
    decreases l, 0
  {
    if l == [] then {} else Inputs(l[0]) + InputsOfList(l[1..])
  }

  function InputsOfBranches(bs: seq<Branch>): set<Net>
    decreases bs, 0
  {
    if bs == [] then {} else {bs[0].cond} + InputsOfList(bs[0].body) + InputsOfBranches(bs[1..])
  }

  /** The merged statement reads exactly what the two read. */
  lemma {:induction false} MergeIfInputs(a: Stm, b: Stm)
    requires a.If? && b.If? && IsMergable(Intended, a, b) && ElseGiven(a) && ElseGiven(b)
    ensures ElifsFit(a, b) && Inputs(MergeIf(a, b)) == Inputs(a) + Inputs(b)
    decreases a, 2
  {
    MergableFits(a, b);
    MergeListsInputs(a.ifTrue, b.ifTrue);
    MergeBranchesInputs(a.elseIf, b.elseIf);
    if a.falseSpecified {
      MergeListsInputs(a.ifFalse, b.ifFalse);
    }
  }

  lemma {:induction false} MergeListsInputs(a: seq<Stm>, b: seq<Stm>)
    requires IsMergableList(Intended, a, b) && ElseGivenList(a) && ElseGivenList(b)
    ensures ElifsFitList(a, b) && InputsOfList(MergeLists(a, b)) == InputsOfList(a) + InputsOfList(b)
    decreases a, 0, b
  {
    MergableFitsList(a, b);
    var m := MergeLists(a, b);
    if SimpleFirst(a) {
      MergeListsInputs(a[1..], b);
      assert m[1..] == MergeLists(a[1..], b);
    } else if SimpleFirst(b) {
      MergeListsInputs(a, b[1..]);
      assert m[1..] == MergeLists(a, b[1..]);
    } else if a != [] {
      MergeIfInputs(a[0], b[0]);
      MergeListsInputs(a[1..], b[1..]);
      assert m[1..] == MergeLists(a[1..], b[1..]);
    }
  }

  lemma {:induction false} MergeBranchesInputs(a: seq<Branch>, b: seq<Branch>)
    requires |a| == |b| && IsMergableElifs(Intended, a, b) && ElseGivenBranches(a) && ElseGivenBranches(b)
    ensures ElifsFitBranches(a, b)
    ensures InputsOfBranches(MergeBranches(a, b)) == InputsOfBranches(a) + InputsOfBranches(b)
    decreases a, 0
  {
    MergableFitsElifs(a, b);
    if a != [] {
      MergeListsInputs(a[0].body, b[0].body);
      MergeBranchesInputs(a[1..], b[1..]);
    }
  }

  // ---------- Else branches ----------

  lemma {:induction false} MergeIfElseGiven(a: Stm, b: Stm)
    requires a.If? && b.If? && IsMergable(Intended, a, b) && ElseGiven(a) && ElseGiven(b)
    ensures ElifsFit(a, b) && ElseGiven(MergeIf(a, b))
    decreases a, 2
  {
    MergableFits(a, b);
    MergeListsElseGiven(a.ifTrue, b.ifTrue);
    MergeBranchesElseGiven(a.elseIf, b.elseIf);
    if a.falseSpecified {
      MergeListsElseGiven(a.ifFalse, b.ifFalse);
    }
  }

  lemma {:induction false} MergeListsElseGiven(a: seq<Stm>, b: seq<Stm>)
    requires IsMergableList(Intended, a, b) && ElseGivenList(a) && ElseGivenList(b)
    ensures ElifsFitList(a, b) && ElseGivenList(MergeLists(a, b))
    decreases a, 0, b
  {
    MergableFitsList(a, b);
    var m := MergeLists(a, b);
    if SimpleFirst(a) {
      MergeListsElseGiven(a[1..], b);
      assert m[1..] == MergeLists(a[1..], b);
    } else if SimpleFirst(b) {
      MergeListsElseGiven(a, b[1..]);
      assert m[1..] == MergeLists(a, b[1..]);
    } else if a != [] {
      MergeIfElseGiven(a[0], b[0]);
      MergeListsElseGiven(a[1..], b[1..]);
      assert m[1..] == MergeLists(a[1..], b[1..]);
    }
  }

  lemma {:induction false} MergeBranchesElseGiven(a: seq<Branch>, b: seq<Branch>)
    requires |a| == |b| && IsMergableElifs(Intended, a, b) && ElseGivenBranches(a) && ElseGivenBranches(b)
    ensures ElifsFitBranches(a, b) && ElseGivenBranches(MergeBranches(a, b))
    decreases a, 0
  {
    MergableFitsElifs(a, b);
    if a != [] {
      MergeListsElseGiven(a[0].body, b[0].body);
      MergeBranchesElseGiven(a[1..], b[1..]);
    }
  }

  // ---------- Rank ----------

  function RankSum(l: seq<Stm>): nat {
    if l == [] then 0 else Rank(l[0]) + RankSum(l[1..])
  }

  function RankSumOfBranches(bs: seq<Branch>): nat {
    if bs == [] then 0 else RankSum(bs[0].body) + RankSumOfBranches(bs[1..])
  }

  /** The number of branches given plus the ranks of the statements in them. */
  function BranchCount(s: Stm): nat
    requires s.If?
  {
    1 + |s.elseIf| + (if s.falseSpecified then 1 else 0) + InnerRanks(s)
  }

  /** The rank of every if in the tree is its branch count. */
  predicate RankExact(s: Stm)
    decreases s, 1
  {
    s.If? ==>
      && s.rank == BranchCount(s)
      && RankExactList(s.ifTrue) && RankExactBranches(s.elseIf) && RankExactList(s.ifFalse)
  }

  predicate RankExactList(l: seq<Stm>)
    decreases l, 0
  {
    l == [] || (RankExact(l[0]) && RankExactList(l[1..]))
  }

  predicate RankExactBranches(bs: seq<Branch>)
    decreases bs, 0
  {
    bs == [] || (RankExactList(bs[0].body) && RankExactBranches(bs[1..]))
  }

  /** The ranks of the statements in an if. */
  function InnerRanks(s: Stm): nat
    requires s.If?
  {
    RankSum(s.ifTrue) + RankSumOfBranches(s.elseIf) + RankSum(s.ifFalse)
  }

  lemma MergeRankSum(a: Stm, b: Stm)
    requires a.If? && b.If? && IsMergable(Intended, a, b) && ElseGiven(a) && ElseGiven(b)
    ensures ElifsFit(a, b) && InnerRanks(MergeIf(a, b)) == InnerRanks(a)
  {
    MergableFits(a, b);
    MergeListsRankSum(a.ifTrue, b.ifTrue);
    MergeBranchesRankSum(a.elseIf, b.elseIf);
    if a.falseSpecified {
      MergeListsRankSum(a.ifFalse, b.ifFalse);
    }
  }

  /** The rank of a merged if, never touched by merging, is still its branch count. */
  lemma {:induction false} MergeIfRank(a: Stm, b: Stm)
    requires a.If? && b.If? && IsMergable(Intended, a, b) && ElseGiven(a) && ElseGiven(b)
    requires RankExact(a) && RankExact(b)
    ensures ElifsFit(a, b) && RankExact(MergeIf(a, b))
    decreases a, 2
  {
    MergableFits(a, b);
    MergeRankSum(a, b);
    MergeListsRank(a.ifTrue, b.ifTrue);
    MergeBranchesRank(a.elseIf, b.elseIf);
    if a.falseSpecified {
      MergeListsRank(a.ifFalse, b.ifFalse);
    }
  }

  lemma {:induction false} MergeListsRankSum(a: seq<Stm>, b: seq<Stm>)
    requires IsMergableList(Intended, a, b) && ElifsFitList(a, b)
    ensures RankSum(MergeLists(a, b)) == RankSum(a)
  {
    var m := MergeLists(a, b);
    if SimpleFirst(a) {
      MergeListsRankSum(a[1..], b);
      assert m[1..] == MergeLists(a[1..], b);
    } else if SimpleFirst(b) {
      MergeListsRankSum(a, b[1..]);
      assert m[1..] == MergeLists(a, b[1..]);
    } else if a != [] {
      MergeListsRankSum(a[1..], b[1..]);
      assert m[1..] == MergeLists(a[1..], b[1..]);
    }
  }

  lemma {:induction false} MergeBranchesRankSum(a: seq<Branch>, b: seq<Branch>)
    requires |a| == |b| && IsMergableElifs(Intended, a, b) && ElifsFitBranches(a, b)
    ensures RankSumOfBranches(MergeBranches(a, b)) == RankSumOfBranches(a)
  {
    if a != [] {
      MergeListsRankSum(a[0].body, b[0].body);
      MergeBranchesRankSum(a[1..], b[1..]);
    }
  }

  lemma {:induction false} MergeListsRank(a: seq<Stm>, b: seq<Stm>)
    requires IsMergableList(Intended, a, b) && ElseGivenList(a) && ElseGivenList(b)
    requires RankExactList(a) && RankExactList(b)
    ensures ElifsFitList(a, b)
    ensures RankExactList(MergeLists(a, b))
    decreases a, 0, b
  {
    MergableFitsList(a, b);
    var m := MergeLists(a, b);
    if SimpleFirst(a) {
      MergeListsRank(a[1..], b);
      assert m[1..] == MergeLists(a[1..], b);
    } else if SimpleFirst(b) {
      MergeListsRank(a, b[1..]);
      assert m[1..] == MergeLists(a, b[1..]);
    } else if a != [] {
      MergeIfRank(a[0], b[0]);
      MergeListsRank(a[1..], b[1..]);
      assert m[1..] == MergeLists(a[1..], b[1..]);
    }
  }

  lemma {:induction false} MergeBranchesRank(a: seq<Branch>, b: seq<Branch>)
    requires |a| == |b| && IsMergableElifs(Intended, a, b) && ElseGivenBranches(a) && ElseGivenBranches(b)
    requires RankExactBranches(a) && RankExactBranches(b)
    ensures ElifsFitBranches(a, b)
    ensures RankExactBranches(MergeBranches(a, b))
    decreases a, 0
  {
    MergableFitsElifs(a, b);
    if a != [] {
      MergeListsRank(a[0].body, b[0].body);
      MergeBranchesRank(a[1..], b[1..]);
    }
  }
}
