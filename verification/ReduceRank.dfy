/**
  The rank bookkeeping of reduction (reduce_statement.cpp): the unsigned subtraction
  never goes below zero, and where the rank stops being the branch count.
*/
module ReduceRank {
  import opened Statements
  import opened StructuralCmp
  import opened StructuralCompatible
  import opened Merging
  import opened Reduce

  /** The rank of every if is at least the ranks of the statements in its branches. */
  predicate RankCovers(s: Stm)
    decreases s, 1
  {
    s.If? ==>
      && InnerRanks(s) <= s.rank
      && RankCoversList(s.ifTrue) && RankCoversBranches(s.elseIf) && RankCoversList(s.ifFalse)
  }

  predicate RankCoversList(l: seq<Stm>)
    decreases l, 0
  {
    l == [] || (RankCovers(l[0]) && RankCoversList(l[1..]))
  }

  predicate RankCoversBranches(bs: seq<Branch>)
    decreases bs, 0
  {
    bs == [] || (RankCoversList(bs[0].body) && RankCoversBranches(bs[1..]))
  }

  /** A tree whose ranks are branch counts is covered. */
  lemma {:induction false} ExactCovers(s: Stm)
    requires RankExact(s)
    ensures RankCovers(s)
    decreases s, 1
  {
    if s.If? {
      ExactCoversList(s.ifTrue);
      ExactCoversBranches(s.elseIf);
      ExactCoversList(s.ifFalse);
    }
  }

  lemma {:induction false} ExactCoversList(l: seq<Stm>)
    requires RankExactList(l)
    ensures RankCoversList(l)
    decreases l, 0
  {
    if l != [] {
      ExactCovers(l[0]);
      ExactCoversList(l[1..]);
    }
  }

  lemma {:induction false} ExactCoversBranches(bs: seq<Branch>)
    requires RankExactBranches(bs)
    ensures RankCoversBranches(bs)
    decreases bs, 0
  {
    if bs != [] {
      ExactCoversList(bs[0].body);
      ExactCoversBranches(bs[1..]);
    }
  }

  lemma {:induction false} CoversConcat(a: seq<Stm>, b: seq<Stm>)
    ensures RankSum(a + b) == RankSum(a) + RankSum(b)
    ensures RankCoversList(a + b) <==> RankCoversList(a) && RankCoversList(b)
  {
    if a == [] {
      assert a + b == b;
    } else {
      assert (a + b)[1..] == a[1..] + b;
      CoversConcat(a[1..], b);
    }
  }

  lemma {:induction false} CoversBranchesConcat(a: seq<Branch>, b: seq<Branch>)
    ensures RankSumOfBranches(a + b) == RankSumOfBranches(a) + RankSumOfBranches(b)
    ensures RankCoversBranches(a + b) <==> RankCoversBranches(a) && RankCoversBranches(b)
  {
    if a == [] {
      assert a + b == b;
    } else {
      assert (a + b)[1..] == a[1..] + b;
      CoversBranchesConcat(a[1..], b);
    }
  }

  // ---------- Merging ----------

  lemma {:induction false} MergeCovers(a: Stm, b: Stm)
    requires a.If? && b.If? && IsMergable(Intended, a, b) && ElseGiven(a) && ElseGiven(b)
    requires RankCovers(a) && RankCovers(b)
    ensures ElifsFit(a, b) && RankCovers(MergeIf(a, b))
    decreases a, 2
  {
    MergeRankSum(a, b);
    MergeListsCovers(a.ifTrue, b.ifTrue);
    MergeBranchesCovers(a.elseIf, b.elseIf);
    if a.falseSpecified {
      MergeListsCovers(a.ifFalse, b.ifFalse);
    }
  }

  lemma {:induction false} MergeListsCovers(a: seq<Stm>, b: seq<Stm>)
    requires IsMergableList(Intended, a, b) && ElseGivenList(a) && ElseGivenList(b)
    requires RankCoversList(a) && RankCoversList(b)
    ensures ElifsFitList(a, b) && RankCoversList(MergeLists(a, b))
    decreases a, 0, b
  {
    MergableFitsList(a, b);
    var m := MergeLists(a, b);
    if SimpleFirst(a) {
      MergeListsCovers(a[1..], b);
      assert m[1..] == MergeLists(a[1..], b);
    } else if SimpleFirst(b) {
      MergeListsCovers(a, b[1..]);
      assert m[1..] == MergeLists(a, b[1..]);
    } else if a != [] {
      MergeCovers(a[0], b[0]);
      MergeListsCovers(a[1..], b[1..]);
      assert m[1..] == MergeLists(a[1..], b[1..]);
    }
  }

  lemma {:induction false} MergeBranchesCovers(a: seq<Branch>, b: seq<Branch>)
    requires |a| == |b| && IsMergableElifs(Intended, a, b) && ElseGivenBranches(a) && ElseGivenBranches(b)
    requires RankCoversBranches(a) && RankCoversBranches(b)
    ensures ElifsFitBranches(a, b) && RankCoversBranches(MergeBranches(a, b))
    decreases a, 0
  {
    MergableFitsElifs(a, b);
    if a != [] {
      MergeListsCovers(a[0].body, b[0].body);
      MergeBranchesCovers(a[1..], b[1..]);
    }
  }

  lemma {:induction false} AbsorbRank(v: Version, a: Stm, later: seq<Stm>)
    requires Rank(a) > 0 && Sound([a] + later) && RankCovers(a) && RankCoversList(later)
    requires Absorb(v, a, later).Done? && AbsorbRight(v, a, later)
    ensures var r := Absorb(v, a, later).value;
      && RankCovers(r.stm) && RankCoversList(r.rest)
      && RankSum(r.rest) + r.decrease == RankSum(later)
    decreases |later|
  {
    if later != [] {
      var b, others := later[0], later[1..];
      assert later == [b] + others;
      Cons(a, later);
      Cons(b, others);
      if Rank(b) == Rank(a) && IsMergable(v, a, b) {
        RightMeansMergable(v, a, b);
        MergeIfKeeps(a, b);
        MergeCovers(a, b);
        Cons(MergeIf(a, b), others);
        AbsorbRank(v, MergeIf(a, b), others);
      } else {
        Cons(a, others);
        AbsorbRank(v, a, others);
      }
    }
  }

  /** The decrease that merging reports is exactly the rank it took out of the list. */
  lemma {:induction false} MergeStatementsRank(v: Version, l: seq<Stm>)
    requires Sound(l) && RankCoversList(l) && MergeStatements(v, l).Done? && MergesRight(v, l)
    ensures var r := MergeStatements(v, l).value;
      RankCoversList(r.list) && RankSum(r.list) + r.decrease == RankSum(l)
    decreases |l|
  {
    if l != [] {
      assert l == [l[0]] + l[1..];
      Cons(l[0], l[1..]);
      if Rank(l[0]) == 0 {
        MergeStatementsRank(v, l[1..]);
      } else {
        AbsorbRank(v, l[0], l[1..]);
        AbsorbPreserves(v, map[], l[0], l[1..]);
        var a := Absorb(v, l[0], l[1..]).value;
        Cons(a.stm, a.rest);
        MergeStatementsRank(v, a.rest);
      }
    }
  }

  // ---------- The pass ----------

  lemma FlattenRank(s: Stm)
    requires s.If? && RankCovers(s)
    ensures RankCovers(Flatten(s))
  {
    if Flatten(s) != s {
      var sub := s.ifFalse[0];
      var added := [Branch(sub.cond, sub.ifTrue)] + sub.elseIf;
      assert added[1..] == sub.elseIf && s.ifFalse == [sub] && s.ifFalse[1..] == [];
      CoversBranchesConcat(s.elseIf, added);
    }
  }

  /**
    Subtracting what merging took out of the branches never goes below zero when the queries
    answer rightly, and the result is covered again; its statements together rank no higher
    than the original.
  */
  lemma {:induction false} RankNeverUnderflows(v: Version, consts: Consts, s: Stm)
    requires OneDriver(s) && ElseGiven(s) && RankCovers(s) && Outputs(s) !! consts.Keys
    requires ReduceStm(v, consts, s).Done? && AnswersRight(v, consts, s)
    ensures var r := ReduceStm(v, consts, s).value; RankCoversList(r) && RankSum(r) <= Rank(s)
    ensures s.If? ==>
      ReduceList(v, consts, s.ifTrue).value.decrease + ReduceElifs(v, consts, s.elseIf).value.1
      + ReduceList(v, consts, s.ifFalse).value.decrease <= s.rank
    decreases s, 1
  {
    if s.If? {
      ReduceListRank(v, consts, s.ifTrue);
      ReduceElifsRank(v, consts, s.elseIf);
      ReduceListRank(v, consts, s.ifFalse);
      var t := ReduceList(v, consts, s.ifTrue).value;
      var e := ReduceElifs(v, consts, s.elseIf).value;
      var f := ReduceList(v, consts, s.ifFalse).value;
      var s' := Rebuild(s, t, e, f);
      assert RankCovers(s');
      FlattenRank(s');
    }
  }

  lemma {:induction false} ReduceEachRank(v: Version, consts: Consts, l: seq<Stm>)
    requires Sound(l) && RankCoversList(l) && OutputsOfList(l) !! consts.Keys
    requires ReduceEach(v, consts, l).Done? && EachAnswersRight(v, consts, l)
    ensures var r := ReduceEach(v, consts, l).value; RankCoversList(r) && RankSum(r) <= RankSum(l)
    decreases l, 0
  {
    if l != [] {
      RankNeverUnderflows(v, consts, l[0]);
      ReduceEachRank(v, consts, l[1..]);
      CoversConcat(ReduceStm(v, consts, l[0]).value, ReduceEach(v, consts, l[1..]).value);
    }
  }

  lemma {:induction false} ReduceListRank(v: Version, consts: Consts, l: seq<Stm>)
    requires Sound(l) && RankCoversList(l) && OutputsOfList(l) !! consts.Keys
    requires ReduceList(v, consts, l).Done? && ListAnswersRight(v, consts, l)
    ensures var r := ReduceList(v, consts, l).value;
      RankCoversList(r.list) && RankSum(r.list) + r.decrease <= RankSum(l)
    decreases l, 1
  {
    ReduceEachRank(v, consts, l);
    ReduceEachPreserves(v, consts, l);
    MergeStatementsRank(v, ReduceEach(v, consts, l).value);
  }

  lemma {:induction false} ReduceElifsRank(v: Version, consts: Consts, bs: seq<Branch>)
    requires OneDriverBranches(bs) && ElseGivenBranches(bs) && RankCoversBranches(bs)
    requires OutputsOfBranches(bs) !! consts.Keys
    requires ReduceElifs(v, consts, bs).Done? && ElifsAnswersRight(v, consts, bs)
    ensures var r := ReduceElifs(v, consts, bs).value;
      RankCoversBranches(r.0) && RankSumOfBranches(r.0) + r.1 <= RankSumOfBranches(bs)
    decreases bs, 0
  {
    if bs != [] {
      ReduceListRank(v, consts, bs[0].body);
      ReduceElifsRank(v, consts, bs[1..]);
      assert ReduceElifs(v, consts, bs).value.0[1..] == ReduceElifs(v, consts, bs[1..]).value.0;
    }
  }

  /** Flattening keeps the rank equal to the branch count exactly when the inner if has no else branch. */
  lemma FlattenRankExact(s: Stm)
    requires s.If? && s.falseSpecified && RankExact(s) && |s.ifFalse| == 1 && s.ifFalse[0].If?
    ensures Flatten(s).rank == BranchCount(Flatten(s)) <==> !s.ifFalse[0].falseSpecified
  {
    var sub := s.ifFalse[0];
    var added := [Branch(sub.cond, sub.ifTrue)] + sub.elseIf;
    assert added[1..] == sub.elseIf && s.ifFalse == [sub] && s.ifFalse[1..] == [];
    CoversBranchesConcat(s.elseIf, added);
    assert RankExact(sub) && RankSum(s.ifFalse) == sub.rank;
    assert RankSumOfBranches(added) == RankSum(sub.ifTrue) + RankSumOfBranches(sub.elseIf);
  }

  /** An inner if with an else branch: three branches, and a rank of four. */
  lemma FlattenRankFails()
    ensures
      var sub := If(1, [], [], true, [], 2);
      var s := If(0, [], [], true, [sub], 4);
      RankExact(s) && Flatten(s).rank == 4 && BranchCount(Flatten(s)) == 3
  {
    var sub := If(1, [], [], true, [], 2);
    var s := If(0, [], [], true, [sub], 4);
    assert [sub][1..] == [] && RankExact(sub) && RankSum([sub]) == 2;
    assert RankExactList([sub]) && RankExact(s);
    assert [] + ([Branch(1, [])] + []) == [Branch(1, [])];
    assert [Branch(1, [])][1..] == [];
  }
}
