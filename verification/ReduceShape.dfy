/**
  What reduction (reduce_statement.cpp) leaves: an if that gives way to its branch or keeps its
  branches in order, and siblings of which no two could still be merged.
*/
module ReduceShape {
  import opened Statements
  import opened StructuralCmp
  import opened StructuralCompatible
  import opened Merging
  import opened Reduce
  import opened ReduceVerdict
  import opened SiblingGroup
  import opened SiblingMerge

  // ---------- Siblings ----------

  /** A rank that is not zero, and a skeleton: what makes two siblings mergeable. */
  predicate IsKind(v: Version, s: Stm, rank: nat, skeleton: Skeleton) {
    rank > 0 && Rank(s) == rank && SkeletonOf(v, s) == skeleton
  }

  /** How many siblings are of a kind. */
  function CountKind(v: Version, l: seq<Stm>, rank: nat, skeleton: Skeleton): nat {
    if l == [] then 0 else (if IsKind(v, l[0], rank, skeleton) then 1 else 0) + CountKind(v, l[1..], rank, skeleton)
  }

  /** The statements that need no merging. */
  function Simples(l: seq<Stm>): seq<Stm> {
    if l == [] then [] else (if Rank(l[0]) == 0 then [l[0]] else []) + Simples(l[1..])
  }

  /** Absorbing takes in all of one kind and leaves the other kinds and the simple statements as they were. */
  lemma {:induction false} AbsorbKinds(v: Version, a: Stm, later: seq<Stm>, rank: nat, skeleton: Skeleton)
    requires Rank(a) > 0 && Absorb(v, a, later).Done?
    ensures var r := Absorb(v, a, later).value;
      && Rank(r.stm) == Rank(a) && SkeletonOf(v, r.stm) == SkeletonOf(v, a) && Simples(r.rest) == Simples(later)
      && CountKind(v, r.rest, rank, skeleton)
         == if IsKind(v, a, rank, skeleton) then 0 else CountKind(v, later, rank, skeleton)
    decreases |later|
  {
    if later != [] {
      var b, others := later[0], later[1..];
      MergableMeansSkeleton(v, a, b);
      if Rank(b) == Rank(a) && IsMergable(v, a, b) {
        MergeIfSkeleton(v, a, b);
        AbsorbKinds(v, MergeIf(a, b), others, rank, skeleton);
        assert [] + Simples(others) == Simples(others);
      } else {
        AbsorbKinds(v, a, others, rank, skeleton);
        var rest := Absorb(v, a, others).value.rest;
        assert ([b] + rest)[1..] == rest;
      }
    }
  }

  /**
    After merging there is one sibling for each rank and skeleton that occurs, and the
    statements that need no merging are as they were, in order.
  */
  lemma {:induction false} OneOfEachKind(v: Version, l: seq<Stm>, rank: nat, skeleton: Skeleton)
    requires MergeStatements(v, l).Done?
    ensures var r := MergeStatements(v, l).value.list;
      && Simples(r) == Simples(l)
      && CountKind(v, r, rank, skeleton) == if CountKind(v, l, rank, skeleton) > 0 then 1 else 0
    decreases |l|
  {
    if l != [] {
      if Rank(l[0]) == 0 {
        OneOfEachKind(v, l[1..], rank, skeleton);
        var rest := MergeStatements(v, l[1..]).value.list;
        assert ([l[0]] + rest)[1..] == rest;
      } else {
        AbsorbKinds(v, l[0], l[1..], rank, skeleton);
        var a := Absorb(v, l[0], l[1..]).value;
        OneOfEachKind(v, a.rest, rank, skeleton);
        var rest := MergeStatements(v, a.rest).value.list;
        assert ([a.stm] + rest)[1..] == rest;
        assert [] + Simples(rest) == Simples(rest) && [] + Simples(l[1..]) == Simples(l[1..]);
      }
    }
  }

  /** What a reduced list is made from: each statement reduced, in order, and of these one of each kind. */
  lemma ListReduced(v: Version, consts: Consts, l: seq<Stm>, rank: nat, skeleton: Skeleton)
    requires ReduceList(v, consts, l).Done?
    ensures ReduceEach(v, consts, l).Done?
    ensures var (each, r) := (ReduceEach(v, consts, l).value, ReduceList(v, consts, l).value);
      && Simples(r.list) == Simples(each)
      && CountKind(v, r.list, rank, skeleton) == (if CountKind(v, each, rank, skeleton) > 0 then 1 else 0)
      && RankSum(r.list) + r.decrease == RankSum(each)
  {
    var each := ReduceEach(v, consts, l).value;
    OneOfEachKind(v, each, rank, skeleton);
    LiveFilled(each);
    WholeMerges(v, Filled(each));
  }

  lemma {:induction false} CountTwo(v: Version, l: seq<Stm>, i: nat, j: nat)
    requires i < j < |l| && Rank(l[i]) == Rank(l[j]) > 0 && SkeletonOf(v, l[i]) == SkeletonOf(v, l[j])
    ensures CountKind(v, l, Rank(l[i]), SkeletonOf(v, l[i])) >= 2
  {
    if i > 0 {
      CountTwo(v, l[1..], i - 1, j - 1);
    } else {
      CountSome(v, l[1..], j - 1);
    }
  }

  lemma {:induction false} CountSome(v: Version, l: seq<Stm>, j: nat)
    requires j < |l| && Rank(l[j]) > 0
    ensures CountKind(v, l, Rank(l[j]), SkeletonOf(v, l[j])) >= 1
  {
    if j > 0 {
      CountSome(v, l[1..], j - 1);
    }
  }

  /** No two statements of a reduced list have one rank that is not zero and one skeleton. */
  lemma NoTwins(v: Version, consts: Consts, l: seq<Stm>, i: nat, j: nat)
    requires ReduceList(v, consts, l).Done? && i < j < |ReduceList(v, consts, l).value.list|
    ensures var r := ReduceList(v, consts, l).value.list;
      Rank(r[i]) == Rank(r[j]) > 0 ==> SkeletonOf(v, r[i]) != SkeletonOf(v, r[j])
  {
    var r := ReduceList(v, consts, l).value.list;
    ListReduced(v, consts, l, Rank(r[i]), SkeletonOf(v, r[i]));
    if Rank(r[i]) == Rank(r[j]) > 0 && SkeletonOf(v, r[i]) == SkeletonOf(v, r[j]) {
      CountTwo(v, r, i, j);
    }
  }

  // ---------- One statement after the other ----------

  lemma EachOfOne(v: Version, consts: Consts, s: Stm)
    ensures ReduceEach(v, consts, [s]) == ReduceStm(v, consts, s)
  {
    assert [s][1..] == [];
    var r := ReduceStm(v, consts, s);
    if r.Done? {
      assert r.value + [] == r.value;
    }
  }

  /** Statements are reduced in order and independently; the first that fails ends it. */
  lemma {:induction false} EachConcat(v: Version, consts: Consts, a: seq<Stm>, b: seq<Stm>)
    ensures var (x, y, z) := (ReduceEach(v, consts, a), ReduceEach(v, consts, b), ReduceEach(v, consts, a + b));
      z == if x.Failed? then x else if y.Failed? then y else Done(x.value + y.value)
  {
    if a == [] {
      assert a + b == b;
      var y := ReduceEach(v, consts, b);
      if y.Done? {
        assert [] + y.value == y.value;
      }
    } else {
      assert (a + b)[1..] == a[1..] + b;
      EachConcat(v, consts, a[1..], b);
      var (first, x, y) := (ReduceStm(v, consts, a[0]), ReduceEach(v, consts, a[1..]), ReduceEach(v, consts, b));
      if first.Done? && x.Done? && y.Done? {
        assert first.value + (x.value + y.value) == first.value + x.value + y.value;
      }
    }
  }

  /** Else-ifs keep their conditions and are reduced one by one. */
  lemma {:induction false} ElifReduced(v: Version, consts: Consts, bs: seq<Branch>, k: nat)
    requires ReduceElifs(v, consts, bs).Done? && k < |bs|
    ensures var r := ReduceElifs(v, consts, bs).value.0;
      && |r| == |bs| && r[k].cond == bs[k].cond
      && ReduceList(v, consts, bs[k].body).Done? && r[k].body == ReduceList(v, consts, bs[k].body).value.list
  {
    ElifsCount(v, consts, bs);
    if k > 0 {
      ElifReduced(v, consts, bs[1..], k - 1);
    }
  }

  lemma {:induction false} ElifsCount(v: Version, consts: Consts, bs: seq<Branch>)
    requires ReduceElifs(v, consts, bs).Done?
    ensures |ReduceElifs(v, consts, bs).value.0| == |bs|
  {
    if bs != [] {
      ElifsCount(v, consts, bs[1..]);
    }
  }

  // ---------- One if ----------

  /** The conditions of an if with what follows each, in order. */
  function Cases(s: Stm): seq<Branch>
    requires s.If?
  {
    [Branch(s.cond, s.ifTrue)] + s.elseIf
  }

  /** The only statement of an else list, when that is an if. */
  predicate LoneIf(l: seq<Stm>) {
    |l| == 1 && l[0].If?
  }

  /** All branches are the first one up to constants of equal value, and the else branch was given. */
  predicate NoEffect(consts: Consts, given: bool, t: seq<Stm>, e: seq<Branch>, f: seq<Stm>) {
    given && AlikeList(consts, t, f) && forall k :: 0 <= k < |e| ==> AlikeList(consts, t, e[k].body)
  }

  /**
    The if that stays: its cases, and behind them those of a lone if in the else branch, whose
    else list it takes over; its else flag; and its rank less what merging took out of the branches.
  */
  ghost predicate Stays(s: Stm, t: Rewritten, e: (seq<Branch>, nat), f: Rewritten, r: Stm)
    requires s.If?
  {
    && r.If? && r.falseSpecified == s.falseSpecified
    && Cases(r) == [Branch(s.cond, t.list)] + e.0 + (if LoneIf(f.list) then Cases(f.list[0]) else [])
    && r.ifFalse == (if LoneIf(f.list) then f.list[0].ifFalse else f.list)
    && (t.decrease + e.1 + f.decrease <= s.rank ==> r.rank + t.decrease + e.1 + f.decrease == s.rank)
  }

  lemma {:induction false} ColumnAlike(consts: Consts, reference: Stm, stms: seq<Stm>)
    ensures StatementsAreSame(Intended, consts, reference, stms) == Same
       <==> forall k :: 0 <= k < |stms| ==> Alike(consts, reference, stms[k])
  {
    if stms != [] {
      SameIntended(consts, reference, stms[0]);
      ColumnAlike(consts, reference, stms[1..]);
      assert forall k :: 0 < k < |stms| ==> stms[k] == stms[1..][k - 1];
    }
  }

  lemma {:induction false} ColumnsAlike(consts: Consts, s: Stm, i: nat)
    requires s.If? && SizesMatch(s) && i <= |s.ifTrue| && AlikeFrom(consts, s.ifTrue, s.ifFalse, i)
    requires forall k :: 0 <= k < |s.elseIf| ==> AlikeFrom(consts, s.ifTrue, s.elseIf[k].body, i)
    ensures ColumnsAreSame(Intended, consts, s, i) == Same
    decreases |s.ifTrue| - i
  {
    if i < |s.ifTrue| {
      forall k | 0 <= k <= |s.elseIf| ensures Alike(consts, s.ifTrue[i], Column(s, i)[k]) {
        if k < |s.elseIf| {
          assert AlikeFrom(consts, s.ifTrue, s.elseIf[k].body, i);
        }
      }
      ColumnAlike(consts, s.ifTrue[i], Column(s, i));
      forall k | 0 <= k < |s.elseIf| ensures AlikeFrom(consts, s.ifTrue, s.elseIf[k].body, i + 1) {
        assert AlikeFrom(consts, s.ifTrue, s.elseIf[k].body, i);
      }
      ColumnsAlike(consts, s, i + 1);
    }
  }

  lemma {:induction false} AlikePositions(consts: Consts, a: seq<Stm>, b: seq<Stm>)
    requires AlikeList(consts, a, b)
    ensures AlikeFrom(consts, a, b, 0)
  {
    if a != [] {
      AlikePositions(consts, a[1..], b[1..]);
      forall n | 0 < n < |a| ensures Alike(consts, a[n], b[n]) {
        assert a[n] == a[1..][n - 1] && b[n] == b[1..][n - 1];
      }
    }
  }

  /** As intended, a condition has no effect exactly when the branches are alike throughout. */
  lemma SameMeansNoEffect(consts: Consts, s: Stm)
    requires s.If?
    ensures BranchesAreSame(Intended, consts, s) == Same
       <==> NoEffect(consts, s.falseSpecified, s.ifTrue, s.elseIf, s.ifFalse)
  {
    if BranchesAreSame(Intended, consts, s) == Same {
      BranchesAlike(Intended, consts, s);
    }
    if NoEffect(consts, s.falseSpecified, s.ifTrue, s.elseIf, s.ifFalse) {
      AlikePositions(consts, s.ifTrue, s.ifFalse);
      forall k | 0 <= k < |s.elseIf| ensures AlikeFrom(consts, s.ifTrue, s.elseIf[k].body, 0) {
        AlikePositions(consts, s.ifTrue, s.elseIf[k].body);
      }
      assert SizesMatch(s) by {
        forall k | 0 <= k < |s.elseIf| ensures |s.elseIf[k].body| == |s.ifTrue| {
          assert AlikeFrom(consts, s.ifTrue, s.elseIf[k].body, 0);
        }
      }
      ColumnsAlike(consts, s, 0);
    }
  }

  lemma RebuiltStays(s: Stm, t: Rewritten, e: (seq<Branch>, nat), f: Rewritten)
    requires s.If?
    ensures Stays(s, t, e, f, Flatten(Rebuild(s, t, e, f)))
  {
    var head := [Branch(s.cond, t.list)];
    if LoneIf(f.list) {
      assert head + (e.0 + Cases(f.list[0])) == head + e.0 + Cases(f.list[0]);
    } else {
      assert head + e.0 + [] == head + e.0;
    }
  }

  /** What is left of an if whose branches were rewritten. */
  ghost predicate IfResult(s: Stm, t: Rewritten, e: (seq<Branch>, nat), f: Rewritten, r: seq<Stm>)
    requires s.If?
  {
    r == t.list || (|r| == 1 && Stays(s, t, e, f, r[0]))
  }

  /**
    An if with rewritten branches gives way to the first of them exactly when the else branch was
    given and all branches are alike; otherwise it stays, and a lone if in its else branch becomes
    else-ifs.
  */
  lemma IfReduced(consts: Consts, s: Stm, t: Rewritten, e: (seq<Branch>, nat), f: Rewritten)
    requires s.If? && ReduceList(Intended, consts, s.ifTrue) == Done(t)
    requires ReduceElifs(Intended, consts, s.elseIf) == Done(e) && ReduceList(Intended, consts, s.ifFalse) == Done(f)
    ensures NoEffect(consts, s.falseSpecified, t.list, e.0, f.list) ==> ReduceStm(Intended, consts, s) == Done(t.list)
    ensures !NoEffect(consts, s.falseSpecified, t.list, e.0, f.list) ==>
      var r := ReduceStm(Intended, consts, s); r.Done? && |r.value| == 1 && Stays(s, t, e, f, r.value[0])
  {
    var s' := Rebuild(s, t, e, f);
    SameMeansNoEffect(consts, s');
    RebuiltStays(s, t, e, f);
    if BranchesAreSame(Intended, consts, s') != Same {
      BranchesAnswer(consts, s');
    }
  }

  lemma BranchesAnswer(consts: Consts, s: Stm)
    requires s.If?
    ensures BranchesAreSame(Intended, consts, s) in {Same, Different}
  {
    if SizesMatch(s) {
      ColumnsAnswer(consts, s, 0);
    }
  }

  /** As written, an if that is reduced at all gives way to its first branch or stays in the same way. */
  lemma IfReducedAsWritten(consts: Consts, s: Stm, t: Rewritten, e: (seq<Branch>, nat), f: Rewritten)
    requires s.If? && ReduceList(AsWritten, consts, s.ifTrue) == Done(t)
    requires ReduceElifs(AsWritten, consts, s.elseIf) == Done(e) && ReduceList(AsWritten, consts, s.ifFalse) == Done(f)
    ensures var r := ReduceStm(AsWritten, consts, s); r.Done? ==> IfResult(s, t, e, f, r.value)
  {
    RebuiltStays(s, t, e, f);
  }
}
