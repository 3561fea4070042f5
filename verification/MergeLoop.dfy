/**
  The loops of merge_other_to_this and merge_statements_vector (reduce_statement.cpp):
  what they compute, where every statement of the result comes from, and when
  statements are lost.
*/
module MergeLoop {
  import opened Lists
  import opened Statements
  import opened StructuralCmp
  import opened StructuralCompatible

  // ---------- The loops ----------

  /** What is merged so far, followed by the merge of what is left, is the whole merge. */
  ghost predicate Progress(all: seq<Stm>, tmp: seq<Stm>, a: seq<Stm>, b: seq<Stm>) {
    ElifsFitList(a, b) && all == tmp + MergeLists(a, b)
  }

  lemma ProgressSimple(all: seq<Stm>, tmp: seq<Stm>, a: seq<Stm>, b: seq<Stm>)
    requires Progress(all, tmp, a, b)
    ensures SimpleFirst(a) ==> Progress(all, tmp + [a[0]], a[1..], b)
    ensures !SimpleFirst(a) && SimpleFirst(b) ==> Progress(all, tmp + [b[0]], a, b[1..])
  {
    if SimpleFirst(a) {
      assert tmp + ([a[0]] + MergeLists(a[1..], b)) == tmp + [a[0]] + MergeLists(a[1..], b);
    } else if SimpleFirst(b) {
      assert tmp + ([b[0]] + MergeLists(a, b[1..])) == tmp + [b[0]] + MergeLists(a, b[1..]);
    }
  }

  lemma ProgressPair(all: seq<Stm>, tmp: seq<Stm>, a: seq<Stm>, b: seq<Stm>)
    requires Progress(all, tmp, a, b) && a != [] && b != [] && Rank(a[0]) > 0 && Rank(b[0]) > 0
    ensures ElifsFit(a[0], b[0]) && Progress(all, tmp + [MergeIf(a[0], b[0])], a[1..], b[1..])
  {
    assert tmp + ([MergeIf(a[0], b[0])] + MergeLists(a[1..], b[1..]))
        == tmp + [MergeIf(a[0], b[0])] + MergeLists(a[1..], b[1..]);
  }

  /** The loop over two vectors; it ends as soon as either of them runs out. */
  method MergeStatementsVector(a: seq<Stm>, b: seq<Stm>) returns (tmp: seq<Stm>)
    requires ElifsFitList(a, b)
    ensures tmp == MergeLists(a, b)
    decreases a, 0, b
  {
    tmp := [];
    var i, j := 0, 0;
    ghost var all := MergeLists(a, b);
    while true
      invariant i <= |a| && j <= |b| && Progress(all, tmp, a[i..], b[j..])
      decreases |a| - i
    {
      while i < |a| && Rank(a[i]) == 0
        invariant i <= |a| && Progress(all, tmp, a[i..], b[j..])
      {
        Shift(a, i);
        ProgressSimple(all, tmp, a[i..], b[j..]);
        assert Progress(all, tmp + [a[i]], a[i + 1..], b[j..]);
        tmp, i := tmp + [a[i]], i + 1;
      }
      while j < |b| && Rank(b[j]) == 0
        invariant j <= |b| && !SimpleFirst(a[i..]) && Progress(all, tmp, a[i..], b[j..])
      {
        Shift(b, j);
        ProgressSimple(all, tmp, a[i..], b[j..]);
        assert Progress(all, tmp + [b[j]], a[i..], b[j + 1..]);
        tmp, j := tmp + [b[j]], j + 1;
      }
      if i < |a| && j < |b| {
        Shift(a, i);
        Shift(b, j);
        ProgressPair(all, tmp, a[i..], b[j..]);
        var merged, cleared := MergeOtherToThis(a[i], b[j]);
        tmp, i, j := tmp + [merged], i + 1, j + 1;
      } else if i < |a| {
        return tmp + [a[i]];
      } else if j < |b| {
        return tmp + [b[j]];
      } else {
        return;
      }
    }
  }

  /**
    Merges branch by branch; the condition, the else flag and the rank stay those of `self`, and
    the other if is left without branches.
  */
  method MergeOtherToThis(self: Stm, other: Stm) returns (merged: Stm, cleared: Stm)
    requires self.If? && other.If? && ElifsFit(self, other)
    ensures merged == MergeIf(self, other)
    ensures cleared == If(other.cond, [], [], false, [], other.rank)
    decreases self, 2
  {
    var ifTrue := MergeStatementsVector(self.ifTrue, other.ifTrue);
    var newElifs := [];
    for k := 0 to |self.elseIf|
      invariant ElifsFitBranches(self.elseIf[k..], other.elseIf[k..])
      invariant MergeBranches(self.elseIf, other.elseIf)
          == newElifs + MergeBranches(self.elseIf[k..], other.elseIf[k..])
    {
      Shift(self.elseIf, k);
      Shift(other.elseIf, k);
      var body := MergeStatementsVector(self.elseIf[k].body, other.elseIf[k].body);
      newElifs := newElifs + [Branch(self.elseIf[k].cond, body)];
    }
    var ifFalse := MergeStatementsVector(self.ifFalse, other.ifFalse);
    merged := self.(ifTrue := ifTrue, elseIf := newElifs, ifFalse := ifFalse);
    cleared := other.(ifTrue := [], elseIf := [], ifFalse := [], falseSpecified := false);
  }

  // ---------- Where the statements come from ----------

  /** A place in the result: one statement of either list, or the merge of one of each. */
  datatype Origin = FromA(i: nat) | FromB(j: nat) | Both(i: nat, j: nat)

  /** Where the merge of two lists whose heads are at positions `i` and `j` takes its statements from. */
  function Origins(a: seq<Stm>, b: seq<Stm>, i: nat, j: nat): seq<Origin> {
    if SimpleFirst(a) then [FromA(i)] + Origins(a[1..], b, i + 1, j)
    else if SimpleFirst(b) then [FromB(j)] + Origins(a, b[1..], i, j + 1)
    else if a == [] then if b == [] then [] else [FromB(j)]
    else if b == [] then [FromA(i)]
    else [Both(i, j)] + Origins(a[1..], b[1..], i + 1, j + 1)
  }

  /** `s` is what origin `o` says, in two lists that start at positions `i` and `j`. */
  ghost predicate Holds(a: seq<Stm>, b: seq<Stm>, i: nat, j: nat, o: Origin, s: Stm) {
    match o
    case FromA(x) => i <= x < i + |a| && s == a[x - i]
    case FromB(y) => j <= y < j + |b| && s == b[y - j]
    case Both(x, y) =>
      && i <= x < i + |a| && j <= y < j + |b|
      && Rank(a[x - i]) > 0 && Rank(b[y - j]) > 0
      && BranchingCount(a[..x - i]) == BranchingCount(b[..y - j])
      && ElifsFit(a[x - i], b[y - j]) && s == MergeIf(a[x - i], b[y - j])
  }

  lemma HoldsShifted(a: seq<Stm>, b: seq<Stm>, i: nat, j: nat, o: Origin, s: Stm)
    ensures SimpleFirst(a) && Holds(a[1..], b, i + 1, j, o, s) ==> Holds(a, b, i, j, o, s)
    ensures SimpleFirst(b) && Holds(a, b[1..], i, j + 1, o, s) ==> Holds(a, b, i, j, o, s)
    ensures a != [] && b != [] && Rank(a[0]) > 0 && Rank(b[0]) > 0 && Holds(a[1..], b[1..], i + 1, j + 1, o, s)
        ==> Holds(a, b, i, j, o, s)
  {
    if o.Both? {
      if a != [] && i < o.i < i + |a| {
        assert a[..o.i - i][1..] == a[1..][..o.i - (i + 1)];
      }
      if b != [] && j < o.j < j + |b| {
        assert b[..o.j - j][1..] == b[1..][..o.j - (j + 1)];
      }
    }
  }

  /** The k-th branching statement of one list is merged with the k-th of the other, the rest is carried over. */
  lemma {:induction false} OriginsHold(a: seq<Stm>, b: seq<Stm>, i: nat, j: nat)
    requires ElifsFitList(a, b)
    ensures |Origins(a, b, i, j)| == |MergeLists(a, b)|
    ensures forall k :: 0 <= k < |MergeLists(a, b)| ==> Holds(a, b, i, j, Origins(a, b, i, j)[k], MergeLists(a, b)[k])
  {
    var os, m := Origins(a, b, i, j), MergeLists(a, b);
    if SimpleFirst(a) {
      OriginsHold(a[1..], b, i + 1, j);
    } else if SimpleFirst(b) {
      OriginsHold(a, b[1..], i, j + 1);
    } else if a != [] && b != [] {
      OriginsHold(a[1..], b[1..], i + 1, j + 1);
    }
    forall k | 0 <= k < |m| ensures Holds(a, b, i, j, os[k], m[k]) {
      HoldsShifted(a, b, i, j, os[k], m[k]);
    }
  }

  function FromFirst(os: seq<Origin>): seq<nat> {
    if os == [] then [] else (if os[0].FromB? then [] else [os[0].i]) + FromFirst(os[1..])
  }

  function FromSecond(os: seq<Origin>): seq<nat> {
    if os == [] then [] else (if os[0].FromA? then [] else [os[0].j]) + FromSecond(os[1..])
  }

  function Upto(from: nat, count: nat): (r: seq<nat>)
    ensures |r| == count
    decreases count
  {
    if count == 0 then [] else [from] + Upto(from + 1, count - 1)
  }

  /** How many statements of either list the loop gets to. */
  function ReachedOfA(a: seq<Stm>, b: seq<Stm>): nat {
    if SimpleFirst(a) then 1 + ReachedOfA(a[1..], b)
    else if SimpleFirst(b) then ReachedOfA(a, b[1..])
    else if a == [] then 0
    else if b == [] then 1
    else 1 + ReachedOfA(a[1..], b[1..])
  }

  function ReachedOfB(a: seq<Stm>, b: seq<Stm>): nat {
    if SimpleFirst(a) then ReachedOfB(a[1..], b)
    else if SimpleFirst(b) then 1 + ReachedOfB(a, b[1..])
    else if b == [] then 0
    else if a == [] then 1
    else 1 + ReachedOfB(a[1..], b[1..])
  }

  /** Each list contributes an initial stretch, every position of it once and in order. */
  lemma {:induction false} OriginsOrdered(a: seq<Stm>, b: seq<Stm>, i: nat, j: nat)
    ensures FromFirst(Origins(a, b, i, j)) == Upto(i, ReachedOfA(a, b))
    ensures FromSecond(Origins(a, b, i, j)) == Upto(j, ReachedOfB(a, b))
  {
    var os := Origins(a, b, i, j);
    if SimpleFirst(a) {
      OriginsOrdered(a[1..], b, i + 1, j);
      assert os[1..] == Origins(a[1..], b, i + 1, j);
    } else if SimpleFirst(b) {
      OriginsOrdered(a, b[1..], i, j + 1);
      assert os[1..] == Origins(a, b[1..], i, j + 1);
    } else if a != [] && b != [] {
      OriginsOrdered(a[1..], b[1..], i + 1, j + 1);
      assert os[1..] == Origins(a[1..], b[1..], i + 1, j + 1);
    }
  }

  /** The first list is carried over in full, for all that the second one holds. */
  predicate Survives(a: seq<Stm>, b: seq<Stm>) {
    || BranchingCount(a) <= BranchingCount(b)
    || (BranchingCount(a) == BranchingCount(b) + 1 && Rank(a[|a| - 1]) > 0)
  }

  lemma {:induction false} ReachedAll(a: seq<Stm>, b: seq<Stm>)
    ensures ReachedOfA(a, b) <= |a| && (ReachedOfA(a, b) == |a| <==> Survives(a, b))
    ensures ReachedOfB(a, b) <= |b| && (ReachedOfB(a, b) == |b| <==> Survives(b, a))
  {
    LastBranching(a);
    LastBranching(b);
    if SimpleFirst(a) {
      ReachedAll(a[1..], b);
    } else if SimpleFirst(b) {
      ReachedAll(a, b[1..]);
    } else if a != [] && b != [] {
      ReachedAll(a[1..], b[1..]);
    }
  }

  lemma LastBranching(l: seq<Stm>)
    ensures BranchingCount(l) == 1 && Rank(l[0]) > 0 ==> (Rank(l[|l| - 1]) > 0 <==> |l| == 1)
    ensures |l| > 1 ==> l[1..][|l[1..]| - 1] == l[|l| - 1]
    ensures l != [] && BranchingCount(l) == 0 ==> Rank(l[|l| - 1]) == 0
  {
    if |l| > 1 {
      LastBranching(l[1..]);
    }
  }

  /**
    Every statement of both lists ends in the merged list once, in its own order, exactly
    when neither list has anything after the branching statement at which the other ran out.
  */
  lemma NothingLost(a: seq<Stm>, b: seq<Stm>)
    ensures FromFirst(Origins(a, b, 0, 0)) == Upto(0, |a|) && FromSecond(Origins(a, b, 0, 0)) == Upto(0, |b|)
       <==> Survives(a, b) && Survives(b, a)
  {
    OriginsOrdered(a, b, 0, 0);
    ReachedAll(a, b);
  }

  /** Mergeable lists have equally many branching statements, so nothing of them is lost. */
  lemma {:induction false} MergableCounts(v: Version, a: seq<Stm>, b: seq<Stm>)
    requires IsMergableList(v, a, b)
    ensures BranchingCount(a) == BranchingCount(b)
  {
    if SimpleFirst(a) {
      MergableCounts(v, a[1..], b);
    } else if SimpleFirst(b) {
      MergableCounts(v, a, b[1..]);
    } else if a != [] {
      MergableCounts(v, a[1..], b[1..]);
    }
  }

  // ---------- The check as written lets the wrong pair through ----------

  function Inner(cond: Net, dst: Net): Stm { If(cond, [Assign(dst, [], 9)], [], false, [], 1) }

  function Outer(cond: Net, dst: Net): Stm { If(0, [Inner(cond, dst)], [], false, [], 2) }

  /** Two ifs accepted as written although their true branches test different nets: merging them adds a write. */
  lemma MergableAsWrittenFails()
    ensures
      var (a, b) := (Outer(1, 5), Outer(2, 6));
      var env: Env := net => if net == 2 then 0 else 1;
      && IsMergable(AsWritten, a, b) && !IsMergable(Intended, a, b) && ElifsFit(a, b)
      && Outputs(a) !! Outputs(b)
      && 6 in Exec(MergeIf(a, b), env) && 6 !in Exec(a, env) + Exec(b, env)
  {
    var env: Env := net => if net == 2 then 0 else 1;
    var (a1, b1) := (Inner(1, 5), Inner(2, 6));
    ListMergableWithItself(AsWritten, [a1]);
    InnersMerge();
    var m := MergeIf(a1, b1);
    assert Taken(m, env) == [Assign(5, [], 9), Assign(6, [], 9)];
    assert ExecList([m], env) == Exec(m, env);
    assert 6 in ExecList([Assign(5, [], 9), Assign(6, [], 9)], env);
    OuterWrites(1, 5, env);
    OuterWrites(2, 6, env);
  }

  lemma InnersMerge()
    ensures var (a1, b1) := (Inner(1, 5), Inner(2, 6));
      && ElifsFit(a1, b1) && ElifsFitList([a1], [b1]) && MergeLists([a1], [b1]) == [MergeIf(a1, b1)]
      && MergeIf(a1, b1).ifTrue == [Assign(5, [], 9), Assign(6, [], 9)]
  {
    assert MergeLists([], [Assign(6, [], 9)]) == [Assign(6, [], 9)];
    assert [Inner(1, 5)][1..] == [] && [Inner(2, 6)][1..] == [] && ElifsFitList([], []);
  }

  lemma OuterWrites(cond: Net, dst: Net, env: Env)
    requires env(0) != 0
    ensures Exec(Outer(cond, dst), env).Keys == if env(cond) != 0 then {dst} else {}
    ensures Outputs(Outer(cond, dst)) == {dst}
  {
    var inner := Inner(cond, dst);
    assert ExecList([inner], env) == Exec(inner, env);
    assert ExecList([Assign(dst, [], 9)], env) == Exec(Assign(dst, [], 9), env);
    assert OutputsOfList([inner]) == Outputs(inner) == OutputsOfList([Assign(dst, [], 9)]) == {dst};
  }
}
