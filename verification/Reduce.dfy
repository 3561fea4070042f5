/**
  Reduction of a statement (reduce_statement.cpp): branches first, then siblings with the
  same condition tree are merged, then an if whose branches are all the same gives way to
  its first branch, and otherwise a lone if in the else branch becomes else-ifs.
*/
module Reduce {
  import opened Statements
  import opened StructuralCmp
  import opened StructuralCompatible
  import opened Merging

  /** A value, or the verdict that ended the pass: an exception, or a step outside a vector. */
  datatype Outcome<+T> = Done(value: T) | Failed(why: Verdict) {
    predicate IsFailure() { Failed? }
    function PropagateFailure<U>(): Outcome<U> requires Failed? { Failed(why) }
    function Extract(): T requires Done? { value }
  }

  /** A rewritten list and the ranks of the statements that merging took out of it. */
  datatype Rewritten = Rewritten(list: seq<Stm>, decrease: nat)

  /** A statement that took in some of its later siblings, and the siblings that stay. */
  datatype Absorbed = Absorbed(stm: Stm, rest: seq<Stm>, decrease: nat)

  // ---------- Merging siblings ----------

  function Absorb(v: Version, a: Stm, later: seq<Stm>): (r: Outcome<Absorbed>)
    requires Rank(a) > 0
    ensures r.Done? ==> |r.value.rest| <= |later| && Rank(r.value.stm) == Rank(a)
    decreases |later|
  {
    if later == [] then Done(Absorbed(a, [], 0))
    else if Rank(later[0]) == Rank(a) && IsMergable(v, a, later[0]) then
      if !ElifsFit(a, later[0]) then Failed(OutOfRange) else
        var r :- Absorb(v, MergeIf(a, later[0]), later[1..]);
        Done(r.(decrease := r.decrease + Rank(later[0])))
    else
      var r :- Absorb(v, a, later[1..]);
      Done(r.(rest := [later[0]] + r.rest))
  }

  /** Every statement takes in the later ones of its rank that are mergeable with it. */
  function MergeStatements(v: Version, l: seq<Stm>): Outcome<Rewritten>
    decreases |l|
  {
    if l == [] then Done(Rewritten([], 0))
    else if Rank(l[0]) == 0 then
      var r :- MergeStatements(v, l[1..]);
      Done(r.(list := [l[0]] + r.list))
    else
      var a :- Absorb(v, l[0], l[1..]);
      var r :- MergeStatements(v, a.rest);
      Done(Rewritten([a.stm] + r.list, a.decrease + r.decrease))
  }

  // ---------- Does the condition have an effect? ----------

  function StatementsAreSame(v: Version, consts: Consts, reference: Stm, stms: seq<Stm>): Verdict {
    if stms == [] then Same else
      var first := IsSame(v, consts, reference, stms[0]);
      if first != Same then first else StatementsAreSame(v, consts, reference, stms[1..])
  }

  predicate SizesMatch(s: Stm)
    requires s.If?
  {
    && s.falseSpecified
    && |s.ifTrue| == |s.ifFalse|
    && forall k :: 0 <= k < |s.elseIf| ==> |s.elseIf[k].body| == |s.ifTrue|
  }

  /** The i-th statement of every branch but the first one. */
  function Column(s: Stm, i: nat): (r: seq<Stm>)
    requires s.If? && SizesMatch(s) && i < |s.ifTrue|
    ensures |r| == |s.elseIf| + 1
    ensures forall k :: 0 <= k < |s.elseIf| ==> r[k] == s.elseIf[k].body[i]
    ensures r[|s.elseIf|] == s.ifFalse[i]
  {
    seq(|s.elseIf|, k requires 0 <= k < |s.elseIf| => s.elseIf[k].body[i]) + [s.ifFalse[i]]
  }

  function ColumnsAreSame(v: Version, consts: Consts, s: Stm, i: nat): Verdict
    requires s.If? && SizesMatch(s) && i <= |s.ifTrue|
    decreases |s.ifTrue| - i
  {
    if i == |s.ifTrue| then Same else
      var column := StatementsAreSame(v, consts, s.ifTrue[i], Column(s, i));
      if column != Same then column else ColumnsAreSame(v, consts, s, i + 1)
  }

  /** `Same` when the condition has no effect, `Different` when it has one. */
  function BranchesAreSame(v: Version, consts: Consts, s: Stm): Verdict
    requires s.If?
  {
    if SizesMatch(s) then ColumnsAreSame(v, consts, s, 0) else Different
  }

  // ---------- The pass ----------

  /** A lone if in the else branch becomes else-ifs; the else flag stays as it was. */
  function Flatten(s: Stm): (r: Stm)
    requires s.If?
    ensures r.If? && r.rank == s.rank
  {
    if |s.ifFalse| == 1 && s.ifFalse[0].If? then
      var sub := s.ifFalse[0];
      s.(elseIf := s.elseIf + ([Branch(sub.cond, sub.ifTrue)] + sub.elseIf), ifFalse := sub.ifFalse)
    else s
  }

  /** Unsigned subtraction; by `RankNeverUnderflows` it never has to stop at zero when the queries answer rightly. */
  function Minus(rank: nat, amount: nat): nat {
    if amount <= rank then rank - amount else 0
  }

  /** An if with rewritten branches; what merging took out of them is taken off its rank. */
  function Rebuild(s: Stm, t: Rewritten, e: (seq<Branch>, nat), f: Rewritten): (r: Stm)
    requires s.If?
    ensures r.If?
  {
    s.(ifTrue := t.list, elseIf := e.0, ifFalse := f.list,
       rank := Minus(Minus(Minus(s.rank, t.decrease), e.1), f.decrease))
  }

  function ReduceStm(v: Version, consts: Consts, s: Stm): Outcome<seq<Stm>>
    decreases s, 1
  {
    match s
    case Assign(_, _, _) => Done([s])
    case If(cond, ifTrue, elseIf, falseSpecified, ifFalse, rank) =>
      var t :- ReduceList(v, consts, ifTrue);
      var e :- ReduceElifs(v, consts, elseIf);
      var f :- ReduceList(v, consts, ifFalse);
      var s' := Rebuild(s, t, e, f);
      match BranchesAreSame(v, consts, s')
      case Same => Done(s'.ifTrue)
      case Different => Done([Flatten(s')])
      case why => Failed(why)
  }

  function ReduceEach(v: Version, consts: Consts, l: seq<Stm>): Outcome<seq<Stm>>
    decreases l, 0
  {
    if l == [] then Done([]) else
      var first :- ReduceStm(v, consts, l[0]);
      var others :- ReduceEach(v, consts, l[1..]);
      Done(first + others)
  }

  function ReduceList(v: Version, consts: Consts, l: seq<Stm>): Outcome<Rewritten>
    decreases l, 1
  {
    var each :- ReduceEach(v, consts, l);
    MergeStatements(v, each)
  }

  function ReduceElifs(v: Version, consts: Consts, bs: seq<Branch>): Outcome<(seq<Branch>, nat)>
    decreases bs, 0
  {
    if bs == [] then Done(([], 0)) else
      var first :- ReduceList(v, consts, bs[0].body);
      var others :- ReduceElifs(v, consts, bs[1..]);
      Done(([Branch(bs[0].cond, first.list)] + others.0, first.decrease + others.1))
  }

  // ---------- When the queries answer rightly ----------

  /** The check as written is right to let the second if be merged into the first. */
  predicate MergableRight(v: Version, a: Stm, b: Stm) {
    v.AsWritten? && IsMergable(v, a, b) ==> TrueBranchesFit(a, b)
  }

  /** The comparison as written is right to call two statements the same. */
  predicate SameRight(v: Version, consts: Consts, a: Stm, b: Stm) {
    v.AsWritten? && IsSame(v, consts, a, b) == Same ==> CountsAgree(a, b)
  }

  predicate AbsorbRight(v: Version, a: Stm, later: seq<Stm>)
    requires Rank(a) > 0
    decreases |later|
  {
    later == [] || (
      if Rank(later[0]) == Rank(a) && IsMergable(v, a, later[0]) then
        && MergableRight(v, a, later[0])
        && (ElifsFit(a, later[0]) ==> AbsorbRight(v, MergeIf(a, later[0]), later[1..]))
      else AbsorbRight(v, a, later[1..]))
  }

  predicate MergesRight(v: Version, l: seq<Stm>)
    decreases |l|
  {
    if l == [] then true
    else if Rank(l[0]) == 0 then MergesRight(v, l[1..])
    else
      var a := Absorb(v, l[0], l[1..]);
      AbsorbRight(v, l[0], l[1..]) && (a.Done? ==> MergesRight(v, a.value.rest))
  }

  predicate ColumnsRight(v: Version, consts: Consts, s: Stm)
    requires s.If?
  {
    SizesMatch(s) ==>
      forall i, k :: 0 <= i < |s.ifTrue| && 0 <= k <= |s.elseIf| ==> SameRight(v, consts, s.ifTrue[i], Column(s, i)[k])
  }

  /** Every answer that this reduction acts on is right. */
  predicate AnswersRight(v: Version, consts: Consts, s: Stm)
    decreases s, 1
  {
    s.If? ==>
      && ListAnswersRight(v, consts, s.ifTrue) && ElifsAnswersRight(v, consts, s.elseIf)
      && ListAnswersRight(v, consts, s.ifFalse)
      && var (t, e, f) := (ReduceList(v, consts, s.ifTrue), ReduceElifs(v, consts, s.elseIf),
          ReduceList(v, consts, s.ifFalse));
         (t.Done? && e.Done? && f.Done? ==> ColumnsRight(v, consts, Rebuild(s, t.value, e.value, f.value)))
  }

  predicate EachAnswersRight(v: Version, consts: Consts, l: seq<Stm>)
    decreases l, 0
  {
    l == [] || (AnswersRight(v, consts, l[0]) && EachAnswersRight(v, consts, l[1..]))
  }

  predicate ListAnswersRight(v: Version, consts: Consts, l: seq<Stm>)
    decreases l, 1
  {
    EachAnswersRight(v, consts, l)
        && (ReduceEach(v, consts, l).Done? ==> MergesRight(v, ReduceEach(v, consts, l).value))
  }

  predicate ElifsAnswersRight(v: Version, consts: Consts, bs: seq<Branch>)
    decreases bs, 0
  {
    bs == [] || (ListAnswersRight(v, consts, bs[0].body) && ElifsAnswersRight(v, consts, bs[1..]))
  }

  /** A right answer of the check is the intended one. */
  lemma RightMeansMergable(v: Version, a: Stm, b: Stm)
    requires IsMergable(v, a, b) && MergableRight(v, a, b)
    ensures IsMergable(Intended, a, b)
  {
    MergableAsWritten(a, b);
  }

  /** A right answer of the comparison is equality up to constants of equal value. */
  lemma RightMeansSame(v: Version, consts: Consts, a: Stm, b: Stm)
    requires IsSame(v, consts, a, b) == Same && SameRight(v, consts, a, b)
    ensures Alike(consts, a, b)
  {
    SameAsWritten(consts, a, b);
    SameIntended(consts, a, b);
    AlikeToItself(consts, a);
  }

  // ---------- Meaning ----------

  /** What every pass needs of a list and gives back. */
  ghost predicate Sound(l: seq<Stm>) {
    OneDriverList(l) && ElseGivenList(l)
  }

  /**
    A list is sound, has the outputs of another, and its writes in every environment in which
    the constant nets hold their values; without constants that is every environment.
  */
  ghost predicate Preserves(consts: Consts, l: seq<Stm>, r: seq<Stm>) {
    && Sound(r) && OutputsOfList(r) == OutputsOfList(l)
    && forall env: Env :: Holds(consts, env) ==> ExecList(r, env) == ExecList(l, env)
  }

  lemma Cons(s: Stm, t: seq<Stm>)
    ensures OutputsOfList([s] + t) == Outputs(s) + OutputsOfList(t)
    ensures Sound([s] + t) <==> OneDriver(s) && ElseGiven(s) && Sound(t) && Outputs(s) !! OutputsOfList(t)
    ensures forall env: Env :: ExecList([s] + t, env) == Exec(s, env) + ExecList(t, env)
  {
    assert ([s] + t)[1..] == t;
    assert ElseGivenList([s] + t) <==> ElseGiven(s) && ElseGivenList(t);
    assert OneDriverList([s] + t) <==> OneDriver(s) && Outputs(s) !! OutputsOfList(t) && OneDriverList(t);
  }

  lemma SingleList(s: Stm)
    ensures OutputsOfList([s]) == Outputs(s)
    ensures Sound([s]) <==> OneDriver(s) && ElseGiven(s)
    ensures forall env: Env :: ExecList([s], env) == Exec(s, env)
  {
    assert [s] + [] == [s];
    Cons(s, []);
    forall env: Env ensures ExecList([s], env) == Exec(s, env) {
      assert ExecList([s] + [], env) == Exec(s, env) + map[];
    }
  }

  lemma {:induction false} ElseGivenConcat(a: seq<Stm>, b: seq<Stm>)
    ensures ElseGivenList(a + b) <==> ElseGivenList(a) && ElseGivenList(b)
  {
    if a == [] {
      assert a + b == b;
    } else {
      assert (a + b)[1..] == a[1..] + b;
      ElseGivenConcat(a[1..], b);
    }
  }

  lemma PreservesConcat(consts: Consts, a: seq<Stm>, b: seq<Stm>, a': seq<Stm>, b': seq<Stm>)
    requires Sound(a + b) && Preserves(consts, a, a') && Preserves(consts, b, b')
    ensures Preserves(consts, a + b, a' + b')
  {
    OutputsConcat(a, b);
    OutputsConcat(a', b');
    OneDriverConcat(a, b);
    OneDriverConcat(a', b');
    ElseGivenConcat(a', b');
    forall env: Env | Holds(consts, env) ensures ExecList(a' + b', env) == ExecList(a + b, env) {
      ExecConcat(a, b, env);
      ExecConcat(a', b', env);
    }
  }

  lemma PreservesTwice(consts: Consts, a: seq<Stm>, b: seq<Stm>, c: seq<Stm>)
    requires Preserves(consts, a, b) && Preserves(consts, b, c)
    ensures Preserves(consts, a, c)
  {
  }

  /** Two neighbours that drive different nets may change places. */
  lemma SwapPreserves(consts: Consts, a: Stm, b: Stm, l: seq<Stm>)
    requires Sound([a] + ([b] + l))
    ensures Preserves(consts, [a] + ([b] + l), [b] + ([a] + l))
  {
    Cons(a, [b] + l);
    Cons(b, l);
    Cons(b, [a] + l);
    Cons(a, l);
    forall env: Env ensures ExecList([b] + ([a] + l), env) == ExecList([a] + ([b] + l), env) {
      WritesAreOutputs(a, env);
      WritesAreOutputs(b, env);
      MovePast(Exec(a, env), Exec(b, env), ExecList(l, env));
    }
  }

  /** A later sibling taken into the statement in front of it. */
  lemma MergeNextPreserves(v: Version, consts: Consts, a: Stm, b: Stm, l: seq<Stm>)
    requires Rank(a) > 0 && Sound([a] + ([b] + l)) && Rank(b) == Rank(a)
    requires IsMergable(v, a, b) && MergableRight(v, a, b)
    ensures ElifsFit(a, b) && Preserves(consts, [a] + ([b] + l), [MergeIf(a, b)] + l)
  {
    Cons(a, [b] + l);
    Cons(b, l);
    RightMeansMergable(v, a, b);
    MergeIfKeeps(a, b);
    Cons(MergeIf(a, b), l);
    forall env: Env ensures ExecList([MergeIf(a, b)] + l, env) == ExecList([a] + ([b] + l), env) {
      MergeIfMeaning(a, b, env);
      MovePast(Exec(a, env), Exec(b, env), ExecList(l, env));
    }
  }

  lemma {:induction false} AbsorbPreserves(v: Version, consts: Consts, a: Stm, later: seq<Stm>)
    requires Rank(a) > 0 && Sound([a] + later) && Absorb(v, a, later).Done? && AbsorbRight(v, a, later)
    ensures var r := Absorb(v, a, later).value; Preserves(consts, [a] + later, [r.stm] + r.rest)
    decreases |later|
  {
    if later != [] {
      var b, others := later[0], later[1..];
      assert later == [b] + others;
      if Rank(b) == Rank(a) && IsMergable(v, a, b) {
        MergeNextPreserves(v, consts, a, b, others);
        AbsorbPreserves(v, consts, MergeIf(a, b), others);
        var r := Absorb(v, a, later).value;
        PreservesTwice(consts, [a] + later, [MergeIf(a, b)] + others, [r.stm] + r.rest);
      } else {
        SoundWithout(a, b, others);
        AbsorbPreserves(v, consts, a, others);
        PassPreserves(consts, a, b, others, Absorb(v, a, others).value);
      }
    }
  }

  lemma SoundWithout(a: Stm, b: Stm, l: seq<Stm>)
    requires Sound([a] + ([b] + l))
    ensures Sound([a] + l)
  {
    Cons(a, [b] + l);
    Cons(b, l);
    Cons(a, l);
  }

  /** A later sibling that stays, between a statement and those it takes in. */
  lemma PassPreserves(consts: Consts, a: Stm, b: Stm, others: seq<Stm>, r: Absorbed)
    requires Sound([a] + ([b] + others))
    requires Preserves(consts, [a] + others, [r.stm] + r.rest)
    ensures Preserves(consts, [a] + ([b] + others), [r.stm] + ([b] + r.rest))
  {
    SwapPreserves(consts, a, b, others);
    Cons(b, [a] + others);
    SingleList(b);
    PreservesConcat(consts, [b], [a] + others, [b], [r.stm] + r.rest);
    SwapPreserves(consts, b, r.stm, r.rest);
    PreservesTwice(consts, [a] + ([b] + others), [b] + ([a] + others), [b] + ([r.stm] + r.rest));
    PreservesTwice(consts, [a] + ([b] + others), [b] + ([r.stm] + r.rest), [r.stm] + ([b] + r.rest));
  }

  /** Merging siblings preserves the list. */
  lemma {:induction false} MergeStatementsPreserves(v: Version, consts: Consts, l: seq<Stm>)
    requires Sound(l) && MergeStatements(v, l).Done? && MergesRight(v, l)
    ensures Preserves(consts, l, MergeStatements(v, l).value.list)
    decreases |l|
  {
    if l != [] {
      assert l == [l[0]] + l[1..];
      Cons(l[0], l[1..]);
      SingleList(l[0]);
      if Rank(l[0]) == 0 {
        MergeStatementsPreserves(v, consts, l[1..]);
        PreservesConcat(consts, [l[0]], l[1..], [l[0]], MergeStatements(v, l[1..]).value.list);
      } else {
        AbsorbPreserves(v, consts, l[0], l[1..]);
        var a := Absorb(v, l[0], l[1..]).value;
        Cons(a.stm, a.rest);
        SingleList(a.stm);
        MergeStatementsPreserves(v, consts, a.rest);
        PreservesConcat(consts, [a.stm], a.rest, [a.stm], MergeStatements(v, a.rest).value.list);
      }
    }
  }

  lemma {:induction false} ColumnSame(v: Version, consts: Consts, reference: Stm, stms: seq<Stm>)
    requires StatementsAreSame(v, consts, reference, stms) == Same
    requires forall k :: 0 <= k < |stms| ==> SameRight(v, consts, reference, stms[k])
    ensures forall k :: 0 <= k < |stms| ==> Alike(consts, reference, stms[k])
  {
    if stms != [] {
      RightMeansSame(v, consts, reference, stms[0]);
      ColumnSame(v, consts, reference, stms[1..]);
      assert forall k :: 0 < k < |stms| ==> stms[k] == stms[1..][k - 1];
    }
  }

  /** Two lists are alike position by position, from position `i` on. */
  predicate AlikeFrom(consts: Consts, a: seq<Stm>, b: seq<Stm>, i: nat) {
    |a| == |b| && forall n :: i <= n < |a| ==> Alike(consts, a[n], b[n])
  }

  lemma {:induction false} ColumnsSame(v: Version, consts: Consts, s: Stm, i: nat)
    requires s.If? && SizesMatch(s) && i <= |s.ifTrue|
    requires ColumnsAreSame(v, consts, s, i) == Same && ColumnsRight(v, consts, s)
    ensures AlikeFrom(consts, s.ifTrue, s.ifFalse, i)
    ensures forall k :: 0 <= k < |s.elseIf| ==> AlikeFrom(consts, s.ifTrue, s.elseIf[k].body, i)
    decreases |s.ifTrue| - i
  {
    if i < |s.ifTrue| {
      ColumnSame(v, consts, s.ifTrue[i], Column(s, i));
      ColumnsSame(v, consts, s, i + 1);
      assert Column(s, i)[|s.elseIf|] == s.ifFalse[i];
      forall k | 0 <= k < |s.elseIf| ensures AlikeFrom(consts, s.ifTrue, s.elseIf[k].body, i) {
        assert Column(s, i)[k] == s.elseIf[k].body[i];
        assert AlikeFrom(consts, s.ifTrue, s.elseIf[k].body, i + 1);
      }
    }
  }

  lemma {:induction false} AlikeThroughout(consts: Consts, a: seq<Stm>, b: seq<Stm>)
    requires AlikeFrom(consts, a, b, 0)
    ensures AlikeList(consts, a, b)
  {
    if a != [] {
      assert forall n :: 0 <= n < |a| - 1 ==> Alike(consts, a[n + 1], b[n + 1]) && a[1..][n] == a[n + 1];
      AlikeThroughout(consts, a[1..], b[1..]);
    }
  }

  /** When the condition has no effect, every branch is the first one up to constants of equal value. */
  lemma BranchesAlike(v: Version, consts: Consts, s: Stm)
    requires s.If? && BranchesAreSame(v, consts, s) == Same && ColumnsRight(v, consts, s)
    ensures AlikeList(consts, s.ifTrue, s.ifFalse)
    ensures forall k :: 0 <= k < |s.elseIf| ==> AlikeList(consts, s.ifTrue, s.elseIf[k].body)
  {
    ColumnsSame(v, consts, s, 0);
    AlikeThroughout(consts, s.ifTrue, s.ifFalse);
    forall k | 0 <= k < |s.elseIf| ensures AlikeList(consts, s.ifTrue, s.elseIf[k].body) {
      AlikeThroughout(consts, s.ifTrue, s.elseIf[k].body);
    }
  }

  /** When the condition has no effect, the first branch stands for the whole if. */
  lemma FirstBranchPreserves(v: Version, consts: Consts, s: Stm)
    requires s.If? && OneDriver(s) && ElseGiven(s) && Outputs(s) !! consts.Keys
    requires BranchesAreSame(v, consts, s) == Same && ColumnsRight(v, consts, s)
    ensures Preserves(consts, [s], s.ifTrue)
  {
    BranchesAlike(v, consts, s);
    SingleList(s);
    AlikeListOutputs(consts, s.ifTrue, s.ifFalse);
    AlikeBodiesOutputs(consts, s.elseIf, s.ifTrue);
    forall env: Env | Holds(consts, env) ensures ExecList(s.ifTrue, env) == ExecList([s], env) {
      assert AlikeList(consts, s.ifTrue, Taken(s, env)) by {
        AlikeListToItself(consts, s.ifTrue);
      }
      AlikeListMeaning(consts, s.ifTrue, Taken(s, env), env);
    }
  }

  lemma {:induction false} AlikeBodiesOutputs(consts: Consts, bs: seq<Branch>, body: seq<Stm>)
    requires OutputsOfList(body) !! consts.Keys
    requires forall k :: 0 <= k < |bs| ==> AlikeList(consts, body, bs[k].body)
    ensures OutputsOfBranches(bs) <= OutputsOfList(body)
  {
    if bs != [] {
      AlikeListOutputs(consts, body, bs[0].body);
      AlikeBodiesOutputs(consts, bs[1..], body);
    }
  }

  lemma {:induction false} ElseGivenBranchesConcat(a: seq<Branch>, b: seq<Branch>)
    ensures ElseGivenBranches(a + b) <==> ElseGivenBranches(a) && ElseGivenBranches(b)
  {
    if a == [] {
      assert a + b == b;
    } else {
      assert (a + b)[1..] == a[1..] + b;
      ElseGivenBranchesConcat(a[1..], b);
    }
  }

  /** Else-ifs in place of a lone if in the else branch. */
  lemma FlattenPreserves(consts: Consts, s: Stm)
    requires s.If? && OneDriver(s) && ElseGiven(s)
    ensures Preserves(consts, [s], [Flatten(s)])
  {
    var r := Flatten(s);
    SingleList(s);
    SingleList(r);
    if r != s {
      var sub := s.ifFalse[0];
      var added := [Branch(sub.cond, sub.ifTrue)] + sub.elseIf;
      SingleList(sub);
      assert s.ifFalse == [sub] && added[1..] == sub.elseIf;
      BranchesConcat(s.elseIf, added);
      ElseGivenBranchesConcat(s.elseIf, added);
      forall env: Env ensures Exec(r, env) == Exec(s, env) {
        SelectConcat(s.elseIf, added, sub.ifFalse, env);
        assert Select(added, sub.ifFalse, env) == Taken(sub, env);
        FlattenSelect(s.elseIf, sub, env);
      }
    }
  }

  lemma {:induction false} FlattenSelect(bs: seq<Branch>, sub: Stm, env: Env)
    requires sub.If?
    ensures ExecList(Select(bs, Taken(sub, env), env), env) == ExecList(Select(bs, [sub], env), env)
  {
    SingleList(sub);
    if bs != [] {
      FlattenSelect(bs[1..], sub, env);
    }
  }

  // ---------- The main result ----------

  /**
    Reducing a statement that drives no constant leaves its writes as they were wherever the
    constant nets hold their values, as long as the queries answer rightly.
  */
  lemma {:induction false} ReducePreserves(v: Version, consts: Consts, s: Stm)
    requires OneDriver(s) && ElseGiven(s) && Outputs(s) !! consts.Keys
    requires ReduceStm(v, consts, s).Done? && AnswersRight(v, consts, s)
    ensures Preserves(consts, [s], ReduceStm(v, consts, s).value)
    decreases s, 1
  {
    SingleList(s);
    if s.If? {
      var t := ReduceList(v, consts, s.ifTrue).value;
      var e := ReduceElifs(v, consts, s.elseIf).value;
      var f := ReduceList(v, consts, s.ifFalse).value;
      ReduceListPreserves(v, consts, s.ifTrue);
      ReduceElifsPreserves(v, consts, s.elseIf);
      ReduceListPreserves(v, consts, s.ifFalse);
      var s' := Rebuild(s, t, e, f);
      RebuildPreserves(consts, s, t, e, f);
      if BranchesAreSame(v, consts, s') == Same {
        FirstBranchPreserves(v, consts, s');
      } else {
        FlattenPreserves(consts, s');
      }
      PreservesTwice(consts, [s], [s'], ReduceStm(v, consts, s).value);
    }
  }

  lemma RebuildPreserves(consts: Consts, s: Stm, t: Rewritten, e: (seq<Branch>, nat), f: Rewritten)
    requires s.If? && OneDriver(s) && ElseGiven(s)
    requires Preserves(consts, s.ifTrue, t.list) && Preserves(consts, s.ifFalse, f.list)
    requires s.ifFalse == [] ==> f.list == []
    requires PreservesBranches(consts, s.elseIf, e.0) && OneDriverBranches(e.0) && ElseGivenBranches(e.0)
    requires OutputsOfBranches(e.0) == OutputsOfBranches(s.elseIf)
    ensures var s' := Rebuild(s, t, e, f);
      OneDriver(s') && ElseGiven(s') && Outputs(s') == Outputs(s) && Preserves(consts, [s], [s'])
  {
    var s' := Rebuild(s, t, e, f);
    SingleList(s);
    SingleList(s');
    forall env: Env | Holds(consts, env) ensures Exec(s', env) == Exec(s, env) {
      SelectReduced(consts, s.elseIf, e.0, s.ifFalse, f.list, env);
      assert ExecList(t.list, env) == ExecList(s.ifTrue, env);
    }
  }

  lemma {:induction false} ReduceEachPreserves(v: Version, consts: Consts, l: seq<Stm>)
    requires Sound(l) && OutputsOfList(l) !! consts.Keys
    requires ReduceEach(v, consts, l).Done? && EachAnswersRight(v, consts, l)
    ensures Preserves(consts, l, ReduceEach(v, consts, l).value)
    decreases l, 0
  {
    if l != [] {
      assert l == [l[0]] + l[1..];
      Cons(l[0], l[1..]);
      ReducePreserves(v, consts, l[0]);
      ReduceEachPreserves(v, consts, l[1..]);
      PreservesConcat(consts, [l[0]], l[1..], ReduceStm(v, consts, l[0]).value, ReduceEach(v, consts, l[1..]).value);
    }
  }

  /** Reducing a list of siblings, merging included, leaves its writes as they were. */
  lemma {:induction false} ReduceListPreserves(v: Version, consts: Consts, l: seq<Stm>)
    requires Sound(l) && OutputsOfList(l) !! consts.Keys
    requires ReduceList(v, consts, l).Done? && ListAnswersRight(v, consts, l)
    ensures Preserves(consts, l, ReduceList(v, consts, l).value.list)
    decreases l, 1
  {
    ReduceEachPreserves(v, consts, l);
    MergeStatementsPreserves(v, consts, ReduceEach(v, consts, l).value);
  }

  /** The same conditions, and behind each of them a body that means the same. */
  ghost predicate PreservesBranches(consts: Consts, bs: seq<Branch>, rs: seq<Branch>) {
    && |rs| == |bs|
    && forall k :: 0 <= k < |bs| ==> rs[k].cond == bs[k].cond && Preserves(consts, bs[k].body, rs[k].body)
  }

  lemma {:induction false} ReduceElifsPreserves(v: Version, consts: Consts, bs: seq<Branch>)
    requires OneDriverBranches(bs) && ElseGivenBranches(bs) && OutputsOfBranches(bs) !! consts.Keys
    requires ReduceElifs(v, consts, bs).Done? && ElifsAnswersRight(v, consts, bs)
    ensures var rs := ReduceElifs(v, consts, bs).value.0;
      && PreservesBranches(consts, bs, rs) && OneDriverBranches(rs) && ElseGivenBranches(rs)
      && OutputsOfBranches(rs) == OutputsOfBranches(bs)
    decreases bs, 0
  {
    if bs != [] {
      ReduceListPreserves(v, consts, bs[0].body);
      ReduceElifsPreserves(v, consts, bs[1..]);
      assert ReduceElifs(v, consts, bs).value.0[1..] == ReduceElifs(v, consts, bs[1..]).value.0;
    }
  }

  lemma {:induction false} SelectReduced(consts: Consts, bs: seq<Branch>, rs: seq<Branch>, els: seq<Stm>,
                                         els': seq<Stm>, env: Env)
    requires PreservesBranches(consts, bs, rs) && ExecList(els', env) == ExecList(els, env) && Holds(consts, env)
    ensures ExecList(Select(rs, els', env), env) == ExecList(Select(bs, els, env), env)
  {
    if bs != [] {
      if env(bs[0].cond) != 0 {
        assert Preserves(consts, bs[0].body, rs[0].body);
      } else {
        SelectReduced(consts, bs[1..], rs[1..], els, els', env);
      }
    }
  }

  /** With the intended checks every answer is right. */
  lemma {:induction false} IntendedIsRight(consts: Consts, s: Stm)
    ensures AnswersRight(Intended, consts, s)
    decreases s, 1
  {
    if s.If? {
      IntendedListIsRight(consts, s.ifTrue);
      IntendedElifsIsRight(consts, s.elseIf);
      IntendedListIsRight(consts, s.ifFalse);
    }
  }

  lemma {:induction false} IntendedEachIsRight(consts: Consts, l: seq<Stm>)
    ensures EachAnswersRight(Intended, consts, l)
    decreases l, 0
  {
    if l != [] {
      IntendedIsRight(consts, l[0]);
      IntendedEachIsRight(consts, l[1..]);
    }
  }

  lemma {:induction false} IntendedListIsRight(consts: Consts, l: seq<Stm>)
    ensures ListAnswersRight(Intended, consts, l)
    decreases l, 1
  {
    IntendedEachIsRight(consts, l);
    if ReduceEach(Intended, consts, l).Done? {
      IntendedMergesRight(ReduceEach(Intended, consts, l).value);
    }
  }

  lemma {:induction false} IntendedElifsIsRight(consts: Consts, bs: seq<Branch>)
    ensures ElifsAnswersRight(Intended, consts, bs)
    decreases bs, 0
  {
    if bs != [] {
      IntendedListIsRight(consts, bs[0].body);
      IntendedElifsIsRight(consts, bs[1..]);
    }
  }

  lemma {:induction false} IntendedMergesRight(l: seq<Stm>)
    ensures MergesRight(Intended, l)
    decreases |l|
  {
    if l != [] {
      if Rank(l[0]) == 0 {
        IntendedMergesRight(l[1..]);
      } else {
        IntendedAbsorbRight(l[0], l[1..]);
        var a := Absorb(Intended, l[0], l[1..]);
        if a.Done? {
          IntendedMergesRight(a.value.rest);
        }
      }
    }
  }

  lemma {:induction false} IntendedAbsorbRight(a: Stm, later: seq<Stm>)
    requires Rank(a) > 0
    ensures AbsorbRight(Intended, a, later)
    decreases |later|
  {
    if later != [] {
      IntendedAbsorbRight(a, later[1..]);
      if Rank(later[0]) == Rank(a) && IsMergable(Intended, a, later[0]) && ElifsFit(a, later[0]) {
        IntendedAbsorbRight(MergeIf(a, later[0]), later[1..]);
      }
    }
  }
}
