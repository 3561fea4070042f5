/**
  Which outputs a statement drives on every path (query_enclosure.cpp).  An output it
  does not enclose is a latch.
*/
module Enclosure {
  import opened Statements

  /** The outputs recorded in `enclosed_for`. */
  function Enclosed(s: Stm): set<Net>
    decreases s, 1
  {
    match s
    case Assign(dst, _, _) => {dst}
    case If(_, t, e, _, f, _) => InAll(e, EnclosedList(t)) * EnclosedList(f)
  }

  function EnclosedList(l: seq<Stm>): set<Net>
    decreases l, 0
  {
    if l == [] then {} else Enclosed(l[0]) + EnclosedList(l[1..])
  }

  /** Those of `s` that every else-if encloses too. */
  function InAll(bs: seq<Branch>, s: set<Net>): set<Net>
    decreases bs, 0
  {
    if bs == [] then s else InAll(bs[1..], s * EnclosedList(bs[0].body))
  }

  lemma {:induction false} EnclosedAreOutputs(s: Stm)
    ensures Enclosed(s) <= Outputs(s)
    decreases s, 1
  {
    if s.If? {
      EnclosedListAreOutputs(s.ifTrue);
      EnclosedListAreOutputs(s.ifFalse);
    }
  }

  lemma {:induction false} EnclosedListAreOutputs(l: seq<Stm>)
    ensures EnclosedList(l) <= OutputsOfList(l)
    decreases l, 0
  {
    if l != [] {
      EnclosedAreOutputs(l[0]);
      EnclosedListAreOutputs(l[1..]);
    }
  }

  lemma {:induction false} InAllMeans(bs: seq<Branch>, s: set<Net>, o: Net)
    ensures o in InAll(bs, s) <==> o in s && forall k :: 0 <= k < |bs| ==> o in EnclosedList(bs[k].body)
  {
    if bs != [] {
      InAllMeans(bs[1..], s * EnclosedList(bs[0].body), o);
      assert forall k :: 0 < k < |bs| ==> bs[k] == bs[1..][k - 1];
      assert forall k :: 0 <= k < |bs| - 1 ==> bs[1..][k] == bs[k + 1];
    }
  }

  // ---------- The loops ----------

  /** The lookup of each output's driver in one branch; that there is no second one is asserted. */
  method EncloseList(l: seq<Stm>, outputs: seq<Net>) returns (result: set<Net>)
    requires OneDriverList(l)
    ensures result == set o | o in outputs && o in EnclosedList(l)
  {
    result := {};
    for n := 0 to |outputs|
      invariant result == set o | o in outputs[..n] && o in EnclosedList(l)
    {
      var o := outputs[n];
      var hasDriver, enclosed := false, false;
      for k := 0 to |l|
        invariant OneDriverList(l[k..])
        invariant hasDriver ==> o !in OutputsOfList(l[k..])
        invariant o in EnclosedList(l) <==> enclosed || o in EnclosedList(l[k..])
      {
        assert l[k..][0] == l[k] && l[k..][1..] == l[k + 1..];
        EnclosedAreOutputs(l[k]);
        if o in Outputs(l[k]) {
          assert !hasDriver;
          hasDriver := true;
          if o in Enclosed(l[k]) {
            enclosed := true;
          }
        }
      }
      if enclosed {
        result := result + {o};
      }
      assert outputs[..n + 1] == outputs[..n] + [o];
    }
    assert outputs[..|outputs|] == outputs;
  }

  /** The sets stored with an if, and the outputs that end in its `enclosed_for`. */
  method EncloseIf(s: Stm, outputs: seq<Net>) returns (encl: set<Net>)
    requires s.If? && OneDriver(s)
    requires forall o :: o in Outputs(s) <==> o in outputs
    ensures encl == Enclosed(s)
  {
    var ifTrue := EncloseList(s.ifTrue, outputs);
    var ifFalse := EncloseList(s.ifFalse, outputs);
    encl := ifTrue;
    for k := 0 to |s.elseIf|
      invariant OneDriverBranches(s.elseIf[k..])
      invariant forall o :: o in encl <==>
        o in ifTrue && forall n :: 0 <= n < k ==> o in EnclosedList(s.elseIf[n].body)
    {
      assert s.elseIf[k..][0] == s.elseIf[k] && s.elseIf[k..][1..] == s.elseIf[k + 1..];
      var elif := EncloseList(s.elseIf[k].body, outputs);
      encl := encl * elif;
    }
    encl := encl * ifFalse;
    EnclosedAreOutputs(s);
    forall o ensures o in encl <==> o in Enclosed(s) {
      InAllMeans(s.elseIf, EnclosedList(s.ifTrue), o);
      EnclosedListAreOutputs(s.ifTrue);
    }
  }

  // ---------- What is enclosed ----------

  /** Every set of nets that the statement drives under some choice of a branch at each if. */
  ghost function Outcomes(s: Stm): set<set<Net>>
    decreases s, 1
  {
    match s
    case Assign(dst, _, _) => {{dst}}
    case If(_, t, e, _, f, _) => ListOutcomes(t) + BranchOutcomes(e) + ListOutcomes(f)
  }

  ghost function ListOutcomes(l: seq<Stm>): set<set<Net>>
    decreases l, 0
  {
    if l == [] then {{}} else Unions(Outcomes(l[0]), ListOutcomes(l[1..]))
  }

  ghost function BranchOutcomes(bs: seq<Branch>): set<set<Net>>
    decreases bs, 0
  {
    if bs == [] then {} else ListOutcomes(bs[0].body) + BranchOutcomes(bs[1..])
  }

  ghost function Unions(xs: set<set<Net>>, ys: set<set<Net>>): (r: set<set<Net>>)
    ensures forall x, y :: x in xs && y in ys ==> x + y in r
    ensures forall z :: z in r ==> exists x, y :: x in xs && y in ys && z == x + y
  {
    set x, y | x in xs && y in ys :: x + y
  }

  ghost predicate InEvery(o: Net, outcomes: set<set<Net>>) {
    forall d :: d in outcomes ==> o in d
  }

  lemma InEveryUnion(o: Net, xs: set<set<Net>>, ys: set<set<Net>>)
    ensures InEvery(o, Unions(xs, ys)) <==> InEvery(o, xs) || InEvery(o, ys)
  {
    if !InEvery(o, xs) && !InEvery(o, ys) {
      var x :| x in xs && o !in x;
      var y :| y in ys && o !in y;
      assert x + y in Unions(xs, ys);
    }
  }

  /** An output is recorded as enclosed exactly when every combination of branch outcomes drives it. */
  lemma {:induction false} EnclosedExactly(s: Stm, o: Net)
    ensures o in Enclosed(s) <==> InEvery(o, Outcomes(s))
    decreases s, 1
  {
    match s
    case Assign(dst, _, _) =>
      assert {dst} in Outcomes(s);
    case If(_, t, e, _, f, _) =>
      ListEnclosedExactly(t, o);
      BranchesEnclosedExactly(e, o);
      ListEnclosedExactly(f, o);
      InAllMeans(e, EnclosedList(t), o);
  }

  lemma {:induction false} ListEnclosedExactly(l: seq<Stm>, o: Net)
    ensures o in EnclosedList(l) <==> InEvery(o, ListOutcomes(l))
    decreases l, 0
  {
    if l == [] {
      assert {} in ListOutcomes(l);
    } else {
      EnclosedExactly(l[0], o);
      ListEnclosedExactly(l[1..], o);
      InEveryUnion(o, Outcomes(l[0]), ListOutcomes(l[1..]));
    }
  }

  lemma {:induction false} BranchesEnclosedExactly(bs: seq<Branch>, o: Net)
    ensures (forall k :: 0 <= k < |bs| ==> o in EnclosedList(bs[k].body)) <==> InEvery(o, BranchOutcomes(bs))
    decreases bs, 0
  {
    if bs != [] {
      ListEnclosedExactly(bs[0].body, o);
      BranchesEnclosedExactly(bs[1..], o);
      assert forall k :: 0 < k < |bs| ==> bs[k] == bs[1..][k - 1];
      assert forall k :: 0 <= k < |bs| - 1 ==> bs[1..][k] == bs[k + 1];
    }
  }

  /** What a statement drives in an environment is one of its outcomes. */
  lemma {:induction false} ExecIsOutcome(s: Stm, env: Env)
    ensures Exec(s, env).Keys in Outcomes(s)
    decreases s, 1
  {
    if s.Assign? {
      assert Exec(s, env).Keys == {s.dst};
    } else {
      var taken := Taken(s, env);
      assert taken == s.ifTrue || taken == s.ifFalse || exists i :: 0 <= i < |s.elseIf| && taken == s.elseIf[i].body;
      ListExecIsOutcome(taken, env);
      if taken != s.ifTrue && taken != s.ifFalse {
        var i :| 0 <= i < |s.elseIf| && taken == s.elseIf[i].body;
        OutcomesOfBranch(s.elseIf, i);
      }
    }
  }

  lemma {:induction false} ListExecIsOutcome(l: seq<Stm>, env: Env)
    ensures ExecList(l, env).Keys in ListOutcomes(l)
    decreases l, 0
  {
    if l == [] {
      assert ExecList(l, env).Keys == {};
    } else {
      ExecIsOutcome(l[0], env);
      ListExecIsOutcome(l[1..], env);
      assert ExecList(l, env).Keys == Exec(l[0], env).Keys + ExecList(l[1..], env).Keys;
    }
  }

  lemma {:induction false} OutcomesOfBranch(bs: seq<Branch>, i: nat)
    requires i < |bs|
    ensures ListOutcomes(bs[i].body) <= BranchOutcomes(bs)
  {
    if i > 0 {
      OutcomesOfBranch(bs[1..], i - 1);
    }
  }

  /** An enclosed output is driven in every environment: it is no latch. */
  lemma EnclosedIsDriven(s: Stm, o: Net, env: Env)
    requires o in Enclosed(s)
    ensures o in Exec(s, env)
  {
    EnclosedExactly(s, o);
    ExecIsOutcome(s, env);
  }
}
