/**
  The loops of reduction (reduce_statement.cpp, query_structural_compatible.cpp): the pass over
  an if, over its else-ifs and over a list of siblings, and the comparison of branches column
  by column.
*/
module ReduceLoop {
  import opened Lists
  import opened Statements
  import opened StructuralCmp
  import opened Reduce
  import opened SiblingMerge

  // ---------- Walking the branches ----------

  /** The queries over columns: whether all statements at one position are the same as the first branch's. */
  method IfCondHasEffect(v: Version, consts: Consts, s: Stm) returns (r: Verdict)
    requires s.If?
    ensures r == BranchesAreSame(v, consts, s)
  {
    if !s.falseSpecified || |s.ifTrue| != |s.ifFalse| {
      return Different;
    }
    for k := 0 to |s.elseIf|
      invariant forall n :: 0 <= n < k ==> |s.elseIf[n].body| == |s.ifTrue|
    {
      if |s.elseIf[k].body| != |s.ifTrue| {
        return Different;
      }
    }
    for i := 0 to |s.ifTrue|
      invariant SizesMatch(s) && ColumnsAreSame(v, consts, s, 0) == ColumnsAreSame(v, consts, s, i)
    {
      var column := Column(s, i);
      for k := 0 to |column|
        invariant StatementsAreSame(v, consts, s.ifTrue[i], column)
            == StatementsAreSame(v, consts, s.ifTrue[i], column[k..])
      {
        Shift(column, k);
        r := IsSame(v, consts, s.ifTrue[i], column[k]);
        if r != Same {
          return;
        }
      }
    }
    return Same;
  }

  /** What a loop has collected so far, in front of what the rest of the list yields. */
  function InFront(done: seq<Stm>, others: Outcome<seq<Stm>>): Outcome<seq<Stm>> {
    if others.Done? then Done(done + others.value) else others
  }

  lemma InFrontStep(done: seq<Stm>, next: seq<Stm>, others: Outcome<seq<Stm>>)
    ensures InFront([], others) == others
    ensures InFront(done, InFront(next, others)) == InFront(done + next, others)
  {
    if others.Done? {
      assert [] + others.value == others.value;
      assert done + (next + others.value) == done + next + others.value;
    }
  }

  function ElifsInFront(done: seq<Branch>, decrease: nat, others: Outcome<(seq<Branch>, nat)>)
    : Outcome<(seq<Branch>, nat)>
  {
    if others.Done? then Done((done + others.value.0, decrease + others.value.1)) else others
  }

  lemma ElifsInFrontStep(done: seq<Branch>, d: nat, next: Branch, n: nat, others: Outcome<(seq<Branch>, nat)>)
    ensures ElifsInFront([], 0, others) == others
    ensures ElifsInFront(done, d, ElifsInFront([next], n, others)) == ElifsInFront(done + [next], d + n, others)
  {
    if others.Done? {
      assert [] + others.value.0 == others.value.0;
      assert done + ([next] + others.value.0) == done + [next] + others.value.0;
    }
  }

  method ReduceStatement(v: Version, consts: Consts, s: Stm) returns (r: Outcome<seq<Stm>>)
    ensures r == ReduceStm(v, consts, s)
    decreases s, 1
  {
    if s.Assign? {
      return Done([s]);
    }
    var t := ReduceStatements(v, consts, s.ifTrue);
    if t.Failed? {
      return Failed(t.why);
    }
    var e := ReduceElseIfs(v, consts, s.elseIf);
    if e.Failed? {
      return Failed(e.why);
    }
    var f := Done(Rewritten([], 0));
    if |s.ifFalse| != 0 {
      f := ReduceStatements(v, consts, s.ifFalse);
      if f.Failed? {
        return Failed(f.why);
      }
    }
    var s' := Rebuild(s, t.value, e.value, f.value);
    var same := IfCondHasEffect(v, consts, s');
    if same == Same {
      r := Done(s'.ifTrue);
    } else if same == Different {
      r := Done([Flatten(s')]);
    } else {
      r := Failed(same);
    }
  }

  lemma NextElif(v: Version, consts: Consts, bs: seq<Branch>, body: Rewritten, others: Outcome<(seq<Branch>, nat)>)
    requires bs != [] && ReduceList(v, consts, bs[0].body) == Done(body) && others == ReduceElifs(v, consts, bs[1..])
    ensures ReduceElifs(v, consts, bs) == ElifsInFront([Branch(bs[0].cond, body.list)], body.decrease, others)
  {
  }

  method ReduceElseIfs(v: Version, consts: Consts, elifs: seq<Branch>) returns (r: Outcome<(seq<Branch>, nat)>)
    ensures r == ReduceElifs(v, consts, elifs)
    decreases elifs, 0
  {
    var newElifs: seq<Branch> := [];
    var decrease: nat := 0;
    ElifsInFrontStep([], 0, Branch(0, []), 0, ReduceElifs(v, consts, elifs));
    for k := 0 to |elifs|
      invariant ReduceElifs(v, consts, elifs) == ElifsInFront(newElifs, decrease, ReduceElifs(v, consts, elifs[k..]))
    {
      Shift(elifs, k);
      var body := ReduceStatements(v, consts, elifs[k].body);
      if body.Failed? {
        return Failed(body.why);
      }
      var branch := Branch(elifs[k].cond, body.value.list);
      NextElif(v, consts, elifs[k..], body.value, ReduceElifs(v, consts, elifs[k + 1..]));
      ElifsInFrontStep(newElifs, decrease, branch, body.value.decrease, ReduceElifs(v, consts, elifs[k + 1..]));
      newElifs := newElifs + [branch];
      decrease := decrease + body.value.decrease;
    }
    assert newElifs + [] == newElifs;
    return Done((newElifs, decrease));
  }

  method ReduceStatements(v: Version, consts: Consts, l: seq<Stm>) returns (r: Outcome<Rewritten>)
    ensures r == ReduceList(v, consts, l)
    decreases l, 1
  {
    var tmp := [];
    InFrontStep([], [], ReduceEach(v, consts, l));
    for k := 0 to |l|
      invariant ReduceEach(v, consts, l) == InFront(tmp, ReduceEach(v, consts, l[k..]))
    {
      Shift(l, k);
      var stms := ReduceStatement(v, consts, l[k]);
      if stms.Failed? {
        return Failed(stms.why);
      }
      InFrontStep(tmp, stms.value, ReduceEach(v, consts, l[k + 1..]));
      tmp := tmp + stms.value;
    }
    assert tmp + [] == tmp;
    r := MergeSiblings(v, tmp);
  }
}
