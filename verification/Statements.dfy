/**
  Statements of a netlist and what they mean.

  A statement reads the values the nets hold now and yields the writes it makes:
  assignments are non-blocking, so a branch never sees what a sibling writes.
  Nets stand for the addresses of `Net` objects: two nets are the same number
  exactly when they are the same object.
*/
module Statements {
  type Net = nat
  type Value = int
  type Env = Net -> Value

  datatype Branch = Branch(cond: Net, body: seq<Stm>)

  datatype Stm =
    | Assign(dst: Net, index: seq<Net>, src: Net)
    | If(cond: Net, ifTrue: seq<Stm>, elseIf: seq<Branch>,
         falseSpecified: bool, ifFalse: seq<Stm>, rank: nat)

  /** What one assignment does to its destination: which part it writes, and the value. */
  datatype Write = Write(index: seq<Value>, value: Value)

  type Writes = map<Net, Write>

  /** The rank field of a statement; the constructor of an assignment leaves it at zero. */
  function Rank(s: Stm): nat {
    if s.If? then s.rank else 0
  }

  // ---------- Meaning ----------

  function Values(nets: seq<Net>, env: Env): (vs: seq<Value>)
    ensures |vs| == |nets|
  {
    seq(|nets|, i requires 0 <= i < |nets| => env(nets[i]))
  }

  /** The statement list of the first branch whose condition holds, or the else list. */
  function Select(bs: seq<Branch>, els: seq<Stm>, env: Env): (r: seq<Stm>)
    ensures r == els || exists i :: 0 <= i < |bs| && r == bs[i].body
  {
    if bs == [] then els
    else if env(bs[0].cond) != 0 then bs[0].body
    else Select(bs[1..], els, env)
  }

  function Taken(s: Stm, env: Env): (r: seq<Stm>)
    requires s.If?
    ensures r == s.ifTrue || r == s.ifFalse || exists i :: 0 <= i < |s.elseIf| && r == s.elseIf[i].body
  {
    if env(s.cond) != 0 then s.ifTrue else Select(s.elseIf, s.ifFalse, env)
  }

  function Exec(s: Stm, env: Env): Writes
    decreases s, 1
  {
    match s
    case Assign(dst, index, src) => map[dst := Write(Values(index, env), env(src))]
    case If(_, _, _, _, _, _) =>
      var taken := Taken(s, env);
      assert taken == s.ifTrue || taken == s.ifFalse || exists i :: 0 <= i < |s.elseIf| && taken == s.elseIf[i].body;
      ExecList(taken, env)
  }

  function ExecList(l: seq<Stm>, env: Env): Writes
    decreases l, 0
  {
    if l == [] then map[] else Exec(l[0], env) + ExecList(l[1..], env)
  }

  // ---------- Outputs and the one-driver rule ----------

  function Outputs(s: Stm): set<Net>
    decreases s, 1
  {
    match s
    case Assign(dst, _, _) => {dst}
    case If(_, t, e, _, f, _) => OutputsOfList(t) + OutputsOfBranches(e) + OutputsOfList(f)
  }

  function OutputsOfList(l: seq<Stm>): set<Net>
    decreases l, 0
  {
    if l == [] then {} else Outputs(l[0]) + OutputsOfList(l[1..])
  }

  function OutputsOfBranches(bs: seq<Branch>): set<Net>
    decreases bs, 0
  {
    if bs == [] then {} else OutputsOfList(bs[0].body) + OutputsOfBranches(bs[1..])
  }

  /** Within every statement list a net has at most one driver. */
  predicate OneDriver(s: Stm)
    decreases s, 1
  {
    match s
    case Assign(_, _, _) => true
    case If(_, t, e, _, f, _) => OneDriverList(t) && OneDriverBranches(e) && OneDriverList(f)
  }

  predicate OneDriverList(l: seq<Stm>)
    decreases l, 0
  {
    l == [] || (OneDriver(l[0]) && Outputs(l[0]) !! OutputsOfList(l[1..]) && OneDriverList(l[1..]))
  }

  predicate OneDriverBranches(bs: seq<Branch>)
    decreases bs, 0
  {
    bs == [] || (OneDriverList(bs[0].body) && OneDriverBranches(bs[1..]))
  }

  // ---------- Facts used by every pass ----------

  lemma SwapMiddle(w: Writes, x: Writes, y: Writes, z: Writes)
    requires x.Keys !! y.Keys
    ensures (w + x) + (y + z) == (w + y) + (x + z)
  {
  }

  lemma MovePast(x: Writes, y: Writes, z: Writes)
    ensures x + (y + z) == (x + y) + z
    ensures x.Keys !! y.Keys ==> x + (y + z) == y + (x + z)
  {
  }

  lemma {:induction false} ExecConcat(a: seq<Stm>, b: seq<Stm>, env: Env)
    ensures ExecList(a + b, env) == ExecList(a, env) + ExecList(b, env)
  {
    if a == [] {
      assert a + b == b;
    } else {
      assert (a + b)[1..] == a[1..] + b;
      ExecConcat(a[1..], b, env);
      MovePast(Exec(a[0], env), ExecList(a[1..], env), ExecList(b, env));
    }
  }

  lemma {:induction false} OutputsConcat(a: seq<Stm>, b: seq<Stm>)
    ensures OutputsOfList(a + b) == OutputsOfList(a) + OutputsOfList(b)
  {
    if a == [] {
      assert a + b == b;
    } else {
      assert (a + b)[1..] == a[1..] + b;
      OutputsConcat(a[1..], b);
    }
  }

  lemma {:induction false} OneDriverConcat(a: seq<Stm>, b: seq<Stm>)
    ensures OneDriverList(a + b) <==>
            OneDriverList(a) && OneDriverList(b) && OutputsOfList(a) !! OutputsOfList(b)
  {
    if a == [] {
      assert a + b == b;
    } else {
      assert (a + b)[1..] == a[1..] + b;
      OutputsConcat(a[1..], b);
      OneDriverConcat(a[1..], b);
    }
  }

  lemma {:induction false} BranchesConcat(a: seq<Branch>, b: seq<Branch>)
    ensures OutputsOfBranches(a + b) == OutputsOfBranches(a) + OutputsOfBranches(b)
    ensures OneDriverBranches(a + b) <==> OneDriverBranches(a) && OneDriverBranches(b)
  {
    if a == [] {
      assert a + b == b;
    } else {
      assert (a + b)[1..] == a[1..] + b;
      BranchesConcat(a[1..], b);
    }
  }

  lemma {:induction false} BranchOutputs(bs: seq<Branch>, i: nat)
    requires i < |bs|
    ensures OutputsOfList(bs[i].body) <= OutputsOfBranches(bs)
    ensures OneDriverBranches(bs) ==> OneDriverList(bs[i].body)
  {
    if i > 0 {
      BranchOutputs(bs[1..], i - 1);
    }
  }

  lemma TakenOutputs(s: Stm, env: Env)
    requires s.If?
    ensures OutputsOfList(Taken(s, env)) <= Outputs(s)
    ensures OneDriver(s) ==> OneDriverList(Taken(s, env))
  {
    var taken := Taken(s, env);
    if taken != s.ifTrue && taken != s.ifFalse {
      var i :| 0 <= i < |s.elseIf| && taken == s.elseIf[i].body;
      BranchOutputs(s.elseIf, i);
    }
  }

  /** A statement writes nothing but its outputs. */
  lemma {:induction false} WritesAreOutputs(s: Stm, env: Env)
    ensures Exec(s, env).Keys <= Outputs(s)
    decreases s, 1
  {
    if s.If? {
      var taken := Taken(s, env);
      assert taken == s.ifTrue || taken == s.ifFalse || exists i :: 0 <= i < |s.elseIf| && taken == s.elseIf[i].body;
      ListWritesAreOutputs(taken, env);
      TakenOutputs(s, env);
    }
  }

  lemma {:induction false} ListWritesAreOutputs(l: seq<Stm>, env: Env)
    ensures ExecList(l, env).Keys <= OutputsOfList(l)
    decreases l, 0
  {
    if l != [] {
      WritesAreOutputs(l[0], env);
      ListWritesAreOutputs(l[1..], env);
    }
  }

  lemma SelectConcat(a: seq<Branch>, b: seq<Branch>, els: seq<Stm>, env: Env)
    ensures Select(a + b, els, env) == Select(a, Select(b, els, env), env)
  {
    if a == [] {
      assert a + b == b;
    } else {
      assert (a + b)[1..] == a[1..] + b;
      SelectConcat(a[1..], b, els, env);
    }
  }
}
